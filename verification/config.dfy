/**
 * The admin console's configuration: the nested settings built from the
 * environment, the check for the two required identity-provider settings,
 * and the dotted-path lookup with a default.
 *
 * Reading the `.env` file, caching and stopping the page are not modelled:
 * the environment is a map from variable name to value, and stopping the
 * page is the `Failure` side of the loader's result.
 */
module Config {
  import opened Wrappers
  import opened Text

  /** A value in the nested settings: Python's `None`, a string, or a
      dictionary of further settings. */
  datatype ConfigValue = Null | Str(text: string) | Section(entries: map<string, ConfigValue>)

  /** Python truthiness of a setting: `None`, `""` and `{}` are falsy. */
  predicate IsTruthy(v: ConfigValue) {
    match v
    case Null => false
    case Str(t) => t != ""
    case Section(m) => m != map[]
  }

  // ------------------------------------------------------------ path lookup

  /** Follows `keys` through nested sections; `None` as soon as a key is
      missing or the value reached is not a section. */
  function Resolve(v: ConfigValue, keys: seq<string>): (r: Option<ConfigValue>)
    ensures keys == [] ==> r == Some(v)
    ensures keys != [] && !(v.Section? && keys[0] in v.entries) ==> r.None?
    decreases |keys|
  {
    if keys == [] then Some(v)
    else if v.Section? && keys[0] in v.entries then Resolve(v.entries[keys[0]], keys[1..])
    else None
  }

  /** `get_config_value`: splits the path at every '.', walks the segments
      and answers the value reached, or `default` when the walk fails. A
      stored `None` is a value and is answered as such. */
  function GetConfigValue(config: ConfigValue, keyPath: string, default: ConfigValue): (r: ConfigValue)
    ensures '.' !in keyPath ==>
              r == if config.Section? && keyPath in config.entries then config.entries[keyPath] else default
    ensures !config.Section? ==> r == default
  {
    var keys := Split(keyPath, '.');
    assert '.' !in keyPath ==> keys == [keyPath] && keys[1..] == [] by {
      if '.' !in keyPath {
        SplitWithoutSeparator(keyPath, '.');
      }
    }
    Resolve(config, keys).GetOr(default)
  }

  /** Walking a longer path is walking its prefix, then the rest from where
      the prefix led; a failed prefix fails the whole walk. */
  lemma {:induction false} ResolveAppend(v: ConfigValue, first: seq<string>, rest: seq<string>)
    ensures Resolve(v, first + rest) ==
              match Resolve(v, first)
              case None => None
              case Some(u) => Resolve(u, rest)
    decreases |first|
  {
    if first == [] {
      assert first + rest == rest;
    } else {
      assert (first + rest)[0] == first[0];
      assert (first + rest)[1..] == first[1..] + rest;
      if v.Section? && first[0] in v.entries {
        ResolveAppend(v.entries[first[0]], first[1..], rest);
      }
    }
  }

  /** A path written as its segments joined by '.' reaches exactly what the
      segments reach, or the default when they reach nothing. */
  lemma {:induction false} DottedPathLookup(config: ConfigValue, keys: seq<string>, default: ConfigValue)
    requires |keys| >= 1
    requires forall i :: 0 <= i < |keys| ==> '.' !in keys[i]
    ensures GetConfigValue(config, Join(keys, '.'), default) ==
              match Resolve(config, keys)
              case Some(v) => v
              case None => default
  {
    SplitJoin(keys, '.');
  }

  /** If a walk passes through a value that is not a dictionary before the
      path ends, the lookup answers the default. */
  lemma {:induction false} LookupThroughLeaf(config: ConfigValue, keys: seq<string>, k: nat, default: ConfigValue)
    requires |keys| >= 1
    requires forall i :: 0 <= i < |keys| ==> '.' !in keys[i]
    requires k < |keys|
    requires Resolve(config, keys[..k]).Some? && !Resolve(config, keys[..k]).value.Section?
    ensures GetConfigValue(config, Join(keys, '.'), default) == default
  {
    DottedPathLookup(config, keys, default);
    ResolveAppend(config, keys[..k], keys[k..]);
    assert keys[..k] + keys[k..] == keys;
  }

  // --------------------------------------------------------- the app config

  const ClientIdVar: string := "AWS_COGNITO_CLIENT_ID"
  const UserPoolIdVar: string := "AWS_COGNITO_USER_POOL_ID"
  const RegionVar: string := "AWS_REGION"
  const DefaultRegion: string := "ap-northeast-2"

  /** `os.getenv(name)`: the variable's value, `None` when it is unset. */
  function GetEnv(env: map<string, string>, name: string): ConfigValue {
    if name in env then Str(env[name]) else Null
  }

  const ClientIdKey: string := "cognito_client_id"
  const UserPoolIdKey: string := "cognito_user_pool_id"
  const RegionKey: string := "region"

  /** `"aws." + key` for a key without a '.' splits into `["aws", key]`. */
  lemma {:induction false} AwsPath(key: string)
    requires '.' !in key
    ensures Split("aws." + key, '.') == ["aws", key]
  {
    assert Join(["aws", key], '.') == "aws." + key by {
      assert Join([key], '.') == key;
    }
    SplitJoin(["aws", key], '.');
  }

  /** The settings `load_app_config` builds: the `aws` section with the client
      id, the user-pool id and the region, the region falling back to
      'ap-northeast-2' only when the variable is unset (an empty value is
      kept). */
  function BuildConfig(env: map<string, string>): (config: ConfigValue)
    ensures Resolve(config, ["aws", ClientIdKey]) == Some(GetEnv(env, ClientIdVar))
    ensures Resolve(config, ["aws", UserPoolIdKey]) == Some(GetEnv(env, UserPoolIdVar))
    ensures Resolve(config, ["aws", RegionKey]) ==
              Some(Str(if RegionVar in env then env[RegionVar] else DefaultRegion))
  {
    var aws := map[
      ClientIdKey := GetEnv(env, ClientIdVar),
      UserPoolIdKey := GetEnv(env, UserPoolIdVar),
      RegionKey := Str(if RegionVar in env then env[RegionVar] else DefaultRegion)];
    Section(map["aws" := Section(aws)])
  }

  /** The required settings, as `(path, variable)` pairs in checking order. */
  const RequiredKeys: seq<(string, string)> :=
    [("aws." + ClientIdKey, ClientIdVar), ("aws." + UserPoolIdKey, UserPoolIdVar)]

  /** The variables whose required setting is falsy, in the order of
      `required`. */
  function MissingFrom(config: ConfigValue, required: seq<(string, string)>): (missing: seq<string>)
    ensures |missing| <= |required|
    ensures forall i :: 0 <= i < |missing| ==> exists j :: 0 <= j < |required| && missing[i] == required[j].1
  {
    if required == [] then []
    else
      (if IsTruthy(GetConfigValue(config, required[0].0, Null)) then [] else [required[0].1])
      + MissingFrom(config, required[1..])
  }

  /** The loader either returns the settings or stops the page naming the
      missing variables. */
  function LoadAppConfig(env: map<string, string>): (r: Result<ConfigValue, seq<string>>)
    ensures r.Success? ==> r.value == BuildConfig(env) && MissingFrom(BuildConfig(env), RequiredKeys) == []
    ensures r.Failure? ==> r.error == MissingFrom(BuildConfig(env), RequiredKeys) && r.error != []
  {
    var config := BuildConfig(env);
    var missing := MissingFrom(config, RequiredKeys);
    if missing != [] then Failure(missing) else Success(config)
  }

  /** A variable counts as missing exactly when it is unset or empty. */
  predicate Blank(env: map<string, string>, name: string) {
    name !in env || env[name] == ""
  }

  /** Looking up `"aws." + key` in the loader's settings answers the value
      it stored under that key. */
  lemma AwsSetting(env: map<string, string>, key: string)
    requires key == ClientIdKey || key == UserPoolIdKey || key == RegionKey
    ensures Resolve(BuildConfig(env), ["aws", key]).Some?
    ensures GetConfigValue(BuildConfig(env), "aws." + key, Null) == Resolve(BuildConfig(env), ["aws", key]).value
  {
    assert '.' !in key;
    AwsPath(key);
  }

  /** The three settings the loader builds, read back through their paths. */
  lemma AwsSettings(env: map<string, string>)
    ensures GetConfigValue(BuildConfig(env), "aws." + ClientIdKey, Null) == GetEnv(env, ClientIdVar)
    ensures GetConfigValue(BuildConfig(env), "aws." + UserPoolIdKey, Null) == GetEnv(env, UserPoolIdVar)
    ensures GetConfigValue(BuildConfig(env), "aws." + RegionKey, Null) ==
              Str(if RegionVar in env then env[RegionVar] else DefaultRegion)
  {
    AwsSetting(env, ClientIdKey);
    AwsSetting(env, UserPoolIdKey);
    AwsSetting(env, RegionKey);
  }

  /** The missing list is exactly the unset-or-empty required variables,
      client id before user-pool id; the region never makes the loader fail. */
  lemma {:induction false} MissingConfigsExact(env: map<string, string>)
    ensures MissingFrom(BuildConfig(env), RequiredKeys) ==
              (if Blank(env, ClientIdVar) then [ClientIdVar] else [])
              + (if Blank(env, UserPoolIdVar) then [UserPoolIdVar] else [])
    ensures LoadAppConfig(env).Failure? <==> Blank(env, ClientIdVar) || Blank(env, UserPoolIdVar)
  {
    var config := BuildConfig(env);
    assert MissingFrom(config, RequiredKeys) ==
             (if IsTruthy(GetConfigValue(config, "aws." + ClientIdKey, Null)) then [] else [ClientIdVar])
             + (if IsTruthy(GetConfigValue(config, "aws." + UserPoolIdKey, Null)) then [] else [UserPoolIdVar]) by {
      MissingFromTwo(config, RequiredKeys[0], RequiredKeys[1]);
    }
    assert IsTruthy(GetConfigValue(config, "aws." + ClientIdKey, Null)) <==> !Blank(env, ClientIdVar) by {
      AwsSettings(env);
    }
    assert IsTruthy(GetConfigValue(config, "aws." + UserPoolIdKey, Null)) <==> !Blank(env, UserPoolIdVar) by {
      AwsSettings(env);
    }
  }

  /** The missing list for two required settings, one entry at a time. */
  lemma {:induction false} MissingFromTwo(config: ConfigValue, first: (string, string), second: (string, string))
    ensures MissingFrom(config, [first, second]) ==
              (if IsTruthy(GetConfigValue(config, first.0, Null)) then [] else [first.1])
              + (if IsTruthy(GetConfigValue(config, second.0, Null)) then [] else [second.1])
  {
    assert [first, second][1..] == [second];
    assert [second][1..] == [];
  }

  /** With both required variables set and non-empty the loader succeeds,
      and the region it reports is the variable's value or the default. */
  lemma LoadedRegion(env: map<string, string>)
    requires !Blank(env, ClientIdVar) && !Blank(env, UserPoolIdVar)
    ensures LoadAppConfig(env).Success?
    ensures GetConfigValue(LoadAppConfig(env).value, "aws." + RegionKey, Null) ==
              Str(if RegionVar in env then env[RegionVar] else DefaultRegion)
  {
    MissingConfigsExact(env);
    AwsSettings(env);
  }
}
