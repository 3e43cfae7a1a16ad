/**
 * The name the dashboard greets a signed-in user with, chosen from the
 * identity provider's user attributes.
 */
module Dashboard {
  import opened Wrappers
  import opened Text
  import Session

  /** Shown when there are no attributes at all, and as the stand-in `sub`. */
  const DefaultName: string := "사용자"

  /** How many characters of `sub` are shown before the ellipsis. */
  const SubPrefixLength: nat := 8

  /** `d.get(key, default)` on the attribute map. */
  function Get(info: Session.Attributes, key: string, default: string): string {
    if key in info then info[key] else default
  }

  /** `s[:n]`: the first `n` characters, or all of `s` when it is shorter. */
  function Take(s: string, n: nat): (r: string)
    ensures |r| == if |s| < n then |s| else n
    ensures r <= s
  {
    if |s| <= n then s else s[..n]
  }

  /** `_get_display_name`: the preferred username if set; else the family and
      given names joined by a space and stripped, if either is set; else the
      part of the email before its first '@', if an email is set; else the
      first eight characters of `sub` (or of the default name) and "...". */
  function DisplayName(userInfo: Option<Session.Attributes>): (r: string)
    ensures userInfo.None? || userInfo.value == map[] ==> r == DefaultName
    ensures userInfo.Some? && Truthy(Get(userInfo.value, "preferred_username", "")) ==>
              r == userInfo.value["preferred_username"]
  {
    match userInfo
    case None => DefaultName
    case Some(info) =>
      if info == map[] then DefaultName
      else if Truthy(Get(info, "preferred_username", "")) then info["preferred_username"]
      else
        var given := Get(info, "given_name", "");
        var family := Get(info, "family_name", "");
        if Truthy(given) || Truthy(family) then Strip(family + " " + given)
        else if Truthy(Get(info, "email", "")) then Split(info["email"], '@')[0]
        else Take(Get(info, "sub", DefaultName), SubPrefixLength) + "..."
  }

  /** Attributes with no preferred username. */
  predicate NoPreferred(info: Session.Attributes) {
    !Truthy(Get(info, "preferred_username", ""))
  }

  /** Attributes with neither a given nor a family name. */
  predicate NoNames(info: Session.Attributes) {
    !Truthy(Get(info, "given_name", "")) && !Truthy(Get(info, "family_name", ""))
  }

  /** With both names set and neither padded, the greeting is "family given". */
  lemma {:induction false} FullNameShown(info: Session.Attributes)
    requires info != map[] && NoPreferred(info)
    requires "given_name" in info && "family_name" in info
    requires var g, f := info["given_name"], info["family_name"];
             g != [] && f != [] && !IsSpace(f[0]) && !IsSpace(g[|g| - 1])
    ensures DisplayName(Some(info)) == info["family_name"] + " " + info["given_name"]
  {
    var g, f := info["given_name"], info["family_name"];
    var full := f + " " + g;
    assert full[0] == f[0] && full[|full| - 1] == g[|g| - 1];
    StripUnchanged(full);
  }

  /** With only one of the names set (and not padded) that name alone is the
      greeting: the joining space is stripped away. */
  lemma {:induction false} SingleNameShown(info: Session.Attributes)
    requires info != map[] && NoPreferred(info)
    requires var g, f := Get(info, "given_name", ""), Get(info, "family_name", "");
             (g == [] && f != [] && !IsSpace(f[0]) && !IsSpace(f[|f| - 1]))
             || (f == [] && g != [] && !IsSpace(g[0]) && !IsSpace(g[|g| - 1]))
    ensures var g, f := Get(info, "given_name", ""), Get(info, "family_name", "");
            DisplayName(Some(info)) == if g == [] then f else g
  {
    NamesJoined(info);
    OneNameJoined(Get(info, "family_name", ""), Get(info, "given_name", ""));
  }

  /** Joining an unpadded name with an empty one by a space and stripping
      gives back the name. */
  lemma {:induction false} OneNameJoined(f: string, g: string)
    requires (g == [] && f != [] && !IsSpace(f[0]) && !IsSpace(f[|f| - 1]))
             || (f == [] && g != [] && !IsSpace(g[0]) && !IsSpace(g[|g| - 1]))
    ensures Strip(f + " " + g) == if g == [] then f else g
  {
    if g == [] {
      assert f + " " + g == [] + f + " ";
      StripPadded([], f, " ");
    } else {
      assert f + " " + g == " " + g + [];
      StripPadded(" ", g, []);
    }
  }

  /** Without a preferred username but with a name, the greeting is the
      stripped "family given". */
  lemma {:induction false} NamesJoined(info: Session.Attributes)
    requires info != map[] && NoPreferred(info) && !NoNames(info)
    ensures DisplayName(Some(info)) ==
              Strip(Get(info, "family_name", "") + " " + Get(info, "given_name", ""))
  {
  }

  /** Without a preferred username or names, a set email gives the text
      before its first '@': a prefix of the email with no '@' in it, and the
      whole email when it has no '@'. */
  lemma {:induction false} EmailLocalPartShown(info: Session.Attributes)
    requires info != map[] && NoPreferred(info) && NoNames(info)
    requires "email" in info && info["email"] != ""
    ensures var r, email := DisplayName(Some(info)), info["email"];
            && r <= email
            && '@' !in r
            && ('@' in email ==> email[|r|] == '@')
            && ('@' !in email ==> r == email)
  {
    var email := info["email"];
    SplitHead(email, '@');
  }

  /** With nothing else to go on, the greeting is the first eight characters
      of `sub` (all of it when shorter; the default name when `sub` is
      absent) followed by "...". */
  lemma {:induction false} SubFallbackShown(info: Session.Attributes)
    requires info != map[] && NoPreferred(info) && NoNames(info)
    requires !Truthy(Get(info, "email", ""))
    ensures var r, sub := DisplayName(Some(info)), Get(info, "sub", DefaultName);
            && |r| == (if |sub| < SubPrefixLength then |sub| else SubPrefixLength) + 3
            && r[..|r| - 3] <= sub
            && r[|r| - 3..] == "..."
            && ("sub" !in info ==> r == DefaultName + "...")
  {
    var sub := Get(info, "sub", DefaultName);
    var r := Take(sub, SubPrefixLength) + "...";
    assert r[..|r| - 3] == Take(sub, SubPrefixLength);
  }
}
