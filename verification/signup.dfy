/**
 * The user attributes sent with a sign-up request: the email always, then
 * the phone number (normalised to an international '+82' number), the given
 * name and the family name, each only when supplied and not blank.
 *
 * The identity-provider call the list is handed to is not modelled.
 */
module SignUp {
  import opened Wrappers
  import opened Text

  /** One `{'Name': ..., 'Value': ...}` entry. */
  datatype Attribute = Attribute(name: string, value: string)

  const CountryPrefix: string := "+82"

  /** An optional form field that Python treats as present: not `None`, not
      empty, and not whitespace only (`x and x.strip()`). */
  predicate Supplied(field: Option<string>) {
    field.Some? && !AllSpace(field.value)
  }

  /** A number already starting with '+' is kept verbatim; any other gets the
      '+82' prefix in place of its leading zeros. */
  function NormalisePhone(phone: string): (r: string)
    ensures |r| > 0 && r[0] == '+'
    ensures |phone| > 0 && phone[0] == '+' ==> r == phone
  {
    if |phone| > 0 && phone[0] == '+' then phone
    else CountryPrefix + LStripChar(phone, '0')
  }

  /** `rest` is what is left of `phone` once its leading zeros are gone. */
  predicate LeadingZerosDropped(phone: string, rest: string) {
    && |rest| <= |phone|
    && rest == phone[|phone| - |rest|..]
    && (forall i :: 0 <= i < |phone| - |rest| ==> phone[i] == '0')
    && (rest == [] || rest[0] != '0')
  }

  /** A domestic number loses exactly its leading zeros to the prefix. */
  lemma {:induction false} DomesticPhone(phone: string, rest: string)
    requires !(|phone| > 0 && phone[0] == '+')
    requires LeadingZerosDropped(phone, rest)
    ensures NormalisePhone(phone) == CountryPrefix + rest
  {
    ZerosDroppedUnique(phone, rest, LStripChar(phone, '0'));
  }

  /** There is only one way to drop the leading zeros. */
  lemma {:induction false} ZerosDroppedUnique(phone: string, a: string, b: string)
    requires LeadingZerosDropped(phone, a) && LeadingZerosDropped(phone, b)
    ensures a == b
  {
  }

  /** Normalising an already normalised number changes nothing. */
  lemma NormalisePhoneIdempotent(phone: string)
    ensures NormalisePhone(NormalisePhone(phone)) == NormalisePhone(phone)
  {
  }

  /** "010-1234-5678" is sent as "+8210-1234-5678". */
  lemma DomesticPhoneExample()
    ensures NormalisePhone("010-1234-5678") == "+8210-1234-5678"
  {
    var phone := "010-1234-5678";
    assert phone[1..] == "10-1234-5678";
    DomesticPhone(phone, phone[1..]);
  }

  /** `[entry]` when `present` holds, nothing otherwise. */
  function OptionalEntry(present: bool, entry: Attribute): (r: seq<Attribute>)
    ensures |r| <= 1 && (r != [] <==> present) && (present ==> r[0] == entry)
  {
    if present then [entry] else []
  }

  /** The attribute list `sign_up` builds, in the order email, phone number,
      given name, family name; names are stored stripped, the phone number
      normalised but not stripped. */
  function SignUpAttributes(email: string, phone: Option<string>,
                            givenName: Option<string>, familyName: Option<string>): (attrs: seq<Attribute>)
    ensures 1 <= |attrs| <= 4
    ensures attrs[0] == Attribute("email", email)
    ensures |attrs| == 1 + (if Supplied(phone) then 1 else 0)
                         + (if Supplied(givenName) then 1 else 0)
                         + (if Supplied(familyName) then 1 else 0)
  {
    [Attribute("email", email)]
    + OptionalEntry(Supplied(phone), Attribute("phone_number", if Supplied(phone) then NormalisePhone(phone.value) else ""))
    + OptionalEntry(Supplied(givenName), Attribute("given_name", if Supplied(givenName) then Strip(givenName.value) else ""))
    + OptionalEntry(Supplied(familyName), Attribute("family_name", if Supplied(familyName) then Strip(familyName.value) else ""))
  }

  /** Position of each attribute name in the order the list is built. */
  function Rank(name: string): nat {
    if name == "email" then 0
    else if name == "phone_number" then 1
    else if name == "given_name" then 2
    else 3
  }

  /** The value stored under `name`, if the list has that attribute. */
  function ValueOf(attrs: seq<Attribute>, name: string): (r: Option<string>)
    ensures r.Some? <==> exists i :: 0 <= i < |attrs| && attrs[i].name == name
    ensures r.Some? ==> exists i :: 0 <= i < |attrs| && attrs[i] == Attribute(name, r.value)
  {
    if attrs == [] then None
    else if attrs[0].name == name then Some(attrs[0].value)
    else ValueOf(attrs[1..], name)
  }

  /** Names strictly ascend in building order, so none appears twice. */
  predicate Ordered(attrs: seq<Attribute>) {
    forall i, j :: 0 <= i < j < |attrs| ==> Rank(attrs[i].name) < Rank(attrs[j].name)
  }

  /** Appending at most one entry ranked above everything already there keeps
      the list ordered. */
  lemma {:induction false} OrderedAppend(attrs: seq<Attribute>, more: seq<Attribute>)
    requires Ordered(attrs) && |more| <= 1
    requires more != [] ==> forall i :: 0 <= i < |attrs| ==> Rank(attrs[i].name) < Rank(more[0].name)
    ensures Ordered(attrs + more)
  {
  }

  /** A list built as the email entry followed by three optional entries
      with ascending ranks is ordered. */
  lemma {:induction false} FourEntriesOrdered(e: Attribute, p: Attribute, g: Attribute, f: Attribute,
                                              withP: bool, withG: bool, withF: bool)
    requires Rank(e.name) == 0 && Rank(p.name) == 1 && Rank(g.name) == 2 && Rank(f.name) == 3
    ensures Ordered([e] + OptionalEntry(withP, p) + OptionalEntry(withG, g) + OptionalEntry(withF, f))
  {
    var l1 := [e] + OptionalEntry(withP, p);
    OrderedAppend([e], OptionalEntry(withP, p));
    assert forall i :: 0 <= i < |l1| ==> Rank(l1[i].name) <= 1;
    var l2 := l1 + OptionalEntry(withG, g);
    OrderedAppend(l1, OptionalEntry(withG, g));
    assert forall i :: 0 <= i < |l2| ==> Rank(l2[i].name) <= 2;
    OrderedAppend(l2, OptionalEntry(withF, f));
  }

  /** In the same list each lookup finds the entry that was included, or
      nothing. */
  lemma {:induction false} FourEntriesValues(e: Attribute, p: Attribute, g: Attribute, f: Attribute,
                                             withP: bool, withG: bool, withF: bool)
    requires Rank(e.name) == 0 && Rank(p.name) == 1 && Rank(g.name) == 2 && Rank(f.name) == 3
    ensures var attrs := [e] + OptionalEntry(withP, p) + OptionalEntry(withG, g) + OptionalEntry(withF, f);
            && ValueOf(attrs, e.name) == Some(e.value)
            && ValueOf(attrs, p.name) == (if withP then Some(p.value) else None)
            && ValueOf(attrs, g.name) == (if withG then Some(g.value) else None)
            && ValueOf(attrs, f.name) == (if withF then Some(f.value) else None)
  {
    var head, op, og, of := [e], OptionalEntry(withP, p), OptionalEntry(withG, g), OptionalEntry(withF, f);
    assert ValueOf(head + op + og + of, p.name) == (if withP then Some(p.value) else None) by {
      assert head + op + og + of == head + op + (og + of);
      LacksAppend(og, of, p.name);
      LookupAt(head, op, og + of, p.name);
    }
    assert ValueOf(head + op + og + of, g.name) == (if withG then Some(g.value) else None) by {
      LacksAppend(head, op, g.name);
      LookupAt(head + op, og, of, g.name);
    }
    assert ValueOf(head + op + og + of, f.name) == (if withF then Some(f.value) else None) by {
      assert head + op + og + of == head + op + og + of + [];
      LacksAppend(head, op, f.name);
      LacksAppend(head + op, og, f.name);
      LookupAt(head + op + og, of, [], f.name);
    }
  }

  /** No entry of `attrs` is named `name`. */
  predicate Lacks(attrs: seq<Attribute>, name: string) {
    forall i :: 0 <= i < |attrs| ==> attrs[i].name != name
  }

  lemma {:induction false} LacksAppend(a: seq<Attribute>, b: seq<Attribute>, name: string)
    requires Lacks(a, name) && Lacks(b, name)
    ensures Lacks(a + b, name)
  {
  }

  /** Looking a name up in `head + mid + rest`, where only `mid` (empty or a
      single entry) can hold it. */
  lemma {:induction false} LookupAt(head: seq<Attribute>, mid: seq<Attribute>, rest: seq<Attribute>, name: string)
    requires Lacks(head, name) && Lacks(rest, name) && |mid| <= 1
    requires mid != [] ==> mid[0].name == name
    ensures ValueOf(head + mid + rest, name) == if mid == [] then None else Some(mid[0].value)
  {
    assert head + mid + rest == head + (mid + rest);
    SkipOthers(head, mid + rest, name);
    NamesIn(mid + rest, name, mid, rest);
  }

  /** The list follows the building order, so no name appears twice, and
      each attribute is there exactly when its field was supplied, with the
      normalised or stripped value; the email always is. */
  lemma {:induction false} SignUpAttributesShape(email: string, phone: Option<string>,
                                                 givenName: Option<string>, familyName: Option<string>)
    ensures var attrs := SignUpAttributes(email, phone, givenName, familyName);
            && Ordered(attrs)
            && ValueOf(attrs, "email") == Some(email)
            && ValueOf(attrs, "phone_number") ==
                 (if Supplied(phone) then Some(NormalisePhone(phone.value)) else None)
            && ValueOf(attrs, "given_name") ==
                 (if Supplied(givenName) then Some(Strip(givenName.value)) else None)
            && ValueOf(attrs, "family_name") ==
                 (if Supplied(familyName) then Some(Strip(familyName.value)) else None)
  {
    FourEntriesOrdered(
      Attribute("email", email),
      Attribute("phone_number", if Supplied(phone) then NormalisePhone(phone.value) else ""),
      Attribute("given_name", if Supplied(givenName) then Strip(givenName.value) else ""),
      Attribute("family_name", if Supplied(familyName) then Strip(familyName.value) else ""),
      Supplied(phone), Supplied(givenName), Supplied(familyName));
    FourEntriesValues(
      Attribute("email", email),
      Attribute("phone_number", if Supplied(phone) then NormalisePhone(phone.value) else ""),
      Attribute("given_name", if Supplied(givenName) then Strip(givenName.value) else ""),
      Attribute("family_name", if Supplied(familyName) then Strip(familyName.value) else ""),
      Supplied(phone), Supplied(givenName), Supplied(familyName));
  }

  /** Looking a name up in `head + rest`, where `head` is empty or one entry
      with that name and `rest` is free of it. */
  lemma {:induction false} NamesIn(attrs: seq<Attribute>, name: string, head: seq<Attribute>, rest: seq<Attribute>)
    requires attrs == head + rest && |head| <= 1
    requires head != [] ==> head[0].name == name
    requires Lacks(rest, name)
    ensures ValueOf(attrs, name) == if head == [] then None else Some(head[0].value)
  {
    if head == [] {
      assert attrs == rest;
      NotThere(rest, name);
    }
  }

  /** Entries with other names ahead of `rest` do not change a lookup. */
  lemma {:induction false} SkipOthers(head: seq<Attribute>, rest: seq<Attribute>, name: string)
    requires Lacks(head, name)
    ensures ValueOf(head + rest, name) == ValueOf(rest, name)
    decreases |head|
  {
    if head == [] {
      assert head + rest == rest;
    } else {
      assert (head + rest)[1..] == head[1..] + rest;
      SkipOthers(head[1..], rest, name);
    }
  }

  lemma {:induction false} NotThere(attrs: seq<Attribute>, name: string)
    requires Lacks(attrs, name)
    ensures ValueOf(attrs, name).None?
  {
  }

  /** Stored names have no outer whitespace and are never empty. */
  lemma {:induction false} StoredNamesStripped(email: string, phone: Option<string>,
                                               givenName: Option<string>, familyName: Option<string>)
    ensures var attrs := SignUpAttributes(email, phone, givenName, familyName);
            && (ValueOf(attrs, "given_name").Some? ==>
                  var v := ValueOf(attrs, "given_name").value; v != "" && Strip(v) == v)
            && (ValueOf(attrs, "family_name").Some? ==>
                  var v := ValueOf(attrs, "family_name").value; v != "" && Strip(v) == v)
  {
    SignUpAttributesShape(email, phone, givenName, familyName);
    if Supplied(givenName) {
      StripIdempotent(givenName.value);
    }
    if Supplied(familyName) {
      StripIdempotent(familyName.value);
    }
  }
}
