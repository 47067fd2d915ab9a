/** The target record type, described by an explicit schema in place of
    reflection: its public properties in declaration order, each with a type.
    A record instance is the map from property name to current value. */
module Schema {
  import opened Wrappers
  import opened Text
  import opened Values

  datatype Property = Property(name: string, tag: TypeTag)

  type Schema = seq<Property>

  type Record = map<string, Value>

  /** What the C# compiler guarantees of a class: property names are non-empty
      and distinct (exact, case-sensitive comparison). */
  predicate WellFormed(s: Schema)
  {
    && (forall i :: 0 <= i < |s| ==> s[i].name != "")
    && (forall i, j :: 0 <= i < j < |s| ==> s[i].name != s[j].name)
  }

  function Names(s: Schema): (names: set<string>)
    ensures forall i :: 0 <= i < |s| ==> s[i].name in names
    ensures forall n :: n in names ==> exists i :: 0 <= i < |s| && s[i].name == n
  {
    set i | 0 <= i < |s| :: s[i].name
  }

  /** `type.GetProperty(name)`: the property with exactly this name, if any. */
  function FindExact(s: Schema, name: string): (r: Option<Property>)
    ensures r.Some? ==> r.value in s && r.value.name == name
    ensures r.None? ==> name !in Names(s)
  {
    if s == [] then None
    else if s[0].name == name then Some(s[0])
    else FindExact(s[1..], name)
  }

  /** The properties whose name equals `name` ignoring case, in declaration order. */
  function MatchesIgnoringCase(s: Schema, name: string): Schema
  {
    if s == [] then []
    else if EqualsIgnoreCase(s[0].name, name) then [s[0]] + MatchesIgnoringCase(s[1..], name)
    else MatchesIgnoringCase(s[1..], name)
  }

  /** The matches are exactly the properties whose name equals `name` ignoring case. */
  lemma {:induction false} MatchesIgnoringCaseSpec(s: Schema, name: string)
    ensures forall p :: p in MatchesIgnoringCase(s, name) <==> p in s && EqualsIgnoreCase(p.name, name)
  {
    if s != [] {
      MatchesIgnoringCaseSpec(s[1..], name);
      assert forall p :: p in s <==> p == s[0] || p in s[1..] by {
        assert s == [s[0]] + s[1..];
      }
    }
  }

  /** CsvMapperReflectionUtils.GetPropertyName and the lookup of CsvMap's
      autoset: `GetProperty(name, IgnoreCase | Public | Instance)` gives the one
      property matching ignoring case (its declared name), null when there is
      none (here ""), and throws AmbiguousMatchException when several match. */
  function GetPropertyName(s: Schema, name: string): (r: Result<string, Error>)
    ensures r.Err? ==> r.error == AmbiguousMatch
    ensures r.Ok? && r.value != "" ==> r.value in Names(s) && EqualsIgnoreCase(r.value, name)
  {
    MatchesIgnoringCaseSpec(s, name);
    var ms := MatchesIgnoringCase(s, name);
    assert |ms| > 0 ==> ms[0] in ms;
    if |ms| == 0 then Ok("")
    else if |ms| == 1 then Ok(ms[0].name)
    else Err(AmbiguousMatch)
  }

  /** GetPropertyName finds a declared name exactly when some property matches
      ignoring case, and then it is that property's declared name; it gives ""
      exactly when no property matches. */
  lemma GetPropertyNameSpec(s: Schema, name: string)
    requires WellFormed(s)
    ensures GetPropertyName(s, name) == Ok("") <==> (forall p :: p in s ==> !EqualsIgnoreCase(p.name, name))
    ensures forall n :: GetPropertyName(s, name) == Ok(n) && n != "" ==>
              exists p :: p in s && p.name == n && EqualsIgnoreCase(n, name)
    ensures forall p :: p in s && EqualsIgnoreCase(p.name, name) ==>
              GetPropertyName(s, name) == Ok(p.name) || GetPropertyName(s, name) == Err(AmbiguousMatch)
  {
    var ms := MatchesIgnoringCase(s, name);
    MatchesIgnoringCaseSpec(s, name);
    if |ms| > 0 {
      assert ms[0] in ms;
      assert ms[0].name != "" by {
        var i :| 0 <= i < |s| && s[i] == ms[0];
      }
    }
    forall p | p in s && EqualsIgnoreCase(p.name, name)
      ensures GetPropertyName(s, name) == Ok(p.name) || GetPropertyName(s, name) == Err(AmbiguousMatch)
    {
      assert p in ms;
      if |ms| == 1 { assert ms[0] == p; }
    }
  }

  /** The declared type of the property named exactly `name`. */
  function TypeOf(s: Schema, name: string): TypeTag
    requires name in Names(s)
  {
    FindExact(s, name).value.tag
  }

  /** `new T()` of a class without property initialisers: every property
      holds its type's default value, null exactly for the `string` and
      `Nullable<>` properties. */
  function FreshRecord(s: Schema): (rec: Record)
    ensures rec.Keys == Names(s)
    ensures forall n :: n in rec ==> (rec[n].Null? <==> !TypeOf(s, n).Val?)
  {
    map n | n in Names(s) :: DefaultValue(TypeOf(s, n))
  }

  /** Every property holds a value of its declared type. */
  predicate WellTyped(s: Schema, rec: Record)
  {
    rec.Keys == Names(s) && forall n :: n in rec ==> Conforms(rec[n], TypeOf(s, n))
  }

  lemma FreshRecordWellTyped(s: Schema)
    ensures WellTyped(s, FreshRecord(s))
  {
  }
}
