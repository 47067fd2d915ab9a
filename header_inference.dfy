/** Header inference shared by the current variants (the autoset loops of
    CvsManager.cs and CvsMap.cs): each header cell is cleaned, matched to a
    property ignoring case, and the property's declared name is added to the
    mapping dictionary with the cell's column index. */
module HeaderInference {
  import opened Wrappers
  import opened Text
  import opened Schema

  /** The property a header cell names: "" when none does. */
  function Resolve(s: Schema, cell: string): Result<string, Error>
  {
    GetPropertyName(s, StripSpacesAndQuotes(cell))
  }

  /** The lookup result of every header cell, column by column. */
  function Resolutions(s: Schema, columns: seq<string>): (rs: seq<Result<string, Error>>)
    ensures |rs| == |columns|
    ensures forall i {:trigger Resolve(s, columns[i])} :: 0 <= i < |columns| ==> rs[i] == Resolve(s, columns[i])
  {
    if columns == [] then [] else [Resolve(s, columns[0])] + Resolutions(s, columns[1..])
  }

  /** Column `i` names a property. */
  predicate Matched(rs: seq<Result<string, Error>>, i: int)
    requires 0 <= i < |rs|
  {
    rs[i].Ok? && rs[i].value != ""
  }

  /** Column `i` makes the property lookup or `Dictionary.Add` throw: its
      lookup is ambiguous, or the property it names is already a key (from the
      initial dictionary or from an earlier column). */
  predicate ColumnFails(rs: seq<Result<string, Error>>, m0: map<string, int>, i: int)
    requires 0 <= i < |rs|
  {
    rs[i].Err? || (rs[i].value != "" && (rs[i].value in m0 || exists j :: 0 <= j < i && rs[j] == rs[i]))
  }

  function ColumnError(rs: seq<Result<string, Error>>, i: int): Error
    requires 0 <= i < |rs|
  {
    if rs[i].Err? then rs[i].error else DuplicateKey
  }

  /** No column fails: autoset completes. */
  predicate AllColumnsFit(rs: seq<Result<string, Error>>, m0: map<string, int>)
  {
    forall i :: 0 <= i < |rs| ==> !ColumnFails(rs, m0, i)
  }

  /** Autoset stops at the first failing column, with that column's exception. */
  predicate FailsWith(rs: seq<Result<string, Error>>, m0: map<string, int>, e: Error)
  {
    exists i :: (0 <= i < |rs| && ColumnFails(rs, m0, i) &&
                 (forall j :: 0 <= j < i ==> !ColumnFails(rs, m0, j)) &&
                 e == ColumnError(rs, i))
  }

  /** `m` is `m0` extended with every matched column: the old entries are
      kept, each matched property maps to its column, and every new key is the
      declared name of the property its column matched. */
  predicate ExtendsWithColumns(rs: seq<Result<string, Error>>, m0: map<string, int>, m: map<string, int>)
  {
    && m0.Keys <= m.Keys
    && (forall n :: n in m0 ==> m[n] == m0[n])
    && (forall i :: 0 <= i < |rs| && Matched(rs, i) ==> rs[i].value in m && m[rs[i].value] == i)
    && (forall n :: n in m && n !in m0 ==> 0 <= m[n] < |rs| && rs[m[n]] == Ok(n) && n != "")
  }

  /** The dictionary update of AutoSetPropertyFields, given the lookup result
      of every header cell (`Resolutions` of the split header line): the
      columns are visited left to right; a matched column `i` adds (declared
      name, i), an unmatched one adds nothing (the source only logs it). The
      first failing column aborts with its exception. */
  method AddHeaderColumns(rs: seq<Result<string, Error>>, m0: map<string, int>)
    returns (r: Result<map<string, int>, Error>)
    ensures r.Ok? <==> AllColumnsFit(rs, m0)
    ensures r.Err? ==> FailsWith(rs, m0, r.error)
    ensures r.Ok? ==> ExtendsWithColumns(rs, m0, r.value)
  {
    var m := m0;
    var i := 0;
    while i < |rs|
      invariant 0 <= i <= |rs|
      invariant forall j :: 0 <= j < i ==> !ColumnFails(rs, m0, j)
      invariant m0.Keys <= m.Keys && forall n :: n in m0 ==> m[n] == m0[n]
      invariant forall j :: 0 <= j < i && Matched(rs, j) ==> rs[j].value in m && m[rs[j].value] == j
      invariant forall n :: n in m && n !in m0 ==> 0 <= m[n] < i && rs[m[n]] == Ok(n) && n != ""
    {
      var propertyNameFound := rs[i];
      if propertyNameFound.Err? {
        assert ColumnFails(rs, m0, i);
        return Err(propertyNameFound.error);
      }
      var name := propertyNameFound.value;
      if name != "" {
        if name in m {
          assert ColumnFails(rs, m0, i) by {
            if name !in m0 {
              assert rs[m[name]] == rs[i];
            }
          }
          return Err(DuplicateKey);
        }
        m := m[name := i];
      }
      i := i + 1;
    }
    r := Ok(m);
  }

  /** The lookup result of every cell of a header line split on `sep`. */
  function HeaderResolutions(s: Schema, headerLine: string, sep: char): (rs: seq<Result<string, Error>>)
    ensures |rs| == Count(sep, headerLine) + 1
  {
    Resolutions(s, Split(headerLine, sep))
  }

  /** What autoset from `headerLine` does to a dictionary `m0`: it succeeds
      exactly when no column fails, and then extends `m0` with the matched
      columns; otherwise it raises the first failing column's exception. */
  predicate AutoSetOutcome(s: Schema, headerLine: string, sep: char,
                           m0: map<string, int>, m: map<string, int>, failure: Option<Error>)
  {
    var rs := HeaderResolutions(s, headerLine, sep);
    && (failure.None? <==> AllColumnsFit(rs, m0))
    && (failure.Some? ==> FailsWith(rs, m0, failure.value) && m == m0)
    && (failure.None? ==> ExtendsWithColumns(rs, m0, m))
  }

  /** A header cell that names no property never makes autoset fail. */
  lemma UnmatchedColumnNeverFails(s: Schema, columns: seq<string>, m0: map<string, int>, i: int)
    requires WellFormed(s) && 0 <= i < |columns|
    requires forall p :: p in s ==> !EqualsIgnoreCase(p.name, StripSpacesAndQuotes(columns[i]))
    ensures Resolve(s, columns[i]) == Ok("")
    ensures !ColumnFails(Resolutions(s, columns), m0, i)
  {
    GetPropertyNameSpec(s, StripSpacesAndQuotes(columns[i]));
  }

  /** Two columns that resolve to the same property make autoset fail. */
  lemma SameFieldTwiceFails(s: Schema, columns: seq<string>, m0: map<string, int>, i: int, j: int)
    requires 0 <= i < j < |columns|
    requires Resolve(s, columns[i]) == Resolve(s, columns[j]) && Resolve(s, columns[j]).Ok? && Resolve(s, columns[j]).value != ""
    ensures ColumnFails(Resolutions(s, columns), m0, j)
  {
  }

  /** Autoset stores declared names: every key it adds is the name of a
      property that matches, ignoring case, the cleaned text of the column it
      maps to, and that column exists in the header. */
  lemma AutoSetStoresDeclaredName(s: Schema, headerLine: string, sep: char,
                                  m0: map<string, int>, m: map<string, int>, n: string)
    requires WellFormed(s)
    requires ExtendsWithColumns(HeaderResolutions(s, headerLine, sep), m0, m)
    requires n in m && n !in m0
    ensures 0 <= m[n] < |Split(headerLine, sep)|
    ensures n in Names(s) && EqualsIgnoreCase(n, StripSpacesAndQuotes(Split(headerLine, sep)[m[n]]))
  {
    var columns := Split(headerLine, sep);
    var cell := StripSpacesAndQuotes(columns[m[n]]);
    assert Resolve(s, columns[m[n]]) == Ok(n);
    GetPropertyNameSpec(s, cell);
    var p :| p in s && p.name == n && EqualsIgnoreCase(n, cell);
  }

  /** A column whose cleaned text matches, ignoring case, a property's name is
      mapped to that property's declared name once autoset succeeds. */
  lemma AutoSetFindsMatch(s: Schema, headerLine: string, sep: char,
                          m0: map<string, int>, m: map<string, int>, i: int, p: Property)
    requires WellFormed(s)
    requires AllColumnsFit(HeaderResolutions(s, headerLine, sep), m0)
    requires ExtendsWithColumns(HeaderResolutions(s, headerLine, sep), m0, m)
    requires 0 <= i < |Split(headerLine, sep)|
    requires p in s && EqualsIgnoreCase(p.name, StripSpacesAndQuotes(Split(headerLine, sep)[i]))
    ensures p.name in m && m[p.name] == i
  {
    var columns := Split(headerLine, sep);
    var rs := HeaderResolutions(s, headerLine, sep);
    GetPropertyNameSpec(s, StripSpacesAndQuotes(columns[i]));
    assert rs[i] == Resolve(s, columns[i]);
    assert !ColumnFails(rs, m0, i);
    assert p.name != "" by {
      var k :| 0 <= k < |s| && s[k] == p;
    }
    assert Matched(rs, i);
  }
}
