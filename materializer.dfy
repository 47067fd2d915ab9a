/** The row materialiser of the current mapper variants
    (CsvMapperReflectionUtils.SetPropertiesViaReflection): one fresh record per
    split row, one property set per entry of the mapping dictionary. */
module Materializer {
  import opened Wrappers
  import opened Values
  import opened Schema

  /** The value one mapping entry (property name, column position) stores:
      the property is looked up first (a missing one fails on
      `prop.PropertyType`), then the cell is read (`row[pos]`, which fails
      outside the row), then converted to the property's type. */
  function EntryValue(s: Schema, row: seq<string>, name: string, pos: int): (r: Result<Value, Error>)
    ensures r.Ok? ==> name in Names(s) && 0 <= pos < |row| && r == ChangeType(row[pos], TypeOf(s, name))
    ensures name !in Names(s) ==> r == Err(PropertyNotFound)
    ensures name in Names(s) && !(0 <= pos < |row|) ==> r == Err(IndexOutOfRange)
  {
    match FindExact(s, name)
    case None => Err(PropertyNotFound)
    case Some(p) =>
      if 0 <= pos < |row| then ChangeType(row[pos], p.tag) else Err(IndexOutOfRange)
  }

  /** Every entry of the mapping can be applied to the row. */
  predicate MaterializeOk(s: Schema, row: seq<string>, m: map<string, int>)
  {
    forall k :: k in m ==> EntryValue(s, row, k, m[k]).Ok?
  }

  /** The record the row yields: each mapped property holds its converted
      cell, every other property keeps the value `new T()` gave it. */
  function Populated(s: Schema, row: seq<string>, m: map<string, int>): (rec: Record)
    requires MaterializeOk(s, row, m)
    ensures rec.Keys == Names(s)
    ensures WellTyped(s, rec)
    ensures forall n :: n in m ==> rec[n] == EntryValue(s, row, n, m[n]).value
    ensures forall n :: n in Names(s) && n !in m ==> rec[n] == FreshRecord(s)[n]
  {
    assert forall n :: n in m ==> n in Names(s) by {
      forall n | n in m ensures n in Names(s) {
        assert EntryValue(s, row, n, m[n]).Ok?;
      }
    }
    map n | n in Names(s) :: if n in m then EntryValue(s, row, n, m[n]).value else FreshRecord(s)[n]
  }

  /** The object after the entries outside `pending` have been set: they
      all converted, they hold their converted cells, and every other
      property still holds its fresh value. */
  predicate SetSoFar(s: Schema, row: seq<string>, m: map<string, int>, pending: set<string>, destination: Record)
  {
    && (forall k :: k in m && k !in pending ==> EntryValue(s, row, k, m[k]).Ok?)
    && destination.Keys == Names(s)
    && (forall n :: n in destination ==>
          destination[n] == if n in m && n !in pending then EntryValue(s, row, n, m[n]).value
                            else FreshRecord(s)[n])
  }

  lemma SetSoFarStep(s: Schema, row: seq<string>, m: map<string, int>, pending: set<string>,
                     destination: Record, key: string)
    requires key in pending && pending <= m.Keys && SetSoFar(s, row, m, pending, destination)
    requires EntryValue(s, row, key, m[key]).Ok?
    ensures SetSoFar(s, row, m, pending - {key}, destination[key := EntryValue(s, row, key, m[key]).value])
  {
  }

  /** SetPropertiesViaReflection: start from `new T()` and set one property per
      dictionary entry. The next entry is chosen arbitrarily, so the result
      proved here holds for every enumeration order of the dictionary. The row
      fails, and no record is returned, as soon as any entry fails. */
  method SetPropertiesViaReflection(s: Schema, row: seq<string>, m: map<string, int>)
    returns (r: Result<Record, Error>)
    ensures r.Ok? <==> MaterializeOk(s, row, m)
    ensures r.Ok? ==> r.value == Populated(s, row, m)
    ensures r.Err? ==> exists k :: k in m && EntryValue(s, row, k, m[k]) == Err(r.error)
  {
    var destination := FreshRecord(s);
    var pending := m.Keys;
    while pending != {}
      invariant pending <= m.Keys
      invariant SetSoFar(s, row, m, pending, destination)
      decreases pending
    {
      var key :| key in pending;
      var converted := EntryValue(s, row, key, m[key]);
      if converted.Err? {
        return Err(converted.error);
      }
      SetSoFarStep(s, row, m, pending, destination, key);
      destination := destination[key := converted.value];
      pending := pending - {key};
    }
    PopulatedCharacterized(s, row, m, destination);
    r := Ok(destination);
  }

  /** Populated is the only record that holds the converted cell in every
      mapped property and the default in every other one. */
  lemma PopulatedCharacterized(s: Schema, row: seq<string>, m: map<string, int>, rec: Record)
    requires MaterializeOk(s, row, m)
    requires rec.Keys == Names(s)
    requires forall n :: n in rec ==> rec[n] == if n in m then EntryValue(s, row, n, m[n]).value else FreshRecord(s)[n]
    ensures rec == Populated(s, row, m)
  {
  }

  /** A mapped position outside the row makes the row fail. */
  lemma ShortRowFails(s: Schema, row: seq<string>, m: map<string, int>, name: string)
    requires name in m && name in Names(s) && m[name] >= |row|
    ensures !MaterializeOk(s, row, m)
    ensures EntryValue(s, row, name, m[name]) == Err(IndexOutOfRange)
  {
  }

  /** Entries for other properties do not affect a property's value. */
  lemma PopulatedLocal(s: Schema, row: seq<string>, m: map<string, int>, name: string, pos: int)
    requires name in Names(s)
    requires MaterializeOk(s, row, m) && MaterializeOk(s, row, m[name := pos])
    ensures forall n :: n in Names(s) && n != name ==>
              Populated(s, row, m[name := pos])[n] == Populated(s, row, m)[n]
    ensures Populated(s, row, m[name := pos])[name] == EntryValue(s, row, name, pos).value
  {
  }
}
