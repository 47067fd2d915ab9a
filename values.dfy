/** The value converter: the supported property types, the default value of
    each, .NET text-to-value parsing for them, and `ChangeType`, which turns one
    csv cell into the value stored in a property. */
module Values {
  import opened Wrappers
  import opened Text

  /** The value types a property may have (alone or wrapped in Nullable<>). */
  datatype ValueKind = Int32 | Int64 | Boolean

  /** A property type: `string` (a reference type), a value type, or
      `Nullable<U>` of a value type. */
  datatype TypeTag = Str | Val(kind: ValueKind) | Nullable(kind: ValueKind)

  /** A boxed property value; `Null` is the null reference. */
  datatype Value = Null | StrV(s: string) | IntV(i: int) | BoolV(b: bool)

  const MinInt32: int := -0x8000_0000
  const MaxInt32: int := 0x7FFF_FFFF
  const MinInt64: int := -0x8000_0000_0000_0000
  const MaxInt64: int := 0x7FFF_FFFF_FFFF_FFFF

  /** Whether a value may be stored in a property of type `t`. */
  predicate Conforms(v: Value, t: TypeTag)
  {
    match t
    case Str => v.Null? || v.StrV?
    case Val(k) => KindConforms(v, k)
    case Nullable(k) => v.Null? || KindConforms(v, k)
  }

  predicate KindConforms(v: Value, k: ValueKind)
  {
    match k
    case Int32 => v.IntV? && MinInt32 <= v.i <= MaxInt32
    case Int64 => v.IntV? && MinInt64 <= v.i <= MaxInt64
    case Boolean => v.BoolV?
  }

  /** `default(U)` of a value type: 0 or false. */
  function Zero(k: ValueKind): (v: Value)
    ensures KindConforms(v, k)
  {
    if k == Boolean then BoolV(false) else IntV(0)
  }

  /** GetDefaultValue: `Activator.CreateInstance(t)` for a value type, null
      otherwise. `Nullable<U>` is a value type, but creating one gives the empty
      nullable, which boxes to null. This is also the value every property of a
      freshly constructed record holds. */
  function DefaultValue(t: TypeTag): (v: Value)
    ensures Conforms(v, t)
    ensures v.Null? <==> !t.Val?
  {
    match t
    case Val(k) => Zero(k)
    case _ => Null
  }

  predicate IsDigit(c: char)
  {
    '0' <= c <= '9'
  }

  predicate AllDigits(s: string)
  {
    forall i :: 0 <= i < |s| ==> IsDigit(s[i])
  }

  /** The number a string of decimal digits denotes. */
  function DigitsValue(s: string): nat
    requires AllDigits(s)
  {
    if s == [] then 0
    else DigitsValue(s[..|s| - 1]) * 10 + (s[|s| - 1] as int - '0' as int)
  }

  /** `Int32.Parse` / `Int64.Parse` with NumberStyles.Integer, the style
      Convert.ChangeType uses: optional leading and trailing white space, an
      optional sign, at least one decimal digit. A malformed text is a
      FormatException; a well-formed one outside [lo, hi] an OverflowException. */
  function ParseInteger(text: string, lo: int, hi: int): (r: Result<int, Error>)
    ensures r.Ok? ==> lo <= r.value <= hi
    ensures Trim(text, IsWhite) == [] ==> r == Err(FormatError)
  {
    var t := Trim(text, IsWhite);
    if t == [] then Err(FormatError)
    else
      var signed := t[0] == '-' || t[0] == '+';
      var digits := if signed then t[1..] else t;
      if digits == [] || !AllDigits(digits) then Err(FormatError)
      else
        var n: int := if t[0] == '-' then 0 - (DigitsValue(digits) as int) else DigitsValue(digits);
        if lo <= n <= hi then Ok(n) else Err(OverflowError)
  }

  /** `Boolean.Parse`: the text, less leading and trailing white space and
      NUL characters, must be "true" or "false" in any case. */
  function ParseBoolean(text: string): (r: Result<bool, Error>)
    ensures r.Ok? <==> Lower(Trim(text, IsWhiteSpaceOrNull)) in {"true", "false"}
    ensures r.Ok? ==> Lower(Trim(text, IsWhiteSpaceOrNull)) == (if r.value then "true" else "false")
  {
    var t := Lower(Trim(text, IsWhiteSpaceOrNull));
    if t == "true" then Ok(true)
    else if t == "false" then Ok(false)
    else Err(FormatError)
  }

  /** Convert.ChangeType(text, U) for a value type U. */
  function ParseKind(text: string, k: ValueKind): (r: Result<Value, Error>)
    ensures r.Ok? ==> KindConforms(r.value, k)
  {
    match k
    case Int32 =>
      var n := ParseInteger(text, MinInt32, MaxInt32);
      if n.Ok? then Ok(IntV(n.value)) else Err(n.error)
    case Int64 =>
      var n := ParseInteger(text, MinInt64, MaxInt64);
      if n.Ok? then Ok(IntV(n.value)) else Err(n.error)
    case Boolean =>
      var b := ParseBoolean(text);
      if b.Ok? then Ok(BoolV(b.value)) else Err(b.error)
  }

  /** `Convert.ChangeType(value, t)` on the values the converters pass it: a
      cell's text or a type's default value. A string is returned as is for
      `string` and parsed for a value type; null is accepted only by a
      reference type; a default value already of the target type is returned
      unchanged; a Nullable<> target is refused with InvalidCastException,
      which is why both callers unwrap it first. Conversions between value
      types (bool to int and the like) are never requested and are not
      modelled. */
  function ConvertTo(value: Value, t: TypeTag): (r: Result<Value, Error>)
    ensures r.Ok? ==> Conforms(r.value, t)
  {
    match t
    case Nullable(_) => Err(InvalidCast)
    case Str =>
      if value.Null? || value.StrV? then Ok(value) else Err(InvalidCast)
    case Val(k) =>
      if value.StrV? then ParseKind(value.s, k)
      else if KindConforms(value, k) then Ok(value)
      else Err(InvalidCast)
  }

  /** The underlying type: `Nullable.GetUnderlyingType` for Nullable<U>, the type itself otherwise. */
  function Underlying(t: TypeTag): (u: TypeTag)
    ensures !u.Nullable?
    ensures t.Nullable? ==> u == Val(t.kind)
    ensures !t.Nullable? ==> u == t
  {
    if t.Nullable? then Val(t.kind) else t
  }

  /** CsvMapperReflectionUtils.ChangeType: an empty cell is replaced by the
      type's default; a null value is returned as null; otherwise the value is
      converted to the underlying type. The result always fits the property,
      and an empty cell always yields the type's default. */
  function ChangeType(cell: string, t: TypeTag): (r: Result<Value, Error>)
    ensures r.Ok? ==> Conforms(r.value, t)
    ensures cell == "" ==> r == Ok(DefaultValue(t))
  {
    var value := if cell == "" then DefaultValue(t) else StrV(cell);
    if value == Null then Ok(Null)
    else
      var converted := ConvertTo(value, Underlying(t));
      assert converted.Ok? ==> Conforms(converted.value, t);
      converted
  }

  /** The converter of the legacy CsvManager: the null test is made only for a
      Nullable<> target, and a null for `string` goes through Convert.ChangeType
      (which returns it unchanged). */
  function LegacyChangeType(cell: string, t: TypeTag): (r: Result<Value, Error>)
    ensures r.Ok? ==> Conforms(r.value, t)
    ensures cell == "" ==> r == Ok(DefaultValue(t))
  {
    var value := if cell == "" then DefaultValue(t) else StrV(cell);
    if t.Nullable? then
      if value == Null then Ok(Null) else ConvertTo(value, Val(t.kind))
    else ConvertTo(value, t)
  }

  /** The two converters agree on every cell and every type. */
  lemma LegacyChangeTypeAgrees(cell: string, t: TypeTag)
    ensures LegacyChangeType(cell, t) == ChangeType(cell, t)
  {
  }

  /** An empty cell gives 0 / false for a plain value type and null, not "",
      for a string or a Nullable<> property. */
  lemma EmptyCellDefaults(k: ValueKind)
    ensures ChangeType("", Val(k)) == Ok(Zero(k))
    ensures ChangeType("", Str) == Ok(Null)
    ensures ChangeType("", Nullable(k)) == Ok(Null)
  {
  }

  /** A non-empty cell is kept verbatim for a string property and is converted
      as U for a Nullable<U> property. */
  lemma NonEmptyCell(cell: string, k: ValueKind)
    requires cell != ""
    ensures ChangeType(cell, Str) == Ok(StrV(cell))
    ensures ChangeType(cell, Nullable(k)) == ChangeType(cell, Val(k)) == ParseKind(cell, k)
  {
  }

  /** A cell of white space only is not empty: it is not defaulted and fails
      numeric conversion, for plain and Nullable<> numeric properties alike. */
  lemma BlankCellIsNotEmpty(cell: string, k: ValueKind)
    requires cell != [] && forall i :: 0 <= i < |cell| ==> IsWhite(cell[i])
    requires k != Boolean
    ensures ChangeType(cell, Val(k)) == Err(FormatError)
    ensures ChangeType(cell, Nullable(k)) == Err(FormatError)
  {
    TrimAllWhite(cell, IsWhite);
  }

  /** Decimal formatting of a natural number, most significant digit first. */
  function ShowNat(n: nat): (s: string)
    ensures s != [] && AllDigits(s)
  {
    if n < 10 then [('0' as int + n) as char]
    else ShowNat(n / 10) + [('0' as int + n % 10) as char]
  }

  /** `n.ToString()` for an integer. */
  function ShowInt(n: int): string
  {
    if n < 0 then "-" + ShowNat(-n) else ShowNat(n)
  }

  lemma {:induction false} DigitsValueShowNat(n: nat)
    ensures DigitsValue(ShowNat(n)) == n
  {
    var s := ShowNat(n);
    if n >= 10 {
      DigitsValueShowNat(n / 10);
      assert s[..|s| - 1] == ShowNat(n / 10);
    }
  }

  /** Parsing inverts formatting: a number ToString'd into a cell comes back
      unchanged when it fits the target range. */
  lemma ParseShowInt(n: int, lo: int, hi: int)
    requires lo <= n <= hi
    ensures ParseInteger(ShowInt(n), lo, hi) == Ok(n)
  {
    var s := ShowInt(n);
    var m := if n < 0 then -n else n;
    var digits := ShowNat(m);
    assert forall i :: 0 <= i < |s| ==> !IsWhite(s[i]) by {
      forall i | 0 <= i < |s| ensures !IsWhite(s[i]) {
        if n < 0 && i > 0 { assert s[i] == digits[i - 1]; }
      }
    }
    TrimNoWhite(s, IsWhite);
    DigitsValueShowNat(m);
    if n < 0 {
      assert s[1..] == digits;
    }
  }

  /** The cell round trip for an Int32 property. */
  lemma ChangeTypeShowInt32(n: int)
    requires MinInt32 <= n <= MaxInt32
    ensures ChangeType(ShowInt(n), Val(Int32)) == Ok(IntV(n))
    ensures ChangeType(ShowInt(n), Nullable(Int32)) == Ok(IntV(n))
  {
    ParseShowInt(n, MinInt32, MaxInt32);
    assert ShowInt(n) != "";
  }

  /** `b.ToString()`, "True" or "False", parses back to `b`. */
  lemma ChangeTypeShowBool(b: bool)
    ensures ChangeType(if b then "True" else "False", Val(Boolean)) == Ok(BoolV(b))
  {
    var s := if b then "True" else "False";
    TrimNoWhite(s, IsWhiteSpaceOrNull);
  }

  /** Boolean cells padded with white space or NUL characters, such as
      "true\0" or a no-break space before "False", still parse. */
  lemma ParseBooleanPadded(pre: string, post: string, b: bool)
    requires forall i :: 0 <= i < |pre| ==> IsWhiteSpaceOrNull(pre[i])
    requires forall i :: 0 <= i < |post| ==> IsWhiteSpaceOrNull(post[i])
    ensures ParseBoolean(pre + (if b then "True" else "False") + post) == Ok(b)
  {
    TrimPadded(pre, if b then "True" else "False", post, IsWhiteSpaceOrNull);
  }
}
