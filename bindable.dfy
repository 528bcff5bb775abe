/** The closed set of scalar kinds an entity can hand to the repository, and
    how each one becomes exactly one positional argument of an SQLite
    statement (`Bindable::bind_value`, `CloneableBindable::clone_box`).

    Arguments are modelled as the values the SQLite driver keeps for a bound
    parameter: a 32-bit integer, a 64-bit integer or a text. `i8`, `i16`,
    `i32`, `u8`, `u16` and `bool` travel as 32-bit integers, `i64` and `u32`
    as 64-bit integers, `String` as text. */
module Bindable {
  import opened Wrappers
  import opened Text

  type Int8 = x: int | -0x80 <= x < 0x80
  type Int16 = x: int | -0x8000 <= x < 0x8000
  type Int32 = x: int | -0x8000_0000 <= x < 0x8000_0000
  type Int64 = x: int | -0x8000_0000_0000_0000 <= x < 0x8000_0000_0000_0000
  type UInt8 = x: int | 0 <= x < 0x100
  type UInt16 = x: int | 0 <= x < 0x1_0000
  type UInt32 = x: int | 0 <= x < 0x1_0000_0000
  type UInt64 = x: int | 0 <= x < 0x1_0000_0000_0000_0000

  const I64Max: Int64 := 0x7FFF_FFFF_FFFF_FFFF
  const U64Max: UInt64 := 0xFFFF_FFFF_FFFF_FFFF

  // ---------------------------------------------------------------------
  // Calendar dates (chrono's NaiveDate: proleptic Gregorian, years -262144..262143)

  datatype NaiveDate = NaiveDate(year: int, month: int, day: int)

  const MinYear: int := -262144
  const MaxYear: int := 262143

  predicate IsLeapYear(y: int) { y % 4 == 0 && (y % 100 != 0 || y % 400 == 0) }

  function DaysInMonth(y: int, m: int): int
    requires 1 <= m <= 12
  {
    if m == 2 then (if IsLeapYear(y) then 29 else 28)
    else if m == 4 || m == 6 || m == 9 || m == 11 then 30
    else 31
  }

  predicate ValidDate(d: NaiveDate)
  {
    MinYear <= d.year <= MaxYear && 1 <= d.month <= 12 && 1 <= d.day <= DaysInMonth(d.year, d.month)
  }

  type CalendarDate = d: NaiveDate | ValidDate(d) witness NaiveDate(1970, 1, 1)

  // ---------------------------------------------------------------------
  // Values and arguments

  /** A bindable value: one variant per Rust type that implements `Bindable`
      (the floating-point kinds are not modelled). */
  datatype Value =
    | Str(text: string)
    | I8(i8: Int8)
    | I16(i16: Int16)
    | I32(i32: Int32)
    | I64(i64: Int64)
    | U8(u8: UInt8)
    | U16(u16: UInt16)
    | U32(u32: UInt32)
    | U64(u64: UInt64)
    | Boolean(flag: bool)
    | Date(date: CalendarDate)

  /** One bound positional argument as the SQLite driver holds it. */
  datatype Arg = IntArg(int32: Int32) | Int64Arg(int64: Int64) | TextArg(chars: string)

  /** The Rust type behind a value, which is what a reader asks for when it
      reads a stored argument back. */
  datatype Kind = StrKind | I8Kind | I16Kind | I32Kind | I64Kind | U8Kind | U16Kind | U32Kind | U64Kind | BoolKind | DateKind

  function KindOf(v: Value): Kind
  {
    match v
    case Str(_) => StrKind
    case I8(_) => I8Kind
    case I16(_) => I16Kind
    case I32(_) => I32Kind
    case I64(_) => I64Kind
    case U8(_) => U8Kind
    case U16(_) => U16Kind
    case U32(_) => U32Kind
    case U64(_) => U64Kind
    case Boolean(_) => BoolKind
    case Date(_) => DateKind
  }

  /** `u64` to `i64`, saturating at `i64::MAX` instead of wrapping. */
  function SaturateU64(n: UInt64): (r: Int64)
    ensures 0 <= r <= n && r <= I64Max
    ensures r == n || r == I64Max
  {
    if n > I64Max then I64Max else n
  }

  /** The single argument `bind_value` pushes for a value. */
  function ToArg(v: Value): (a: Arg)
    ensures a.TextArg? <==> v.Str? || v.Date?
    ensures a.Int64Arg? <==> v.I64? || v.U32? || v.U64?
  {
    match v
    case Str(s) => TextArg(s)
    case I8(n) => IntArg(n)
    case I16(n) => IntArg(n)
    case I32(n) => IntArg(n)
    case I64(n) => Int64Arg(n)
    case U8(n) => IntArg(n)
    case U16(n) => IntArg(n)
    case U32(n) => Int64Arg(n)
    case U64(n) => Int64Arg(SaturateU64(n))
    case Boolean(b) => IntArg(if b then 1 else 0)
    case Date(d) => TextArg(FormatDate(d))
  }

  /** `bind_value`: the query's argument list with the value's argument appended. */
  function Bind(args: seq<Arg>, v: Value): (r: seq<Arg>)
    ensures |r| == |args| + 1
    ensures r[..|args|] == args
    ensures r[|args|] == ToArg(v)
  {
    args + [ToArg(v)]
  }

  /** `clone_box`: an independent copy; values have no identity, so the copy is the value itself. */
  function CloneBox(v: Value): (c: Value)
    ensures c == v
    ensures forall args :: Bind(args, c) == Bind(args, v)
  {
    v
  }

  // ---------------------------------------------------------------------
  // `%Y-%m-%d`

  /** chrono's `%Y`: four zero-padded digits for years 0 to 9999, otherwise
      an explicit sign and at least four digits. */
  function FormatYear(y: int): (s: string)
    ensures |s| >= 4
  {
    if 0 <= y <= 9999 then PadLeft(Decimal(y), 4)
    else if y < 0 then "-" + PadLeft(Decimal(-y), 4)
    else "+" + PadLeft(Decimal(y), 4)
  }

  function FormatDate(d: CalendarDate): (s: string)
    ensures |s| >= 10
  {
    FormatYear(d.year) + "-" + PadLeft(Decimal(d.month), 2) + "-" + PadLeft(Decimal(d.day), 2)
  }

  /** Reads a `%Y` year back: an optional sign followed by digits. */
  function ParseYear(t: string): Option<int>
  {
    if t == [] then None
    else
      var digits := if t[0] == '+' || t[0] == '-' then t[1..] else t;
      match ParseDecimal(digits)
      case Some(n) => Some(if t[0] == '-' then -(n as int) else n as int)
      case None => None
  }

  /** Reads `<year>-MM-DD` back into a date; rejects any other text and any
      day that is not on the calendar. */
  function ParseDate(s: string): (r: Option<CalendarDate>)
  {
    if |s| < 10 || s[|s| - 6] != '-' || s[|s| - 3] != '-' then None
    else
      var y := ParseYear(s[..|s| - 6]);
      var m := ParseDecimal(s[|s| - 5..|s| - 3]);
      var d := ParseDecimal(s[|s| - 2..]);
      if y.Some? && m.Some? && d.Some? && ValidDate(NaiveDate(y.value, m.value, d.value))
      then Some(NaiveDate(y.value, m.value, d.value))
      else None
  }

  lemma TwoDigits(n: nat)
    requires 1 <= n < 100
    ensures |PadLeft(Decimal(n), 2)| == 2
    ensures ParseDecimal(PadLeft(Decimal(n), 2)) == Some(n)
  {
    DecimalLength(n, 2);
    PaddedRoundTrip(n, 2);
  }

  lemma {:induction false} YearRoundTrip(y: int)
    ensures ParseYear(FormatYear(y)) == Some(y)
  {
    var t := FormatYear(y);
    if 0 <= y <= 9999 {
      PaddedRoundTrip(y, 4);
      DecimalLength(y, 4);
      assert IsDigit(t[0]);
      assert ParseDecimal(t) == Some(y);
    } else {
      SignedYear(y);
    }
  }

  lemma SignedYear(y: int)
    requires y < 0 || y > 9999
    ensures ParseYear(FormatYear(y)) == Some(y)
  {
    var t := FormatYear(y);
    var n := if y < 0 then -y else y;
    var sign := if y < 0 then '-' else '+';
    var digits := PadLeft(Decimal(n), 4);
    PaddedRoundTrip(n, 4);
    assert t == [sign] + digits;
    assert t[0] == sign && t[1..] == digits;
    assert ParseDecimal(t[1..]) == Some(n);
  }

  /** Every date reads back from its `%Y-%m-%d` text. */
  lemma {:induction false} DateRoundTrip(d: CalendarDate)
    ensures ParseDate(FormatDate(d)) == Some(d)
  {
    var s := FormatDate(d);
    DateTextParts(d);
    TwoDigits(d.month);
    TwoDigits(d.day);
    YearRoundTrip(d.year);
    assert ParseYear(s[..|s| - 6]) == Some(d.year);
    assert ParseDecimal(s[|s| - 5..|s| - 3]) == Some(d.month);
    assert ParseDecimal(s[|s| - 2..]) == Some(d.day);
  }

  /** Where the year, month and day sit in a date's text. */
  lemma DateTextParts(d: CalendarDate)
    ensures var s := FormatDate(d);
      && |s| == |FormatYear(d.year)| + 6
      && s[|s| - 6] == '-' && s[|s| - 3] == '-'
      && s[..|s| - 6] == FormatYear(d.year)
      && s[|s| - 5..|s| - 3] == PadLeft(Decimal(d.month), 2)
      && s[|s| - 2..] == PadLeft(Decimal(d.day), 2)
  {
    TwoDigits(d.month);
    TwoDigits(d.day);
  }

  /** For years 0 to 9999 the text is exactly `YYYY-MM-DD`: four year digits,
      two month digits and two day digits, separated by hyphens. */
  lemma DateTextShape(d: CalendarDate)
    requires 0 <= d.year <= 9999
    ensures var s := FormatDate(d);
      && |s| == 10 && s[4] == '-' && s[7] == '-'
      && AllDigits(s[..4]) && AllDigits(s[5..7]) && AllDigits(s[8..])
      && DigitsValue(s[..4]) == d.year && DigitsValue(s[5..7]) == d.month && DigitsValue(s[8..]) == d.day
  {
    DecimalLength(d.year, 4);
    DateTextParts(d);
    var s := FormatDate(d);
    assert |FormatYear(d.year)| == 4;
    PaddedRoundTrip(d.year, 4);
    PaddedRoundTrip(d.month, 2);
    PaddedRoundTrip(d.day, 2);
    assert s[..4] == FormatYear(d.year);
  }

  // ---------------------------------------------------------------------
  // Reading arguments back

  /** Reads a stored argument back as a value of the given kind, as a typed
      column read would: integers must fit the kind, booleans are integers
      compared with zero, dates are parsed from their text. */
  function FromArg(k: Kind, a: Arg): Option<Value>
  {
    match k
    case StrKind => if a.TextArg? then Some(Str(a.chars)) else None
    case DateKind =>
      if !a.TextArg? then None
      else (match ParseDate(a.chars) case Some(d) => Some(Date(d)) case None => None)
    case BoolKind => if a.IntArg? then Some(Boolean(a.int32 != 0)) else None
    case I8Kind => if a.IntArg? && -0x80 <= a.int32 < 0x80 then Some(I8(a.int32)) else None
    case I16Kind => if a.IntArg? && -0x8000 <= a.int32 < 0x8000 then Some(I16(a.int32)) else None
    case I32Kind => if a.IntArg? then Some(I32(a.int32)) else None
    case U8Kind => if a.IntArg? && 0 <= a.int32 < 0x100 then Some(U8(a.int32)) else None
    case U16Kind => if a.IntArg? && 0 <= a.int32 < 0x1_0000 then Some(U16(a.int32)) else None
    case I64Kind => if a.Int64Arg? then Some(I64(a.int64)) else None
    case U32Kind => if a.Int64Arg? && 0 <= a.int64 < 0x1_0000_0000 then Some(U32(a.int64)) else None
    case U64Kind => if a.Int64Arg? && 0 <= a.int64 then Some(U64(a.int64)) else None
  }

  /** Every value other than a date reads back unchanged from the argument
      it binds, except a `u64` above `i64::MAX`, which reads back as
      `i64::MAX`. A date binds as its text; `DateBindReadBack` reads it back. */
  lemma BindReadBack(v: Value)
    ensures !v.Date? ==>
      FromArg(KindOf(v), ToArg(v)) == Some(if v.U64? && v.u64 > I64Max then U64(I64Max) else v)
    ensures v.Date? ==> KindOf(v) == DateKind && ToArg(v) == TextArg(FormatDate(v.date))
  {
  }

  /** A text argument is read as the date it parses to. */
  lemma DateArgReadBack(t: string, d: CalendarDate)
    requires ParseDate(t) == Some(d)
    ensures FromArg(DateKind, TextArg(t)) == Some(Date(d))
  {
  }

  /** A bound date reads back as the same date. */
  lemma DateBindReadBack(d: CalendarDate)
    ensures FromArg(DateKind, ToArg(Date(d))) == Some(Date(d))
  {
    DateRoundTrip(d);
    BindReadBack(Date(d));
    DateArgReadBack(FormatDate(d), d);
  }

  /** Two dates with the same text are the same date. */
  lemma FormatDateInjective(d: CalendarDate, e: CalendarDate)
    requires FormatDate(d) == FormatDate(e)
    ensures d == e
  {
    DateRoundTrip(d);
    DateRoundTrip(e);
  }

  /** The `u64` saturation, as the caller sees it: values up to `i64::MAX`
      bind as themselves, every larger one as exactly `i64::MAX`. */
  lemma U64Saturation(n: UInt64)
    ensures n <= I64Max ==> ToArg(U64(n)) == Int64Arg(n)
    ensures n > I64Max ==> ToArg(U64(n)) == Int64Arg(I64Max)
    ensures ToArg(U64(U64Max)) == Int64Arg(I64Max)
  {
  }

  /** Binding never depends on anything but the value: two values bind alike
      exactly when they are equal, apart from the `u64`s that saturate and the
      kinds that share an argument representation. */
  lemma BindInjectiveWithinKind(v: Value, w: Value)
    requires KindOf(v) == KindOf(w) && !v.U64?
    ensures ToArg(v) == ToArg(w) <==> v == w
  {
    if ToArg(v) == ToArg(w) {
      BindReadBack(v);
      BindReadBack(w);
      if v.Date? {
        FormatDateInjective(v.date, w.date);
      }
    }
  }
}
