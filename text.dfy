/** Text helpers shared by the SQL builders, the date formatter and the URL
    builder: decimal rendering of naturals and its inverse, zero padding,
    joining with a separator, and the numbering SQLite gives to the `?`
    parameters of a statement text. */
module Text {
  import opened Wrappers

  predicate IsDigit(c: char) { '0' <= c <= '9' }

  predicate AllDigits(s: string) { forall i :: 0 <= i < |s| ==> IsDigit(s[i]) }

  function DigitChar(d: nat): (c: char)
    requires d < 10
    ensures IsDigit(c) && DigitValue(c) == d
  {
    (('0' as int) + d) as char
  }

  function DigitValue(c: char): nat
    requires IsDigit(c)
  {
    (c as int) - ('0' as int)
  }

  /** Decimal rendering of a natural number with no leading zero, as Rust's
      `{}` prints an unsigned integer. */
  function Decimal(n: nat): (s: string)
    ensures |s| >= 1 && AllDigits(s)
    ensures s[0] == '0' ==> n == 0
    decreases n
  {
    if n < 10 then [DigitChar(n)] else Decimal(n / 10) + [DigitChar(n % 10)]
  }

  /** The value of a string of decimal digits; leading zeros are allowed. */
  function DigitsValue(s: string): nat
    requires AllDigits(s)
  {
    if s == [] then 0 else DigitsValue(s[..|s| - 1]) * 10 + DigitValue(s[|s| - 1])
  }

  /** Reads a non-empty string of decimal digits; anything else is rejected. */
  function ParseDecimal(s: string): (r: Option<nat>)
    ensures r.Some? <==> s != [] && AllDigits(s)
  {
    if s != [] && AllDigits(s) then Some(DigitsValue(s)) else None
  }

  lemma {:induction false} DecimalRoundTrip(n: nat)
    ensures DigitsValue(Decimal(n)) == n
    ensures ParseDecimal(Decimal(n)) == Some(n)
    decreases n
  {
    if n >= 10 {
      DecimalRoundTrip(n / 10);
      var s := Decimal(n);
      assert s[..|s| - 1] == Decimal(n / 10);
    }
  }

  function Pow10(k: nat): (p: nat)
    ensures p >= 1
  {
    if k == 0 then 1 else 10 * Pow10(k - 1)
  }

  /** A number below 10^k takes at most k digits. */
  lemma {:induction false} DecimalLength(n: nat, k: nat)
    requires 1 <= k && n < Pow10(k)
    ensures |Decimal(n)| <= k
    decreases k
  {
    if n >= 10 {
      assert k >= 2;
      DecimalLength(n / 10, k - 1);
    }
  }

  function Zeros(k: nat): (z: string)
    ensures |z| == k && forall i :: 0 <= i < k ==> z[i] == '0'
  {
    if k == 0 then [] else Zeros(k - 1) + "0"
  }

  /** Left-pads with '0' to at least `width` characters. */
  function PadLeft(s: string, width: nat): (r: string)
    ensures |r| == if |s| >= width then |s| else width
    ensures r == Zeros(|r| - |s|) + s
  {
    if |s| >= width then s else Zeros(width - |s|) + s
  }

  lemma {:induction false} LeadingZerosValue(k: nat, s: string)
    requires AllDigits(s)
    ensures AllDigits(Zeros(k) + s) && DigitsValue(Zeros(k) + s) == DigitsValue(s)
    decreases |s|
  {
    var z := Zeros(k) + s;
    if s == [] {
      ZerosValue(k);
      assert z == Zeros(k);
    } else {
      var t := s[..|s| - 1];
      LeadingZerosValue(k, t);
      assert z[..|z| - 1] == Zeros(k) + t;
    }
  }

  lemma {:induction false} ZerosValue(k: nat)
    ensures AllDigits(Zeros(k)) && DigitsValue(Zeros(k)) == 0
  {
    if k > 0 {
      ZerosValue(k - 1);
      assert Zeros(k)[..k - 1] == Zeros(k - 1);
    }
  }

  /** A zero-padded rendering still reads back as the number it renders. */
  lemma PaddedRoundTrip(n: nat, width: nat)
    ensures AllDigits(PadLeft(Decimal(n), width))
    ensures DigitsValue(PadLeft(Decimal(n), width)) == n
  {
    var d := Decimal(n);
    LeadingZerosValue(|PadLeft(d, width)| - |d|, d);
    DecimalRoundTrip(n);
  }

  /** `parts` joined by `sep`, as Rust's `Vec<String>::join`. */
  function Join(parts: seq<string>, sep: string): string
  {
    if |parts| == 0 then ""
    else if |parts| == 1 then parts[0]
    else parts[0] + sep + Join(parts[1..], sep)
  }

  /** Joining parts that all lack `c` with a separator that lacks it gives
      a text without `c`. */
  lemma {:induction false} JoinWithout(parts: seq<string>, sep: string, c: char)
    requires forall i :: 0 <= i < |parts| ==> c !in parts[i]
    requires c !in sep
    ensures c !in Join(parts, sep)
    decreases |parts|
  {
    if |parts| > 1 {
      JoinWithout(parts[1..], sep, c);
      assert c !in parts[0];
    } else if |parts| == 1 {
      assert c !in parts[0];
    }
  }

  /** Index of the first occurrence of `c` in `s`, or |s| when there is none. */
  function IndexOf(s: string, c: char): (i: nat)
    ensures i <= |s|
    ensures i < |s| ==> s[i] == c
    ensures forall j :: 0 <= j < i ==> s[j] != c
  {
    if s == [] then 0 else if s[0] == c then 0 else 1 + IndexOf(s[1..], c)
  }

  lemma {:induction false} IndexOfAppend(a: string, c: char, b: string)
    requires c !in a
    ensures IndexOf(a + [c] + b, c) == |a|
  {
    var s := a + [c] + b;
    assert s[|a|] == c;
    assert forall j :: 0 <= j < |a| ==> s[j] == a[j];
  }

  // ---------------------------------------------------------------------
  // Parameter numbering of an SQLite statement text

  /** Length of the run of digits at the start of `s`. */
  function DigitRun(s: string): (k: nat)
    ensures k <= |s| && AllDigits(s[..k])
    ensures k < |s| ==> !IsDigit(s[k])
  {
    if s == [] || !IsDigit(s[0]) then 0 else 1 + DigitRun(s[1..])
  }

  function Max(a: nat, b: nat): nat { if a < b then b else a }

  /** The numbers SQLite gives to the parameters of a statement text, in the
      order they occur: `?NNN` is parameter NNN, and a bare `?` is one more
      than the largest number given so far. String literals and other
      parameter syntaxes are not recognised. */
  function Params(s: string): seq<nat>
  {
    ParamsFrom(s, 0)
  }

  function ParamsFrom(s: string, largest: nat): seq<nat>
    decreases |s|
  {
    if s == [] then []
    else if s[0] != '?' then ParamsFrom(s[1..], largest)
    else
      var rest := s[1..];
      var k := DigitRun(rest);
      if k == 0 then [largest + 1] + ParamsFrom(rest, largest + 1)
      else
        var n := DigitsValue(rest[..k]);
        [n] + ParamsFrom(rest[k..], Max(largest, n))
  }

  function MaxOf(largest: nat, nums: seq<nat>): nat
    decreases |nums|
  {
    if nums == [] then largest else MaxOf(Max(largest, nums[0]), nums[1..])
  }

  /** Text without a '?' contributes no parameter. */
  lemma {:induction false} ParamsSkip(a: string, b: string, largest: nat)
    requires '?' !in a
    ensures ParamsFrom(a + b, largest) == ParamsFrom(b, largest)
    decreases |a|
  {
    if a != [] {
      assert a[0] in a;
      assert (a + b)[0] == a[0] != '?';
      assert (a + b)[1..] == a[1..] + b;
      assert forall i :: 0 <= i < |a| - 1 ==> a[1..][i] == a[i + 1];
      assert '?' !in a[1..];
      ParamsSkip(a[1..], b, largest);
    } else {
      assert a + b == b;
    }
  }

  /** A numbered parameter `?n` not followed by a digit is parameter n. */
  lemma ParamsNumbered(n: nat, b: string, largest: nat)
    requires b == [] || !IsDigit(b[0])
    ensures ParamsFrom("?" + Decimal(n) + b, largest) == [n] + ParamsFrom(b, Max(largest, n))
  {
    var d := Decimal(n);
    var s := "?" + d + b;
    var tail := s[1..];
    assert tail == d + b;
    assert DigitRun(tail) == |d| by {
      DigitRunOfDigits(d, b);
    }
    assert tail[..|d|] == d;
    assert tail[|d|..] == b;
    DecimalRoundTrip(n);
  }

  lemma {:induction false} DigitRunOfDigits(d: string, b: string)
    requires AllDigits(d)
    requires b == [] || !IsDigit(b[0])
    ensures DigitRun(d + b) == |d|
    decreases |d|
  {
    if d != [] {
      assert (d + b)[1..] == d[1..] + b;
      DigitRunOfDigits(d[1..], b);
    } else {
      assert d + b == b;
    }
  }

  /** A bare `?` not followed by a digit is the next parameter after the largest so far. */
  lemma ParamsBare(b: string, largest: nat)
    requires b == [] || !IsDigit(b[0])
    ensures ParamsFrom("?" + b, largest) == [largest + 1] + ParamsFrom(b, largest + 1)
  {
    assert ("?" + b)[1..] == b;
  }

  /** Items `pre[i] + "?" + Decimal(nums[i])` joined by a separator without
      '?' that starts with a non-digit: their parameters are `nums`, in order. */
  lemma {:induction false} ParamsOfJoin(pre: seq<string>, nums: seq<nat>, sep: string, tail: string, largest: nat)
    requires |pre| == |nums| >= 1
    requires forall i :: 0 <= i < |pre| ==> '?' !in pre[i]
    requires '?' !in sep && sep != [] && !IsDigit(sep[0])
    requires tail == [] || !IsDigit(tail[0])
    ensures ParamsFrom(Join(Numbered(pre, nums), sep) + tail, largest)
         == nums + ParamsFrom(tail, MaxOf(largest, nums))
    decreases |pre|
  {
    var items := Numbered(pre, nums);
    var m := Max(largest, nums[0]);
    if |pre| == 1 {
      assert Join(items, sep) == pre[0] + "?" + Decimal(nums[0]);
      ParamsOfItem(pre[0], nums[0], tail, largest);
    } else {
      var later := Numbered(pre[1..], nums[1..]);
      assert items[1..] == later;
      var rest := Join(later, sep) + tail;
      assert Join(items, sep) + tail == pre[0] + "?" + Decimal(nums[0]) + (sep + rest);
      ParamsOfItem(pre[0], nums[0], sep + rest, largest);
      ParamsSkip(sep, rest, m);
      ParamsOfJoin(pre[1..], nums[1..], sep, tail, m);
      assert MaxOf(largest, nums) == MaxOf(m, nums[1..]);
      assert nums == [nums[0]] + nums[1..];
    }
  }

  /** One item `p + "?" + Decimal(n)`, `p` without '?', not followed by a
      digit: its one parameter is n. */
  lemma ParamsOfItem(p: string, n: nat, rest: string, largest: nat)
    requires '?' !in p
    requires rest == [] || !IsDigit(rest[0])
    ensures ParamsFrom(p + "?" + Decimal(n) + rest, largest) == [n] + ParamsFrom(rest, Max(largest, n))
  {
    var d := Decimal(n);
    assert p + "?" + d + rest == p + ("?" + d + rest);
    ParamsSkip(p, "?" + d + rest, largest);
    ParamsNumbered(n, rest, largest);
  }

  /** The items `pre[i] + "?" + Decimal(nums[i])`. */
  function Numbered(pre: seq<string>, nums: seq<nat>): (items: seq<string>)
    requires |pre| == |nums|
    ensures |items| == |pre|
    ensures forall i :: 0 <= i < |pre| ==> items[i] == pre[i] + "?" + Decimal(nums[i])
  {
    if pre == [] then [] else [pre[0] + "?" + Decimal(nums[0])] + Numbered(pre[1..], nums[1..])
  }

  /** The numbers first, first + 1, ..., first + count - 1. */
  function Range(first: nat, count: nat): (r: seq<nat>)
    ensures |r| == count && forall i :: 0 <= i < count ==> r[i] == first + i
    decreases count
  {
    if count == 0 then [] else [first] + Range(first + 1, count - 1)
  }

  /** A list of items numbered ?1 ... ?n, then text without '?' and the
      parameter ?n+1: the parameters are 1 ... n+1, in order. */
  lemma ParamsOfNumberedList(items: seq<string>, pre: seq<string>, sep: string, mid: string, tail: string, n: nat)
    requires |pre| == n >= 1 && forall i :: 0 <= i < n ==> '?' !in pre[i]
    requires items == Numbered(pre, Range(1, n))
    requires '?' !in sep && sep != [] && !IsDigit(sep[0])
    requires '?' !in mid && mid != [] && !IsDigit(mid[0])
    requires tail == mid + "?" + Decimal(n + 1)
    ensures ParamsFrom(Join(items, sep) + tail, 0) == Range(1, n + 1)
  {
    var r := Range(1, n);
    var last := "?" + Decimal(n + 1) + "";
    assert tail == mid + last;
    ParamsOfJoin(pre, r, sep, tail, 0);
    MaxOfRange(0, 1, n);
    ParamsSkip(mid, last, n);
    ParamsNumbered(n + 1, "", n);
    assert ParamsFrom(tail, MaxOf(0, r)) == [n + 1];
    RangeSnoc(1, n);
  }

  /** A range grows by one number at its end. */
  lemma {:induction false} RangeSnoc(first: nat, count: nat)
    ensures Range(first, count) + [first + count] == Range(first, count + 1)
    decreases count
  {
    if count > 0 {
      RangeSnoc(first + 1, count - 1);
      assert Range(first, count) + [first + count] == [first] + (Range(first + 1, count - 1) + [first + count]);
    }
  }

  lemma {:induction false} MaxOfRange(largest: nat, first: nat, count: nat)
    requires largest < first
    ensures MaxOf(largest, Range(first, count)) == if count == 0 then largest else first + count - 1
    decreases count
  {
    if count > 0 {
      var r := Range(first, count);
      assert r[1..] == Range(first + 1, count - 1);
      MaxOfRange(first, first + 1, count - 1);
    }
  }
}
