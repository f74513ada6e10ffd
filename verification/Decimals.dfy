/** Decimal text of timestamps and watermarks, and the two ways the ports bound it. */
module Decimals {
  import opened Base
  import opened Utf8

  predicate AllDigits(s: seq<byte>) {
    forall i :: 0 <= i < |s| ==> 48 <= s[i] <= 57
  }

  type Digits = s: seq<byte> | AllDigits(s)

  function Digit(b: byte): int {
    b - 48
  }

  function Value(s: Digits): nat {
    if s == [] then 0 else Value(s[..|s| - 1]) * 10 + Digit(s[|s| - 1])
  }

  /** Text the protocol accepts as a safe integer. */
  predicate SafeText(s: seq<byte>) {
    s != [] && AllDigits(s) && Value(s) <= MAX_SAFE_INTEGER
  }

  function ParseSafe(s: seq<byte>): Option<nat> {
    if SafeText(s) then Some(Value(s)) else None
  }

  /** Shortest decimal text, as `%.0f` prints a safe integer. */
  function Print(n: nat): Digits {
    if n < 10 then [48 + n] else Print(n / 10) + [48 + n % 10]
  }

  lemma {:induction false} PrintParses(n: nat)
    ensures Print(n) != [] && Value(Print(n)) == n
  {
    if n >= 10 {
      PrintParses(n / 10);
      assert Print(n)[..|Print(n)| - 1] == Print(n / 10);
    } else {
      assert Print(n)[..0] == [];
    }
  }

  // ------------------------------------------------------ Go: trim, then parse

  function TrimZeros(s: Digits): (t: Digits)
    ensures t == [] || t[0] != 48
    ensures |t| <= |s|
  {
    if s != [] && s[0] == 48 then TrimZeros(s[1..]) else s
  }

  lemma {:induction false} ValueConcat(a: Digits, b: Digits)
    ensures Value(a + b) == Value(a) * Pow10(|b|) + Value(b)
  {
    if b == [] {
      assert a + b == a;
    } else {
      var front := b[..|b| - 1];
      ValueConcat(a, front);
      assert (a + b)[..|a + b| - 1] == a + front;
      ShiftByTen(Value(a), |b| - 1);
    }
  }

  function Pow10(n: nat): nat {
    if n == 0 then 1 else 10 * Pow10(n - 1)
  }

  lemma ShiftByTen(v: nat, n: nat)
    ensures v * Pow10(n) * 10 == v * Pow10(n + 1)
  {
    assert v * Pow10(n) * 10 == v * (Pow10(n) * 10);
  }

  lemma {:induction false} TrimKeepsValue(s: Digits)
    ensures Value(TrimZeros(s)) == Value(s)
  {
    if s != [] && s[0] == 48 {
      TrimKeepsValue(s[1..]);
      assert s == s[..1] + s[1..];
      ValueConcat(s[..1], s[1..]);
      assert s[..1][..0] == [] && Value(s[..1]) == 0;
    }
  }

  const UINT64_LIMIT := 18446744073709551616

  method OnlyDigits(text: seq<byte>) returns (ok: bool)
    ensures ok == AllDigits(text)
  {
    for i := 0 to |text|
      invariant forall j :: 0 <= j < i ==> 48 <= text[j] <= 57
    {
      if text[i] < 48 || text[i] > 57 {
        return false;
      }
    }
    return true;
  }

  method TrimLeft(text: Digits) returns (s: Digits)
    ensures s == TrimZeros(text)
  {
    s := text;
    while |s| > 0 && s[0] == 48
      invariant TrimZeros(s) == TrimZeros(text)
    {
      s := s[1..];
    }
  }

  /** Digit by digit into 64 bits; a value that does not fit is an error. */
  method ParseUint(s: Digits) returns (r: Option<nat>)
    ensures r == if Value(s) < UINT64_LIMIT then Some(Value(s)) else None
  {
    var value := 0;
    for i := 0 to |s|
      invariant value == Value(s[..i])
      invariant value < UINT64_LIMIT
    {
      value := value * 10 + Digit(s[i]);
      assert s[..i + 1][..i] == s[..i];
      if value >= UINT64_LIMIT {
        ValuePrefix(s, i + 1);
        return None;
      }
    }
    assert s[..|s|] == s;
    return Some(value);
  }

  /** Leading zeros are trimmed before a 64-bit parse, so any number of them is accepted. */
  method ParseWatermark(raw: Option<seq<byte>>) returns (fence: Option<nat>, valid: bool)
    ensures raw.None? ==> valid && fence == None
    ensures raw.Some? ==> fence == ParseSafe(raw.value) && valid == SafeText(raw.value)
  {
    hide Value, TrimZeros;
    if raw.None? {
      return None, true;
    }
    var text := raw.value;
    var digits := OnlyDigits(text);
    if text == [] || !digits {
      return None, false;
    }
    var s := TrimLeft(text);
    TrimKeepsValue(text);
    var value := ParseUint(s);
    if value.None? || value.value > MAX_SAFE_INTEGER {
      return None, false;
    }
    return value, true;
  }

  lemma ValuePrefix(s: Digits, i: nat)
    requires i <= |s|
    ensures Value(s[..i]) <= Value(s)
  {
    assert s == s[..i] + s[i..];
    ValueConcat(s[..i], s[i..]);
    PowPositive(|s| - i);
    MulAtLeast(Value(s[..i]), Pow10(|s| - i));
  }

  lemma {:induction false} PowPositive(n: nat)
    ensures Pow10(n) >= 1
  {
    if n > 0 {
      PowPositive(n - 1);
    }
  }

  lemma MulAtLeast(a: nat, b: nat)
    requires b >= 1
    ensures a * b >= a
  {
  }

  // ------------------------------------- Python: length, then lexicographic bound

  const MAX_TEXT: Digits := [57, 48, 48, 55, 49, 57, 57, 50, 53, 52, 55, 52, 48, 57, 57, 49] // "9007199254740991"

  predicate LexGreater(a: seq<byte>, b: seq<byte>) {
    if a == [] then false
    else if b == [] then true
    else if a[0] != b[0] then a[0] > b[0]
    else LexGreater(a[1..], b[1..])
  }

  /** Accepts by length and text order, never converting more than sixteen digits. */
  function BoundedWatermark(raw: seq<byte>): Option<nat> {
    if raw == [] || !AllDigits(raw) then None
    else
      var trimmed := TrimZeros(raw);
      var digits: Digits := if trimmed == [] then [48] else trimmed;
      if |digits| > 16 || (|digits| == 16 && LexGreater(digits, MAX_TEXT)) then None
      else Some(Value(digits))
  }

  lemma {:induction false} ValueBelowPow(s: Digits)
    ensures Value(s) < Pow10(|s|)
  {
    if s != [] {
      ValueBelowPow(s[..|s| - 1]);
    }
  }

  /** On texts of equal length, text order is numeric order. */
  lemma {:induction false} LexIsNumeric(a: Digits, b: Digits)
    requires |a| == |b|
    ensures LexGreater(a, b) <==> Value(a) > Value(b)
  {
    if a != [] {
      SplitFirst(a);
      SplitFirst(b);
      LexIsNumeric(a[1..], b[1..]);
      ValueBelowPow(a[1..]);
      ValueBelowPow(b[1..]);
      var p, x, y := Pow10(|a| - 1), Value(a[..1]), Value(b[..1]);
      if x > y {
        MulAtLeastOneMore(x, y, p);
      } else if y > x {
        MulAtLeastOneMore(y, x, p);
      }
    }
  }

  lemma {:induction false} MulAtLeastOneMore(x: nat, y: nat, p: nat)
    requires x > y
    ensures x * p >= y * p + p
  {
    assert (y + 1) * p == y * p + p;
    if x > y + 1 {
      MulAtLeastOneMore(x - 1, y, p);
      assert x * p == (x - 1) * p + p;
    }
  }

  lemma SplitFirst(s: Digits)
    requires s != []
    ensures Value(s) == Value(s[..1]) * Pow10(|s| - 1) + Value(s[1..])
    ensures Value(s[..1]) == Digit(s[0])
  {
    assert s == s[..1] + s[1..];
    ValueConcat(s[..1], s[1..]);
    assert s[..1][..0] == [];
  }

  lemma {:induction false} PowGrows(a: nat, b: nat)
    requires a <= b
    ensures Pow10(a) <= Pow10(b)
  {
    if a < b {
      PowGrows(a, b - 1);
    }
  }

  lemma FourDigits(s: Digits)
    requires |s| == 4
    ensures Value(s) == 1000 * Digit(s[0]) + 100 * Digit(s[1]) + 10 * Digit(s[2]) + Digit(s[3])
  {
    assert s[..3][..2] == s[..2] && s[..2][..1] == s[..1] && s[..1][..0] == [];
    assert Value(s[..1]) == Digit(s[0]);
    assert Value(s[..2]) == 10 * Digit(s[0]) + Digit(s[1]);
  }

  lemma AppendFour(a: Digits, b: Digits)
    requires |b| == 4
    ensures Value(a + b) == Value(a) * 10000 + Value(b)
  {
    ValueConcat(a, b);
    assert Pow10(4) == 10000;
  }

  lemma MaxTextValue()
    ensures Value(MAX_TEXT) == MAX_SAFE_INTEGER
  {
    hide Value;
    var a: Digits, b: Digits := [57, 48, 48, 55], [49, 57, 57, 50];
    var c: Digits, d: Digits := [53, 52, 55, 52], [48, 57, 57, 49];
    assert Value(a) == 9007 by { FourDigits(a); }
    assert Value(b) == 1992 by { FourDigits(b); }
    assert Value(c) == 5474 by { FourDigits(c); }
    assert Value(d) == 991 by { FourDigits(d); }
    AppendFour(a, b);
    AppendFour(a + b, c);
    AppendFour(a + b + c, d);
    assert MAX_TEXT == a + b + c + d;
  }

  /** Both bounds accept exactly the digit strings whose value is a safe integer. */
  lemma BoundsAgree(raw: seq<byte>)
    ensures BoundedWatermark(raw) == ParseSafe(raw)
  {
    if raw != [] && AllDigits(raw) {
      var trimmed := TrimZeros(raw);
      TrimKeepsValue(raw);
      if trimmed == [] {
        assert Value([48]) == 0 by { assert [48][..0] == []; }
      } else {
        MaxTextValue();
        if |trimmed| == 16 {
          LexIsNumeric(trimmed, MAX_TEXT);
        } else if |trimmed| > 16 {
          LongTextIsLarge(trimmed);
        } else {
          ShortTextIsSmall(trimmed);
        }
      }
    }
  }

  lemma LongTextIsLarge(s: Digits)
    requires |s| > 16 && s[0] != 48
    ensures Value(s) > MAX_SAFE_INTEGER
  {
    SplitFirst(s);
    PowGrows(16, |s| - 1);
    MulAtLeast(Pow10(|s| - 1), Value(s[..1]));
    assert Pow10(|s| - 1) * Value(s[..1]) == Value(s[..1]) * Pow10(|s| - 1);
    Pow10Of16();
  }

  lemma ShortTextIsSmall(s: Digits)
    requires |s| < 16
    ensures Value(s) <= MAX_SAFE_INTEGER
  {
    ValueBelowPow(s);
    PowGrows(|s|, 15);
    Pow10Of16();
  }

  lemma Pow10Of16()
    ensures Pow10(15) == 1000000000000000 && Pow10(16) == 10000000000000000
  {
    assert Pow10(4) == 10000;
    assert Pow10(8) == 100000000;
    assert Pow10(12) == 1000000000000;
  }
}
