/** UTF-8 as section 4 of RFC 3629 defines it, and the repair of ill-formed text. */
module Utf8 {
  type byte = b: int | 0 <= b < 256

  predicate Tail(b: byte) {
    0x80 <= b <= 0xBF
  }

  /** One character, by the grammar of section 4 of RFC 3629. */
  predicate IsChar(c: seq<byte>) {
    || (|c| == 1 && c[0] <= 0x7F)
    || (|c| == 2 && 0xC2 <= c[0] <= 0xDF && Tail(c[1]))
    || (|c| == 3 && c[0] == 0xE0 && 0xA0 <= c[1] <= 0xBF && Tail(c[2]))
    || (|c| == 3 && 0xE1 <= c[0] <= 0xEC && Tail(c[1]) && Tail(c[2]))
    || (|c| == 3 && c[0] == 0xED && 0x80 <= c[1] <= 0x9F && Tail(c[2]))
    || (|c| == 3 && 0xEE <= c[0] <= 0xEF && Tail(c[1]) && Tail(c[2]))
    || (|c| == 4 && c[0] == 0xF0 && 0x90 <= c[1] <= 0xBF && Tail(c[2]) && Tail(c[3]))
    || (|c| == 4 && 0xF1 <= c[0] <= 0xF3 && Tail(c[1]) && Tail(c[2]) && Tail(c[3]))
    || (|c| == 4 && c[0] == 0xF4 && 0x80 <= c[1] <= 0x8F && Tail(c[2]) && Tail(c[3]))
  }

  /** How many bytes the character started by `lead` would have. */
  function Wanted(lead: byte): nat {
    if 0xC2 <= lead <= 0xDF then 2
    else if 0xE0 <= lead <= 0xEF then 3
    else if 0xF0 <= lead <= 0xF4 then 4
    else 1
  }

  /** Length of the character that starts `s`, or 0 when none does. */
  function CharLen(s: seq<byte>): (n: nat)
    ensures n <= |s| && n <= 4
  {
    if s != [] && Wanted(s[0]) <= |s| && IsChar(s[..Wanted(s[0])]) then Wanted(s[0]) else 0
  }

  predicate WellFormed(s: seq<byte>)
    decreases |s|
  {
    s == [] || (CharLen(s) > 0 && WellFormed(s[CharLen(s)..]))
  }

  function Flatten(parts: seq<seq<byte>>): seq<byte> {
    if parts == [] then [] else parts[0] + Flatten(parts[1..])
  }

  lemma {:induction false} FlattenAppend(a: seq<seq<byte>>, b: seq<seq<byte>>)
    ensures Flatten(a + b) == Flatten(a) + Flatten(b)
  {
    if a == [] {
      assert a + b == b;
    } else {
      FlattenAppend(a[1..], b);
      assert (a + b)[0] == a[0] && (a + b)[1..] == a[1..] + b;
      var head, tail, rest := a[0], Flatten(a[1..]), Flatten(b);
      assert Flatten(a + b) == head + (tail + rest);
      assert head + (tail + rest) == (head + tail) + rest;
    }
  }

  /** No character is a proper prefix of another, so text has one reading. */
  lemma CharLenOfChar(c: seq<byte>, rest: seq<byte>)
    requires IsChar(c)
    ensures CharLen(c + rest) == |c|
  {
    assert (c + rest)[..|c|] == c;
  }

  /** Well-formed text is exactly a concatenation of characters. */
  lemma {:induction false} WellFormedChars(chars: seq<seq<byte>>)
    requires forall c :: c in chars ==> IsChar(c)
    ensures WellFormed(Flatten(chars))
  {
    if chars != [] {
      CharLenOfChar(chars[0], Flatten(chars[1..]));
      WellFormedChars(chars[1..]);
      assert Flatten(chars)[|chars[0]|..] == Flatten(chars[1..]);
    }
  }

  lemma {:induction false} WellFormedConcat(a: seq<byte>, b: seq<byte>)
    requires WellFormed(a)
    ensures WellFormed(a + b) <==> WellFormed(b)
    decreases |a|
  {
    if a == [] {
      assert a + b == b;
    } else {
      var n := CharLen(a);
      CharLenOfChar(a[..n], a[n..] + b);
      assert a[..n] + (a[n..] + b) == a + b;
      assert (a + b)[n..] == a[n..] + b;
      WellFormedConcat(a[n..], b);
    }
  }

  // ---------------------------------------------------------------- repair

  const REPLACEMENT: seq<byte> := [0xEF, 0xBF, 0xBD]

  /** `p` begins some character. */
  ghost predicate CharPrefix(p: seq<byte>) {
    exists c: seq<byte> :: IsChar(c) && p <= c
  }

  /**
   * The maximal subpart of section 3.9 of The Unicode Standard at an offset where no
   * character starts: the longest run that begins some character, or one byte.
   */
  ghost predicate MaximalSubpart(s: seq<byte>, n: nat) {
    && 1 <= n <= |s|
    && (n == 1 || CharPrefix(s[..n]))
    && forall m :: n < m <= |s| ==> !CharPrefix(s[..m])
  }

  /** Whether byte number `at` continues the prefix opened by `lead`. */
  predicate Continues(lead: byte, at: nat, b: byte) {
    && Tail(b)
    && (at == 1 ==>
          && (lead == 0xE0 ==> 0xA0 <= b)
          && (lead == 0xED ==> b <= 0x9F)
          && (lead == 0xF0 ==> 0x90 <= b)
          && (lead == 0xF4 ==> b <= 0x8F))
  }

  /** Bytes swallowed by one replacement when `k` of them are already known to belong. */
  function Swallowed(s: seq<byte>, k: nat): (n: nat)
    requires 1 <= k <= |s|
    ensures k <= n <= |s|
    decreases |s| - k
  {
    if k < Wanted(s[0]) && k < |s| && Continues(s[0], k, s[k]) then Swallowed(s, k + 1) else k
  }

  /** Bytes read and text written for the first character or subpart of `s`. */
  function Unit(s: seq<byte>): (u: (nat, seq<byte>))
    requires s != []
    ensures 1 <= u.0 <= |s|
  {
    var n := CharLen(s);
    if n > 0 then (n, s[..n]) else (Swallowed(s, 1), REPLACEMENT)
  }

  function Repair(s: seq<byte>): seq<byte>
    decreases |s|
  {
    if s == [] then [] else Unit(s).1 + Repair(s[Unit(s).0..])
  }

  /** A prefix of a character read byte by byte. */
  predicate GoodPrefix(p: seq<byte>) {
    && 1 <= |p| <= 4
    && |p| <= Wanted(p[0])
    && (Wanted(p[0]) == 1 ==> p[0] <= 0x7F)
    && forall i :: 1 <= i < |p| ==> Continues(p[0], i, p[i])
  }

  lemma CharPrefixIsGood(p: seq<byte>)
    requires p != []
    ensures CharPrefix(p) <==> GoodPrefix(p)
  {
    if CharPrefix(p) {
      var c: seq<byte> :| IsChar(c) && p <= c;
      assert forall i :: 0 <= i < |p| ==> p[i] == c[i];
    }
    if GoodPrefix(p) {
      var second: byte := if p[0] == 0xE0 then 0xA0 else if p[0] == 0xF0 then 0x90 else 0x80;
      var w := Wanted(p[0]);
      var fill: seq<byte> := [p[0], second, 0x80, 0x80];
      var c := p + fill[|p|..w];
      assert |c| == w;
      assert forall i :: |p| <= i < w ==> c[i] == fill[i];
      assert IsChar(c);
      assert p <= c;
    }
  }

  /** Each replacement stands for exactly one maximal subpart. */
  lemma SwallowedIsMaximalSubpart(s: seq<byte>)
    requires s != [] && CharLen(s) == 0
    ensures MaximalSubpart(s, Swallowed(s, 1))
  {
    var n := Swallowed(s, 1);
    SwallowedContinues(s, 1);
    if n > 1 {
      CharPrefixIsGood(s[..n]);
    }
    forall m | n < m <= |s| ensures !CharPrefix(s[..m]) {
      CharPrefixIsGood(s[..m]);
      assert n < Wanted(s[0]) ==> !Continues(s[0], n, s[..m][n]);
    }
  }

  lemma {:induction false} SwallowedContinues(s: seq<byte>, k: nat)
    requires 1 <= k <= |s|
    requires k <= Wanted(s[0])
    requires forall i :: 1 <= i < k ==> Continues(s[0], i, s[i])
    ensures var n := Swallowed(s, k);
            && n <= Wanted(s[0])
            && (forall i :: 1 <= i < n ==> Continues(s[0], i, s[i]))
            && (n < |s| && n < Wanted(s[0]) ==> !Continues(s[0], n, s[n]))
    decreases |s| - k
  {
    if k < Wanted(s[0]) && k < |s| && Continues(s[0], k, s[k]) {
      SwallowedContinues(s, k + 1);
    }
  }

  /** `segs` cuts `s` into characters and maximal subparts, left to right. */
  ghost predicate Segmentation(s: seq<byte>, segs: seq<seq<byte>>)
    decreases |segs|
  {
    if segs == [] then s == []
    else
      && segs[0] <= s
      && segs[0] != []
      && (IsChar(segs[0]) || (CharLen(s) == 0 && MaximalSubpart(s, |segs[0]|)))
      && Segmentation(s[|segs[0]|..], segs[1..])
  }

  function ReplaceEach(segs: seq<seq<byte>>): seq<byte> {
    if segs == [] then []
    else (if IsChar(segs[0]) then segs[0] else [0xEF, 0xBF, 0xBD]) + ReplaceEach(segs[1..])
  }

  /** Repair keeps every character and writes one U+FFFD per maximal subpart. */
  lemma {:induction false} RepairReplacesSubparts(s: seq<byte>, segs: seq<seq<byte>>)
    requires Segmentation(s, segs)
    ensures Repair(s) == ReplaceEach(segs)
    decreases |segs|
  {
    if segs != [] {
      var g := segs[0];
      RepairReplacesSubparts(s[|g|..], segs[1..]);
      if IsChar(g) {
        assert g + s[|g|..] == s;
        CharLenOfChar(g, s[|g|..]);
      } else {
        SwallowedIsMaximalSubpart(s);
        assert |g| == Swallowed(s, 1);
        assert s[..|g|] == g;
      }
    }
  }

  lemma {:induction false} SegmentationExists(s: seq<byte>) returns (segs: seq<seq<byte>>)
    ensures Segmentation(s, segs)
    decreases |s|
  {
    if s == [] {
      return [];
    }
    var n := CharLen(s);
    if n == 0 {
      n := Swallowed(s, 1);
      SwallowedIsMaximalSubpart(s);
    }
    var rest := SegmentationExists(s[n..]);
    segs := [s[..n]] + rest;
    assert segs[1..] == rest;
  }

  lemma {:induction false} RepairWellFormed(s: seq<byte>)
    ensures WellFormed(Repair(s))
    decreases |s|
  {
    if s != [] {
      var n := CharLen(s);
      var head := if n > 0 then s[..n] else REPLACEMENT;
      var rest := s[(if n > 0 then n else Swallowed(s, 1))..];
      RepairWellFormed(rest);
      assert IsChar(head);
      CharLenOfChar(head, Repair(rest));
      assert (head + Repair(rest))[|head|..] == Repair(rest);
    }
  }

  lemma {:induction false} RepairIdentity(s: seq<byte>)
    requires WellFormed(s)
    ensures Repair(s) == s
    decreases |s|
  {
    if s != [] {
      RepairIdentity(s[CharLen(s)..]);
    }
  }

  /** Repair leaves alone exactly the well-formed texts. */
  lemma RepairFixesOnlyIllFormed(s: seq<byte>)
    ensures Repair(s) == s <==> WellFormed(s)
    ensures Repair(Repair(s)) == Repair(s)
  {
    RepairWellFormed(s);
    RepairIdentity(Repair(s));
    if WellFormed(s) {
      RepairIdentity(s);
    }
  }

  /** Reading the first character does not look past it. */
  lemma UnitOfPrefix(a: seq<byte>, b: seq<byte>)
    ensures CharLen(a) > 0 ==>
              CharLen(a + b) == CharLen(a) && Unit(a + b) == (CharLen(a), a[..CharLen(a)])
  {
    var n := CharLen(a);
    if n > 0 {
      CharLenOfChar(a[..n], a[n..] + b);
      assert a[..n] + (a[n..] + b) == a + b;
      assert (a + b)[..n] == a[..n];
    }
  }

  lemma RepairFirstChar(a: seq<byte>, b: seq<byte>)
    requires CharLen(a) > 0
    ensures Repair(a + b) == a[..CharLen(a)] + Repair(a[CharLen(a)..] + b)
  {
    UnitOfPrefix(a, b);
    assert (a + b)[CharLen(a)..] == a[CharLen(a)..] + b;
  }

  lemma {:induction false} RepairConcat(a: seq<byte>, b: seq<byte>)
    requires WellFormed(a)
    ensures Repair(a + b) == a + Repair(b)
    decreases |a|
  {
    hide IsChar, CharLen, Unit;
    if a == [] {
      assert a + b == b;
    } else {
      var n := CharLen(a);
      RepairFirstChar(a, b);
      RepairConcat(a[n..], b);
      assert a[..n] + (a[n..] + Repair(b)) == a + Repair(b);
    }
  }

  /** How many bytes one replacement swallows. */
  method SubpartLength(raw: seq<byte>) returns (consumed: nat)
    requires raw != []
    ensures consumed == Swallowed(raw, 1)
  {
    var wanted := 1;
    if 0xC2 <= raw[0] <= 0xDF {
      wanted := 2;
    }
    if 0xE0 <= raw[0] <= 0xEF {
      wanted := 3;
    }
    if 0xF0 <= raw[0] <= 0xF4 {
      wanted := 4;
    }
    consumed := 1;
    while consumed < wanted && consumed < |raw|
      invariant 1 <= consumed <= |raw|
      invariant Swallowed(raw, consumed) == Swallowed(raw, 1)
    {
      var b := raw[consumed];
      if b < 0x80 || b > 0xBF {
        break;
      }
      if consumed == 1 && ((raw[0] == 0xE0 && b < 0xA0) || (raw[0] == 0xED && b > 0x9F)
                           || (raw[0] == 0xF0 && b < 0x90) || (raw[0] == 0xF4 && b > 0x8F)) {
        break;
      }
      consumed := consumed + 1;
    }
  }

  /** The repair loop, reading one character or one ill-formed subpart at a time. */
  method ReplacementUtf8(raw: seq<byte>) returns (out: seq<byte>)
    ensures out == Repair(raw)
  {
    out := [];
    var rest := raw;
    while |rest| > 0
      invariant out + Repair(rest) == Repair(raw)
      decreases |rest|
    {
      ghost var before := rest;
      var size := CharLen(rest);
      if size > 0 {
        out := out + rest[..size];
        rest := rest[size..];
      } else {
        var consumed := SubpartLength(rest);
        out := out + REPLACEMENT;
        rest := rest[consumed..];
      }
      assert Repair(before) == Unit(before).1 + Repair(rest);
    }
  }
}
