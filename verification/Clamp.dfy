/** Clamping logged text to a byte budget without splitting a character. */
module Clamp {
  import opened Utf8

  const MARKER: seq<byte> := [46, 46, 46, 91, 116, 114, 117, 110, 99, 97, 116, 101, 100, 93] // "...[truncated]"
  const PATH_MAX := 512
  const VALUE_MAX := 8192
  const COPIED_MAX := PATH_MAX + 4

  /** Largest offset at or below `limit` that does not fall inside a character. */
  function Floor(s: seq<byte>, limit: nat): (n: nat)
    requires limit <= |s|
    ensures n <= limit
  {
    if limit == 0 || limit == |s| || !Tail(s[limit]) then limit else Floor(s, limit - 1)
  }

  /** The clamped text: whole when it fits, else cut at a character and marked. */
  function Clamped(s: seq<byte>, max: nat): seq<byte> {
    if |s| <= max then s
    else s[..Floor(s, if max < |MARKER| then 0 else max - |MARKER|)] + MARKER
  }

  /** Length of the longest well-formed prefix. */
  function ValidUpTo(s: seq<byte>): (n: nat)
    ensures n <= |s|
    decreases |s|
  {
    if s == [] || CharLen(s) == 0 then 0 else CharLen(s) + ValidUpTo(s[CharLen(s)..])
  }

  // ------------------------------------------------------- character boundaries

  /** A character is one non-tail byte followed by tail bytes. */
  lemma CharShape(c: seq<byte>)
    requires IsChar(c)
    ensures 1 <= |c| <= 4 && !Tail(c[0])
    ensures forall i :: 1 <= i < |c| ==> Tail(c[i])
    ensures forall i :: 0 <= i < |c| ==> CharLen(c[..i]) == 0
  {
    forall i | 0 <= i < |c| ensures CharLen(c[..i]) == 0 {
      UnitOfPrefix(c[..i], c[i..]);
      assert c[..i] + c[i..] == c;
    }
  }

  /** In well-formed text the boundaries are the ends of well-formed prefixes. */
  lemma {:induction false} BoundaryIsPrefix(s: seq<byte>, i: nat)
    requires WellFormed(s) && i <= |s|
    ensures WellFormed(s[..i]) <==> (i == |s| || !Tail(s[i]))
    decreases |s|
  {
    if i == |s| {
      assert s[..i] == s;
    } else if i < CharLen(s) {
      InsideFirstChar(s, i);
    } else {
      PrefixWithin(s, i);
      BoundaryIsPrefix(s[CharLen(s)..], i - CharLen(s));
    }
  }

  lemma InsideFirstChar(s: seq<byte>, i: nat)
    requires i < CharLen(s)
    ensures Tail(s[i]) <==> i > 0
    ensures WellFormed(s[..i]) <==> i == 0
  {
    var c := s[..CharLen(s)];
    CharShape(c);
    assert s[i] == c[i];
    assert s[..i] == c[..i];
  }

  lemma {:induction false} FloorIsLongest(s: seq<byte>, limit: nat)
    requires WellFormed(s) && limit <= |s|
    ensures var n := Floor(s, limit);
            && WellFormed(s[..n])
            && (forall m :: n < m <= limit ==> !WellFormed(s[..m]))
  {
    BoundaryIsPrefix(s, limit);
    if limit > 0 && limit < |s| && Tail(s[limit]) {
      FloorIsLongest(s, limit - 1);
    }
  }

  /** A limit that is no boundary falls inside the character that starts at its floor. */
  lemma CutInsideChar(s: seq<byte>, limit: nat)
    requires WellFormed(s) && limit <= |s| && Floor(s, limit) < limit
    ensures limit - Floor(s, limit) < CharLen(s[Floor(s, limit)..])
  {
    hide IsChar, CharLen, WellFormed, Floor;
    var f := Floor(s, limit);
    FloorIsLongest(s, limit);
    var rest := s[f..];
    assert s[..f] + rest == s;
    WellFormedConcat(s[..f], rest);
    WellFormedHead(rest);
    var n := CharLen(rest);
    assert s[..f + n] == s[..f] + rest[..n];
    WellFormedConcat(s[..f], rest[..n]);
  }

  lemma WellFormedHead(s: seq<byte>)
    requires WellFormed(s) && s != []
    ensures 0 < CharLen(s) <= |s| && WellFormed(s[..CharLen(s)])
  {
    var c := s[..CharLen(s)];
    WellFormedChars([c]);
    assert Flatten([c]) == c + [];
  }

  lemma NoFirstChar(s: seq<byte>, m: nat)
    requires CharLen(s) == 0 && 0 < m <= |s|
    ensures !WellFormed(s[..m])
  {
    UnitOfPrefix(s[..m], s[m..]);
    assert s[..m] + s[m..] == s;
    hide IsChar, CharLen;
  }

  /** The longest prefix `from_utf8` accepts is the longest well-formed one. */
  lemma {:induction false} ValidUpToIsLongest(s: seq<byte>)
    ensures WellFormed(s[..ValidUpTo(s)])
    ensures forall m :: ValidUpTo(s) < m <= |s| ==> !WellFormed(s[..m])
    decreases |s|
  {
    hide IsChar, CharLen;
    var n := CharLen(s);
    if n == 0 {
      forall m | 0 < m <= |s| ensures !WellFormed(s[..m]) {
        NoFirstChar(s, m);
      }
    } else {
      hide WellFormed;
      var rest := s[n..];
      var v := ValidUpTo(rest);
      ValidUpToIsLongest(rest);
      PrefixWithin(s, n + v);
      forall m | n + v < m <= |s| ensures !WellFormed(s[..m]) {
        PrefixWithin(s, m);
      }
    }
  }

  /** Past its first character, a prefix is well formed when the remainder is. */
  lemma PrefixWithin(s: seq<byte>, m: nat)
    requires CharLen(s) > 0
    requires CharLen(s) <= m <= |s|
    ensures WellFormed(s[..m]) <==> WellFormed(s[CharLen(s)..][..m - CharLen(s)])
  {
    var n := CharLen(s);
    var c := s[..n];
    assert s[..m] == c + s[n..][..m - n];
    WellFormedChars([c]);
    assert Flatten([c]) == c + [];
    WellFormedConcat(c, s[n..][..m - n]);
  }

  /** Cutting well-formed text and keeping what still parses ends at `Floor`. */
  lemma ValidUpToOfCut(s: seq<byte>, limit: nat)
    requires WellFormed(s) && limit <= |s|
    ensures ValidUpTo(s[..limit]) == Floor(s, limit)
  {
    var cut := s[..limit];
    var v := ValidUpTo(cut);
    var f := Floor(s, limit);
    ValidUpToIsLongest(cut);
    FloorIsLongest(s, limit);
    assert cut[..v] == s[..v];
    assert cut[..f] == s[..f];
  }

  /**
   * A clamped text is well formed, fits its budget and keeps the longest whole-character
   * prefix that leaves room for the marker.
   */
  lemma ClampedKeepsLongestPrefix(s: seq<byte>, max: nat)
    requires WellFormed(s)
    ensures WellFormed(Clamped(s, max))
    ensures |s| <= max ==> Clamped(s, max) == s
    ensures max < |s| && max < |MARKER| ==> Clamped(s, max) == MARKER
    ensures |MARKER| <= max ==> |Clamped(s, max)| <= max
    ensures |s| > max >= |MARKER| ==>
              exists n :: 0 <= n <= max - |MARKER| && Clamped(s, max) == s[..n] + MARKER
                          && forall m :: n < m <= max - |MARKER| ==> !WellFormed(s[..m])
  {
    if |s| > max {
      var limit := if max < |MARKER| then 0 else max - |MARKER|;
      FloorIsLongest(s, limit);
      var n := Floor(s, limit);
      MarkerWellFormed();
      WellFormedConcat(s[..n], MARKER);
    }
  }

  /** The marker's text, and the byte budgets of a path and of a value. */
  lemma MarkerText()
    ensures |MARKER| == 14 && forall i :: 0 <= i < 14 ==> MARKER[i] == "...[truncated]"[i] as int
    ensures PATH_MAX == 512 && VALUE_MAX == 8192 && COPIED_MAX == 516
  {
  }

  lemma MarkerWellFormed()
    ensures WellFormed(MARKER)
  {
    var chars := seq(|MARKER|, i requires 0 <= i < |MARKER| => [MARKER[i]]);
    SingletonsFlatten(MARKER);
    WellFormedChars(chars);
  }

  lemma {:induction false} SingletonsFlatten(s: seq<byte>)
    ensures Flatten(seq(|s|, i requires 0 <= i < |s| => [s[i]])) == s
  {
    if s != [] {
      SingletonsFlatten(s[1..]);
      var all := seq(|s|, i requires 0 <= i < |s| => [s[i]]);
      assert all[1..] == seq(|s[1..]|, i requires 0 <= i < |s[1..]| => [s[1..][i]]);
    }
  }

  // --------------------------------------------------------------- Go and Rust

  /** Repair, then clamp by walking back to the start of a character. */
  method ClampLogUtf8(value: seq<byte>, maximum: nat) returns (text: seq<byte>)
    requires maximum >= |MARKER|
    ensures text == Clamped(Repair(value), maximum)
  {
    var repaired := ReplacementUtf8(value);
    if |repaired| <= maximum {
      return repaired;
    }
    var limit := maximum - |MARKER|;
    while limit > 0 && Tail(repaired[limit])
      invariant 0 <= limit < |repaired|
      invariant Floor(repaired, limit) == Floor(repaired, maximum - |MARKER|)
    {
      limit := limit - 1;
    }
    text := repaired[..limit] + MARKER;
  }

  /** The same clamp over text that is already well formed, with a saturating budget. */
  method ClampUtf8(value: seq<byte>, maxBytes: nat) returns (text: seq<byte>)
    ensures text == Clamped(value, maxBytes)
  {
    if |value| <= maxBytes {
      return value;
    }
    var limit := if maxBytes < |MARKER| then 0 else maxBytes - |MARKER|;
    ghost var start := limit;
    while limit > 0 && Tail(value[limit])
      invariant 0 <= limit < |value|
      invariant Floor(value, limit) == Floor(value, start)
    {
      limit := limit - 1;
    }
    text := value[..limit] + MARKER;
  }

  /**
   * Copying only the first `max + 4` bytes of a pointer cannot be seen after the clamp,
   * even when the copy ends inside a character and is repaired.
   */
  lemma EarlyCutInvisible(p: seq<byte>, max: nat)
    requires WellFormed(p) && max >= |MARKER|
    ensures var kept := if |p| < max + 4 then |p| else max + 4;
            Clamped(Repair(p[..kept]), max) == Clamped(p, max)
  {
    hide WellFormed, Repair, Floor;
    if |p| <= max + 4 {
      assert p[..|p|] == p;
      RepairIdentity(p);
    } else {
      var q, f := RepairOfCut(p, max + 4);
      FloorAgrees(p, q, max - |MARKER|, f);
    }
  }

  /** Repairing a cut keeps all but three bytes before it and never shortens the text. */
  lemma RepairOfCut(p: seq<byte>, kept: nat) returns (q: seq<byte>, f: nat)
    requires WellFormed(p) && kept <= |p|
    ensures q == Repair(p[..kept])
    ensures kept - 3 <= f <= |q| && f <= kept
    ensures p[..f] == q[..f]
    ensures |q| >= kept
  {
    hide WellFormed, IsChar, CharLen, Repair, Floor;
    q, f := Repair(p[..kept]), Floor(p, kept);
    FloorIsLongest(p, kept);
    FloorWithinChar(p, kept);
    var part := p[f..kept];
    assert p[..kept] == p[..f] + part;
    RepairConcat(p[..f], part);
    if f < kept {
      CutInsideChar(p, kept);
      PartOfChar(p[f..], kept - f);
      assert part == p[f..][..kept - f];
      RepairOfPart(part);
    }
  }

  lemma PartOfChar(s: seq<byte>, n: nat)
    requires n < CharLen(s)
    ensures CharLen(s[..n]) == 0
  {
    var c := s[..CharLen(s)];
    CharShape(c);
    assert s[..n] == c[..n];
  }

  lemma RepairOfPart(s: seq<byte>)
    requires s != [] && CharLen(s) == 0
    ensures |Repair(s)| >= 3
  {
    hide CharLen;
  }

  /** At most three bytes of a character can lie before a cut inside it. */
  lemma FloorWithinChar(p: seq<byte>, limit: nat)
    requires WellFormed(p) && limit <= |p|
    ensures limit - Floor(p, limit) <= 3
  {
    if 4 <= limit < |p| && Tail(p[limit]) && Tail(p[limit - 1]) && Tail(p[limit - 2]) {
      NoFourTails(p, limit - 3);
      assert Floor(p, limit - 1) == Floor(p, limit - 2) == Floor(p, limit - 3);
    } else if 4 <= limit < |p| && Tail(p[limit]) {
      assert Floor(p, limit - 1) >= limit - 2;
    }
  }

  lemma {:induction false} NoFourTails(p: seq<byte>, i: nat)
    requires WellFormed(p) && i + 3 < |p|
    ensures !(Tail(p[i]) && Tail(p[i + 1]) && Tail(p[i + 2]) && Tail(p[i + 3]))
    decreases |p|
  {
    var n := CharLen(p);
    var c := p[..n];
    CharShape(c);
    if i >= n {
      NoFourTails(p[n..], i - n);
    } else if i == 0 {
      assert p[0] == c[0];
    } else {
      // The next character starts within the four bytes.
      var rest := p[n..];
      assert rest != [];
      CharShape(rest[..CharLen(rest)]);
      assert rest[..CharLen(rest)][0] == p[n];
    }
  }

  lemma {:induction false} FloorAgrees(p: seq<byte>, q: seq<byte>, limit: nat, upTo: nat)
    requires limit < upTo <= |p| && upTo <= |q| && p[..upTo] == q[..upTo]
    ensures Floor(p, limit) == Floor(q, limit)
    ensures p[..Floor(p, limit)] == q[..Floor(q, limit)]
  {
    assert p[limit] == p[..upTo][limit] == q[..upTo][limit] == q[limit];
    if limit > 0 && Tail(p[limit]) {
      FloorAgrees(p, q, limit - 1, upTo);
    }
    var f := Floor(p, limit);
    assert p[..f] == p[..upTo][..f] == q[..upTo][..f] == q[..f];
  }
}
