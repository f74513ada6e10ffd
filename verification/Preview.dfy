/** Streamed value previews and the Python pointer clamp, both equal to clamping whole text. */
module Preview {
  import opened Utf8
  import opened Clamp

  /** Retains only the logged prefix of a serialization while consuming all of it. */
  class JsonPrefix {
    var bytes: seq<byte>
    var truncated: bool
    ghost var written: seq<byte>

    ghost predicate Valid()
      reads this
    {
      && |bytes| <= VALUE_MAX
      && bytes == (if |written| <= VALUE_MAX then written else written[..VALUE_MAX])
      && (truncated <==> |written| > VALUE_MAX)
    }

    constructor ()
      ensures Valid() && written == []
    {
      bytes, truncated, written := [], false, [];
    }

    method Write(chunk: seq<byte>) returns (n: nat)
      requires Valid()
      modifies this
      ensures Valid()
      ensures n == |chunk| && written == old(written) + chunk
    {
      var room := VALUE_MAX - |bytes|;
      var retained := if |chunk| < room then |chunk| else room;
      bytes := bytes + chunk[..retained];
      truncated := truncated || retained < |chunk|;
      written := written + chunk;
      n := |chunk|;
    }

    method Finish() returns (text: seq<byte>)
      requires Valid()
      ensures WellFormed(text)
      ensures WellFormed(written) ==> text == Clamped(written, VALUE_MAX)
    {
      hide IsChar, CharLen, WellFormed, ValidUpTo;
      var kept := if truncated then bytes[..VALUE_MAX - |MARKER|] else bytes;
      text := kept[..ValidUpTo(kept)];
      ValidUpToIsLongest(kept);
      if WellFormed(written) {
        assert kept == written[..|kept|];
        ValidUpToOfCut(written, |kept|);
        assert text == written[..Floor(written, |kept|)];
      }
      if truncated {
        MarkerWellFormed();
        WellFormedConcat(text, MARKER);
        text := text + MARKER;
      }
    }
  }

  /** However a text is split into writes, the stream yields the clamp of the whole. */
  method StreamedPreview(chunks: seq<seq<byte>>) returns (text: seq<byte>)
    requires WellFormed(Flatten(chunks))
    ensures text == Clamped(Flatten(chunks), 8192)
  {
    hide WellFormed, Clamped, Flatten;
    var prefix := new JsonPrefix();
    FlattenNothing();
    for i := 0 to |chunks|
      invariant prefix.Valid() && fresh(prefix)
      invariant prefix.written == Flatten(chunks[..i])
    {
      var n := prefix.Write(chunks[i]);
      assert chunks[..i + 1] == chunks[..i] + [chunks[i]];
      FlattenSnoc(chunks[..i], chunks[i]);
    }
    assert chunks[..|chunks|] == chunks;
    text := prefix.Finish();
  }

  lemma FlattenNothing()
    ensures Flatten([]) == []
  {
  }

  lemma FlattenSnoc(parts: seq<seq<byte>>, last: seq<byte>)
    ensures Flatten(parts + [last]) == Flatten(parts) + last
  {
    FlattenAppend(parts, [last]);
    assert Flatten([last]) == last + [];
  }

  // -------------------------------------------------------------------- Python

  /** Decoding that drops every ill-formed subpart. */
  function Ignored(s: seq<byte>): seq<byte>
    decreases |s|
  {
    if s == [] then []
    else (if CharLen(s) > 0 then s[..CharLen(s)] else []) + Ignored(s[Unit(s).0..])
  }

  lemma IgnoredFirstChar(a: seq<byte>, b: seq<byte>)
    requires CharLen(a) > 0
    ensures Ignored(a + b) == a[..CharLen(a)] + Ignored(a[CharLen(a)..] + b)
  {
    UnitOfPrefix(a, b);
    assert (a + b)[CharLen(a)..] == a[CharLen(a)..] + b;
  }

  lemma {:induction false} IgnoredConcat(a: seq<byte>, b: seq<byte>)
    requires WellFormed(a)
    ensures Ignored(a + b) == a + Ignored(b)
    decreases |a|
  {
    hide IsChar, CharLen, Unit;
    if a == [] {
      assert a + b == b;
    } else {
      var n := CharLen(a);
      IgnoredFirstChar(a, b);
      IgnoredConcat(a[n..], b);
      assert a[..n] + (a[n..] + Ignored(b)) == a + Ignored(b);
    }
  }

  /** Dropping the partial character at a cut ends at the same boundary. */
  lemma IgnoredOfCut(p: seq<byte>, limit: nat)
    requires WellFormed(p) && limit <= |p|
    ensures Ignored(p[..limit]) == p[..Floor(p, limit)]
  {
    hide IsChar, CharLen, Unit, Ignored, WellFormed;
    var f := Floor(p, limit);
    FloorIsLongest(p, limit);
    IgnoredConcat(p[..f], p[f..limit]);
    PartialCharIgnored(p, limit);
    assert p[..f] + p[f..limit] == p[..limit];
    assert p[..f] + [] == p[..f];
  }

  lemma PartialCharIgnored(p: seq<byte>, limit: nat)
    requires WellFormed(p) && limit <= |p|
    ensures Ignored(p[Floor(p, limit)..limit]) == []
  {
    hide IsChar;
    var f := Floor(p, limit);
    if f < limit {
      CutInsideChar(p, limit);
      var c := p[f..][..CharLen(p[f..])];
      ProperPrefixIgnored(c, limit - f);
      assert p[f..limit] == c[..limit - f];
    }
  }

  lemma ProperPrefixIgnored(c: seq<byte>, k: nat)
    requires IsChar(c) && 0 < k < |c|
    ensures Ignored(c[..k]) == []
  {
    var tail := c[..k];
    CharShape(c);
    SwallowedIsMaximalSubpart(tail);
    assert tail[..k] == tail && tail <= c;
    assert CharPrefix(tail);
    assert Unit(tail).0 == k;
    assert tail[k..] == [];
  }

  /** The Python clamp: cut the bytes, decode ignoring errors, append the marker. */
  method ClampByDecoding(text: seq<byte>, limit: nat) returns (r: seq<byte>)
    requires WellFormed(text) && limit >= |MARKER|
    ensures r == Clamped(text, limit)
  {
    if |text| <= limit {
      return text;
    }
    IgnoredOfCut(text, limit - |MARKER|);
    r := Ignored(text[..limit - |MARKER|]) + MARKER;
  }

  /** A reference token as its code points, each in UTF-8. */
  type Token = t: seq<seq<byte>> | forall c :: c in t ==> IsChar(c)

  /** The pointer text of escaped reference tokens. */
  function PointerText(tokens: seq<Token>): seq<byte> {
    if tokens == [] then [] else [47] + Flatten(tokens[0]) + PointerText(tokens[1..])
  }

  /** Each token cut to `max` code points. */
  function CutTokens(tokens: seq<Token>, max: nat): seq<Token> {
    if tokens == [] then []
    else [if |tokens[0]| <= max then tokens[0] else tokens[0][..max]] + CutTokens(tokens[1..], max)
  }

  lemma {:induction false} FlattenLength(t: Token)
    ensures |Flatten(t)| >= |t|
  {
    if t != [] {
      FlattenLength(t[1..]);
    }
  }

  lemma {:induction false} PointerTextWellFormed(tokens: seq<Token>)
    ensures WellFormed(PointerText(tokens))
  {
    if tokens != [] {
      PointerTextWellFormed(tokens[1..]);
      var slash: seq<byte> := [47];
      var chars := [slash] + tokens[0];
      WellFormedChars(chars);
      assert chars[1..] == tokens[0];
      WellFormedConcat(Flatten(chars), PointerText(tokens[1..]));
    }
  }

  lemma SamePrefix(start: seq<byte>, a: seq<byte>, b: seq<byte>)
    ensures (start + a)[..|start|] == (start + b)[..|start|]
  {
    assert (start + a)[..|start|] == start && (start + b)[..|start|] == start;
  }

  /** Cut and whole pointers are equal, or agree on more than `max` bytes. */
  lemma {:induction false} CutAgrees(tokens: seq<Token>, max: nat) returns (k: nat)
    ensures var cut, whole := PointerText(CutTokens(tokens, max)), PointerText(tokens);
            cut == whole || (max < k <= |cut| && k <= |whole| && cut[..k] == whole[..k])
  {
    hide IsChar;
    k := 0;
    if tokens != [] {
      var t := tokens[0];
      var cut, whole := PointerText(CutTokens(tokens, max)), PointerText(tokens);
      if |t| > max {
        var head: Token := t[..max];
        var start := [47] + Flatten(head);
        k := |start|;
        FlattenLength(head);
        assert t == head + t[max..];
        FlattenAppend(head, t[max..]);
        var rest, more := PointerText(tokens[1..]), PointerText(CutTokens(tokens, max)[1..]);
        assert CutTokens(tokens, max)[0] == head;
        assert cut == start + more;
        assert whole == start + (Flatten(t[max..]) + rest);
        hide PointerText, CutTokens, Flatten;
        SamePrefix(start, more, Flatten(t[max..]) + rest);
      } else {
        var j := CutAgrees(tokens[1..], max);
        var piece := [47] + Flatten(t);
        var cutRest, wholeRest := PointerText(CutTokens(tokens[1..], max)), PointerText(tokens[1..]);
        assert CutTokens(tokens, max)[1..] == CutTokens(tokens[1..], max);
        assert cut == piece + cutRest && whole == piece + wholeRest;
        if cutRest != wholeRest {
          k := |piece| + j;
          assert cut[..k] == piece + cutRest[..j];
          assert whole[..k] == piece + wholeRest[..j];
        }
      }
    }
  }

  /** Cutting every token at the byte budget in code points is invisible after the clamp. */
  lemma TokenCutInvisible(tokens: seq<Token>, max: nat)
    requires max >= |MARKER|
    ensures Clamped(PointerText(CutTokens(tokens, max)), max) == Clamped(PointerText(tokens), max)
  {
    hide CutTokens, PointerText, Floor, IsChar;
    var cut, whole := PointerText(CutTokens(tokens, max)), PointerText(tokens);
    var k := CutAgrees(tokens, max);
    if cut != whole {
      FloorAgrees(cut, whole, max - |MARKER|, k);
    }
  }

  /** Both ports log the same pointer for the same tokens. */
  lemma PortsLogSamePointer(tokens: seq<Token>)
    ensures var whole := PointerText(tokens);
            var copied := whole[..(if |whole| < COPIED_MAX then |whole| else COPIED_MAX)];
            Clamped(Repair(copied), PATH_MAX) == Clamped(PointerText(CutTokens(tokens, PATH_MAX)), PATH_MAX)
  {
    PointerTextWellFormed(tokens);
    EarlyCutInvisible(PointerText(tokens), PATH_MAX);
    TokenCutInvisible(tokens, PATH_MAX);
  }
}
