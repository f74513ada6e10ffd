/** Logical, value and watermark keys as an injective printing of an identity. */
module Keys {
  import opened Base
  import opened Utf8

  type Text = seq<byte>

  datatype Identity = Identity(
    namespace: Text, keyType: Text, id: Text, useCase: Text,
    tracked: bool, args: seq<(Text, Text)>)

  datatype KeySet = KeySet(logical: Text, value: Text, watermark: Option<Text>)

  // --------------------------------------------------------- percent-escaping

  /** Bytes kept literally: alphanumerics and ~!*'()-._ */
  predicate Literal(b: byte) {
    || 97 <= b <= 122 || 65 <= b <= 90 || 48 <= b <= 57
    || b in {126, 33, 42, 39, 40, 41, 45, 46, 95}
  }

  function Hex(n: nat): byte
    requires n < 16
  {
    if n < 10 then 48 + n else 55 + n
  }

  function EscapeByte(b: byte): Text {
    if Literal(b) then [b] else [37, Hex(b / 16), Hex(b % 16)]
  }

  function Escape(s: Text): Text {
    if s == [] then [] else EscapeByte(s[0]) + Escape(s[1..])
  }

  method EscapeText(s: Text) returns (out: Text)
    ensures out == Escape(s)
  {
    out := [];
    for i := 0 to |s|
      invariant out == Escape(s[..i])
    {
      EscapeSnoc(s[..i], s[i]);
      assert s[..i] + [s[i]] == s[..i + 1];
      if Literal(s[i]) {
        out := out + [s[i]];
      } else {
        out := out + [37, Hex(s[i] / 16), Hex(s[i] % 16)];
      }
    }
    assert s[..|s|] == s;
  }

  lemma {:induction false} EscapeSnoc(s: Text, b: byte)
    ensures Escape(s + [b]) == Escape(s) + EscapeByte(b)
  {
    hide EscapeByte;
    if s == [] {
      assert s + [b] == [b] && [b][1..] == [];
    } else {
      EscapeSnoc(s[1..], b);
      assert (s + [b])[1..] == s[1..] + [b];
    }
  }

  function HexValue(b: byte): Option<nat> {
    if 48 <= b <= 57 then Some(b - 48)
    else if 65 <= b <= 70 then Some(b - 55)
    else if 97 <= b <= 102 then Some(b - 87)
    else None
  }

  /** Percent-decoding, section 2.1 of RFC 3986. */
  function Unescape(s: Text): Option<Text> {
    if s == [] then Some([])
    else if s[0] != 37 then
      var rest := Unescape(s[1..]);
      if rest.None? then None else Some([s[0]] + rest.value)
    else if |s| < 3 || HexValue(s[1]).None? || HexValue(s[2]).None? then None
    else
      var rest := Unescape(s[3..]);
      if rest.None? then None
      else Some([HexValue(s[1]).value * 16 + HexValue(s[2]).value] + rest.value)
  }

  /** Percent-decoding recovers the text, so escaping loses nothing. */
  lemma {:induction false} UnescapeEscape(s: Text)
    ensures Unescape(Escape(s)) == Some(s)
  {
    if s != [] {
      UnescapeEscape(s[1..]);
      var head, rest := EscapeByte(s[0]), Escape(s[1..]);
      assert (head + rest)[|head|..] == rest;
      assert [s[0]] + s[1..] == s;
    }
  }

  const HEX: string := "0123456789ABCDEF"

  predicate Unreserved(c: char) {
    'A' <= c <= 'Z' || 'a' <= c <= 'z' || '0' <= c <= '9' || c in {'-', '_', '.', '!', '~', '*', '\'', '(', ')'}
  }

  /** The spelling of every byte: unreserved characters as they are, all others as % and two upper-case digits. */
  lemma EscapeSpelling(b: byte)
    ensures Unreserved(b as char) ==> Escape([b]) == [b]
    ensures !Unreserved(b as char) ==> Escape([b]) == ['%' as int, HEX[b / 16] as int, HEX[b % 16] as int]
  {
    assert [b][1..] == [] && Escape([b]) == EscapeByte(b) + [];
    HexDigit(b / 16);
    HexDigit(b % 16);
    hide Hex;
  }

  lemma HexDigit(n: nat)
    requires n < 16
    ensures Hex(n) == HEX[n] as int < 256
  {
  }

  /** The separators of a key; escaped text contains none of them. */
  predicate Separator(b: byte) {
    b in {58, 123, 125, 63, 38, 61, 35} // : { } ? & = #
  }

  predicate Clean(s: Text) {
    forall i :: 0 <= i < |s| ==> !Separator(s[i])
  }

  lemma {:induction false} EscapeIsClean(s: Text)
    ensures Clean(Escape(s))
  {
    if s != [] {
      EscapeIsClean(s[1..]);
      assert Clean(EscapeByte(s[0]));
    }
  }

  // --------------------------------------------------------------------- keys

  const FRAME_SUFFIX: Text :=
    [58, 100, 105, 97, 108, 99, 97, 99, 104, 101, 45, 102, 114, 97, 109, 101, 45, 118, 49] // ":dialcache-frame-v1"
  const WATERMARK_SUFFIX: Text := [35, 119, 97, 116, 101, 114, 109, 97, 114, 107] // "#watermark"

  predicate HasBrace(s: Text) {
    123 in s || 125 in s
  }

  predicate Accepted(id: Identity) {
    && !HasBrace(id.namespace)
    && (id.tracked ==> !HasBrace(id.keyType) && !HasBrace(id.id))
    && WellFormed(id.namespace) && WellFormed(id.keyType) && WellFormed(id.id) && WellFormed(id.useCase)
    && forall i :: 0 <= i < |id.args| ==> WellFormed(id.args[i].0) && WellFormed(id.args[i].1)
  }

  function Entity(id: Identity): Text {
    Escape(id.namespace) + [58] + Escape(id.keyType) + [58] + Escape(id.id)
  }

  function ArgsText(args: seq<(Text, Text)>, first: bool): Text {
    if args == [] then []
    else [if first then 63 else 38] + Escape(args[0].0) + [61] + Escape(args[0].1) + ArgsText(args[1..], false)
  }

  function Logical(id: Identity): Text {
    (if id.tracked then [123] + Entity(id) + [125] else Entity(id))
    + ArgsText(id.args, true) + [35] + Escape(id.useCase)
  }

  /** Braces are reserved in a namespace, and in a tracked type or id; all text must be well-formed UTF-8. */
  method Validate(id: Identity) returns (ok: bool)
    ensures ok <==> Accepted(id)
    ensures ok <==>
              && '{' as int !in id.namespace && '}' as int !in id.namespace
              && (id.tracked ==> '{' as int !in id.keyType + id.id && '}' as int !in id.keyType + id.id)
              && WellFormed(id.namespace) && WellFormed(id.keyType) && WellFormed(id.id) && WellFormed(id.useCase)
              && forall i :: 0 <= i < |id.args| ==> WellFormed(id.args[i].0) && WellFormed(id.args[i].1)
  {
    hide WellFormed;
    var parts := [id.namespace];
    if id.tracked {
      parts := parts + [id.keyType, id.id];
    }
    for i := 0 to |parts|
      invariant forall j :: 0 <= j < i ==> !HasBrace(parts[j])
    {
      if HasBrace(parts[i]) {
        return false;
      }
    }
    assert !HasBrace(parts[0]) && (id.tracked ==> !HasBrace(parts[1]) && !HasBrace(parts[2]));
    if !WellFormed(id.namespace) || !WellFormed(id.keyType) || !WellFormed(id.id) || !WellFormed(id.useCase) {
      return false;
    }
    for i := 0 to |id.args|
      invariant forall j :: 0 <= j < i ==> WellFormed(id.args[j].0) && WellFormed(id.args[j].1)
    {
      if !WellFormed(id.args[i].0) || !WellFormed(id.args[i].1) {
        return false;
      }
    }
    return true;
  }

  method AppendArgs(head: Text, args: seq<(Text, Text)>) returns (text: Text)
    ensures text == head + ArgsText(args, true)
  {
    hide Escape;
    text := head;
    for i := 0 to |args|
      invariant text + ArgsText(args[i..], i == 0) == head + ArgsText(args, true)
    {
      assert args[i..][1..] == args[i + 1..];
      var name := EscapeText(args[i].0);
      var value := EscapeText(args[i].1);
      var piece := [if i == 0 then 63 else 38] + name + [61] + value;
      assert ArgsText(args[i..], i == 0) == piece + ArgsText(args[i + 1..], false);
      text := text + piece;
    }
  }

  method BuildKeys(id: Identity) returns (keys: Option<KeySet>)
    ensures keys.Some? <==> Accepted(id)
    ensures keys.Some? ==>
              && keys.value.logical == Logical(id)
              && keys.value.value == Logical(id) + FRAME_SUFFIX
              && keys.value.watermark == if id.tracked then Some(WatermarkKey(id)) else None
  {
    hide Escape, WellFormed;
    var ok := Validate(id);
    if !ok {
      return None;
    }
    var entity := Entity(id);
    var logical := entity;
    var watermark := None;
    if id.tracked {
      logical := [123] + entity + [125];
      watermark := Some(logical + WATERMARK_SUFFIX);
    }
    logical := AppendArgs(logical, id.args);
    var useCase := EscapeText(id.useCase);
    logical := logical + [35] + useCase;
    return Some(KeySet(logical, logical + FRAME_SUFFIX, watermark));
  }

  // ------------------------------------------------------- reading a key back

  /** Where the component that starts the text ends: at the first separator. */
  function ComponentEnd(s: Text): (n: nat)
    ensures n <= |s|
  {
    if s == [] || Separator(s[0]) then 0 else 1 + ComponentEnd(s[1..])
  }

  /** The first component, percent-decoded, and what follows it. */
  function ReadComponent(s: Text): Option<(Text, Text)> {
    var n := ComponentEnd(s);
    var text := Unescape(s[..n]);
    if text.None? then None else Some((text.value, s[n..]))
  }

  /** The first component if the given separator ends it, and what follows that separator. */
  function ReadUpTo(s: Text, sep: char): Option<(Text, Text)> {
    var c := ReadComponent(s);
    if c.None? || c.value.1 == [] || c.value.1[0] != sep as int then None
    else Some((c.value.0, c.value.1[1..]))
  }

  datatype Parts = Parts(namespace: Text, keyType: Text, id: Text, rest: Text)

  /** Namespace up to ':', type up to ':', id up to the next separator. */
  function ReadEntity(s: Text): Option<Parts> {
    var a := ReadUpTo(s, ':');
    var b := if a.None? then None else ReadUpTo(a.value.1, ':');
    var c := if b.None? then None else ReadComponent(b.value.1);
    if c.None? then None else Some(Parts(a.value.0, b.value.0, c.value.0, c.value.1))
  }

  /** Arguments "name=value" after '?' and then '&', and the use case after '#'. */
  function ReadTail(s: Text, mark: char): (r: Option<(seq<(Text, Text)>, Text)>)
    decreases |s|
  {
    if s == [] then None
    else if s[0] == '#' as int then
      var u := Unescape(s[1..]);
      if u.None? then None else Some(([], u.value))
    else if s[0] != mark as int then None
    else
      var name := ReadUpTo(s[1..], '=');
      var value := if name.None? then None else ReadComponent(name.value.1);
      if value.None? || |value.value.1| >= |s| then None
      else
        var rest := ReadTail(value.value.1, '&');
        if rest.None? then None else Some(([(name.value.0, value.value.0)] + rest.value.0, rest.value.1))
  }

  /** A logical key by its separators; braces around the entity mean tracked. */
  function ReadKey(s: Text): Option<Identity> {
    var tracked := s != [] && s[0] == '{' as int;
    var e := ReadEntity(if tracked then s[1..] else s);
    if e.None? || (tracked && (e.value.rest == [] || e.value.rest[0] != '}' as int)) then None
    else
      var t := ReadTail(if tracked then e.value.rest[1..] else e.value.rest, '?');
      if t.None? then None
      else Some(Identity(e.value.namespace, e.value.keyType, e.value.id, t.value.1, tracked, t.value.0))
  }

  lemma {:induction false} CleanEnd(a: Text, rest: Text)
    requires Clean(a) && (rest == [] || Separator(rest[0]))
    ensures ComponentEnd(a + rest) == |a|
    decreases |a|
  {
    if a == [] {
      assert a + rest == rest;
    } else {
      assert (a + rest)[0] == a[0] && (a + rest)[1..] == a[1..] + rest;
      CleanEnd(a[1..], rest);
    }
  }

  lemma ReadsComponent(a: Text, rest: Text)
    requires rest == [] || Separator(rest[0])
    ensures ReadComponent(Escape(a) + rest) == Some((a, rest))
  {
    EscapeIsClean(a);
    UnescapeEscape(a);
    hide Escape, Unescape, Clean, Separator;
    CleanEnd(Escape(a), rest);
    var s := Escape(a) + rest;
    assert s[..|Escape(a)|] == Escape(a) && s[|Escape(a)|..] == rest;
  }

  lemma ReadsUpTo(a: Text, sep: char, rest: Text)
    requires 0 <= sep as int < 256 && Separator(sep as int)
    ensures ReadUpTo(Escape(a) + ([sep as int] + rest), sep) == Some((a, rest))
  {
    ReadsComponent(a, [sep as int] + rest);
    hide Escape, ReadComponent;
    assert ([sep as int] + rest)[1..] == rest;
  }

  lemma ReadsEntity(id: Identity, rest: Text)
    requires rest == [] || Separator(rest[0])
    ensures ReadEntity(Entity(id) + rest) == Some(Parts(id.namespace, id.keyType, id.id, rest))
  {
    hide Escape, ReadUpTo, ReadComponent;
    var last := Escape(id.id) + rest;
    var middle := Escape(id.keyType) + ([58] + last);
    assert Entity(id) + rest == Escape(id.namespace) + ([58] + middle);
    ReadsUpTo(id.namespace, ':', middle);
    ReadsUpTo(id.keyType, ':', last);
    ReadsComponent(id.id, rest);
  }

  function Tail(args: seq<(Text, Text)>, first: bool, useCase: Text): Text {
    ArgsText(args, first) + [35] + Escape(useCase)
  }

  function NextArg(a: seq<(Text, Text)>, u: Text): Text
    requires a != []
  {
    Escape(a[0].0) + ([61] + (Escape(a[0].1) + Tail(a[1..], false, u)))
  }

  lemma TailShape(a: seq<(Text, Text)>, first: bool, u: Text)
    ensures Tail(a, first, u) != [] && Separator(Tail(a, first, u)[0])
    ensures a == [] ==> Tail(a, first, u) == [35] + Escape(u)
    ensures a != [] ==> Tail(a, first, u) == [if first then 63 else 38] + NextArg(a, u)
  {
    hide Escape;
  }

  lemma {:induction false} ReadsTail(a: seq<(Text, Text)>, first: bool, u: Text)
    ensures ReadTail(Tail(a, first, u), if first then '?' else '&') == Some((a, u))
    decreases |a|
  {
    TailShape(a, first, u);
    UnescapeEscape(u);
    hide Escape, Unescape, Tail, ReadUpTo, ReadComponent;
    var s := Tail(a, first, u);
    if a == [] {
      assert s[1..] == Escape(u);
    } else {
      var rest := Tail(a[1..], false, u);
      assert s[1..] == NextArg(a, u);
      ReadsUpTo(a[0].0, '=', Escape(a[0].1) + rest);
      TailShape(a[1..], false, u);
      ReadsComponent(a[0].1, rest);
      ReadsTail(a[1..], false, u);
      assert a == [a[0]] + a[1..];
    }
  }

  lemma LogicalShape(a: Identity)
    ensures var tail := Tail(a.args, true, a.useCase);
            Logical(a) == (if a.tracked then [123] + (Entity(a) + ([125] + tail)) else Entity(a) + tail)
    ensures Logical(a) != [] && (Logical(a)[0] == 123 <==> a.tracked)
  {
    EntityHasNoBrace(a);
    hide Escape, Entity;
  }

  /** Every logical key reads back, separator by separator, as the identity it was printed from. */
  lemma KeyReadsBack(id: Identity)
    ensures ReadKey(Logical(id)) == Some(id)
  {
    LogicalShape(id);
    TailShape(id.args, true, id.useCase);
    ReadsTail(id.args, true, id.useCase);
    hide Escape, Entity, Logical, Tail, ReadEntity, ReadTail;
    var tail := Tail(id.args, true, id.useCase);
    if id.tracked {
      assert Logical(id)[1..] == Entity(id) + ([125] + tail);
      ReadsEntity(id, [125] + tail);
      assert ([125] + tail)[1..] == tail;
    } else {
      ReadsEntity(id, tail);
    }
  }

  /** Identities that print the same logical key, or the same value key, are equal. */
  lemma KeysInjective(a: Identity, b: Identity)
    ensures Logical(a) == Logical(b) ==> a == b
    ensures Logical(a) + FRAME_SUFFIX == Logical(b) + FRAME_SUFFIX ==> a == b
  {
    KeyReadsBack(a);
    KeyReadsBack(b);
    hide Logical, ReadKey;
    if Logical(a) + FRAME_SUFFIX == Logical(b) + FRAME_SUFFIX {
      assert Logical(a) == (Logical(a) + FRAME_SUFFIX)[..|Logical(a) + FRAME_SUFFIX| - |FRAME_SUFFIX|];
      assert Logical(b) == (Logical(b) + FRAME_SUFFIX)[..|Logical(b) + FRAME_SUFFIX| - |FRAME_SUFFIX|];
    }
  }

  function WatermarkKey(id: Identity): Text {
    [123] + Entity(id) + [125] + WATERMARK_SUFFIX
  }

  /** A watermark is shared by exactly the identities of one entity and is no value key. */
  lemma WatermarkNamesEntity(a: Identity, b: Identity)
    ensures WatermarkKey(a) == WatermarkKey(b) <==>
              a.namespace == b.namespace && a.keyType == b.keyType && a.id == b.id
    ensures WatermarkKey(a) != Logical(b) + FRAME_SUFFIX
  {
    hide Escape, Entity, Logical, ReadEntity;
    var x := [125] + WATERMARK_SUFFIX;
    assert WatermarkKey(a) == [123] + (Entity(a) + x) && WatermarkKey(b) == [123] + (Entity(b) + x);
    if WatermarkKey(a) == WatermarkKey(b) {
      assert Entity(a) + x == WatermarkKey(a)[1..] == WatermarkKey(b)[1..] == Entity(b) + x;
      ReadsEntity(a, x);
      ReadsEntity(b, x);
    }
    if a.namespace == b.namespace && a.keyType == b.keyType && a.id == b.id {
      EntityOfParts(a, b);
    }
    assert WatermarkKey(a)[|WatermarkKey(a)| - 1] == 107;
    assert (Logical(b) + FRAME_SUFFIX)[|Logical(b) + FRAME_SUFFIX| - 1] == 49;
  }

  lemma EntityOfParts(a: Identity, b: Identity)
    requires a.namespace == b.namespace && a.keyType == b.keyType && a.id == b.id
    ensures Entity(a) == Entity(b)
  {
  }

  // ---------------------------------------------------------- cluster hash tag

  function IndexOf(s: Text, b: byte, from: nat): (i: nat)
    requires from <= |s|
    ensures from <= i <= |s|
    decreases |s| - from
  {
    if from == |s| || s[from] == b then from else IndexOf(s, b, from + 1)
  }

  /** The text Redis Cluster hashes: between the first { and the first } after it. */
  function HashTag(s: Text): Option<Text> {
    var open := IndexOf(s, 123, 0);
    if open == |s| then None
    else
      var close := IndexOf(s, 125, open + 1);
      if close == |s| || close == open + 1 then None else Some(s[open + 1..close])
  }

  lemma {:induction false} IndexOfFirst(s: Text, b: byte, from: nat, at: nat)
    requires from <= at < |s| && s[at] == b
    requires forall i :: from <= i < at ==> s[i] != b
    ensures IndexOf(s, b, from) == at
    decreases at - from
  {
    if from < at {
      IndexOfFirst(s, b, from + 1, at);
    }
  }

  lemma EntityHasNoBrace(id: Identity)
    ensures forall i :: 0 <= i < |Entity(id)| ==> Entity(id)[i] != 123 && Entity(id)[i] != 125
    ensures |Entity(id)| >= 2
  {
    EscapeIsClean(id.namespace);
    EscapeIsClean(id.keyType);
    EscapeIsClean(id.id);
    hide Escape;
  }

  lemma TagOf(id: Identity, rest: Text)
    ensures HashTag([123] + Entity(id) + [125] + rest) == Some(Entity(id))
  {
    EntityHasNoBrace(id);
    hide Entity;
    var s := [123] + Entity(id) + [125] + rest;
    var n := |Entity(id)|;
    assert s[0] == 123 && s[n + 1] == 125;
    assert forall i :: 1 <= i <= n ==> s[i] == Entity(id)[i - 1];
    IndexOfFirst(s, 125, 1, n + 1);
    assert s[1..n + 1] == Entity(id);
  }

  /** A tracked value and its watermark always hash to the same cluster slot. */
  lemma SameHashTag(id: Identity)
    requires id.tracked
    ensures HashTag(Logical(id) + FRAME_SUFFIX) == HashTag(WatermarkKey(id)) == Some(Entity(id))
  {
    var rest := ArgsText(id.args, true) + [35] + Escape(id.useCase) + FRAME_SUFFIX;
    assert Logical(id) + FRAME_SUFFIX == [123] + Entity(id) + [125] + rest;
    TagOf(id, rest);
    TagOf(id, WATERMARK_SUFFIX);
  }

  // ---------------------------------------------------------- the wire spelling

  function Ascii(s: string): Text {
    seq(|s|, i requires 0 <= i < |s| => if s[i] as int < 128 then s[i] as int else 63)
  }

  /** The fixed parts: the frame suffix of value keys and the name of watermark keys. */
  lemma KeySuffixes(id: Identity)
    ensures FRAME_SUFFIX == Ascii(":dialcache-frame-v1")
    ensures WatermarkKey(id) == Ascii("{") + Entity(id) + Ascii("}#watermark")
  {
    assert Ascii("{") == [123];
    assert Ascii("}#watermark") == [125] + WATERMARK_SUFFIX;
  }
}
