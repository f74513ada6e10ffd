/** JSON values, member order by UTF-16 code units, and JSON Pointers (RFC 6901). */
module Json {
  import opened Base

  datatype Json =
    | Null
    | Bool(b: bool)
    | Num(n: real)
    | Str(s: string)
    | Arr(items: seq<Json>)
    | Obj(members: map<string, Json>)

  // ------------------------------------------------------------- member order

  function CharUnits(c: char): (u: seq<int>)
    ensures |u| == 1 || |u| == 2
  {
    var n := c as int;
    if n < 0x10000 then [n] else [0xD800 + (n - 0x10000) / 0x400, 0xDC00 + (n - 0x10000) % 0x400]
  }

  function Utf16(s: string): seq<int> {
    if s == [] then [] else CharUnits(s[0]) + Utf16(s[1..])
  }

  predicate LexLess(a: seq<int>, b: seq<int>) {
    if b == [] then false
    else if a == [] then true
    else if a[0] != b[0] then a[0] < b[0]
    else LexLess(a[1..], b[1..])
  }

  predicate Less(a: string, b: string) {
    LexLess(Utf16(a), Utf16(b))
  }

  lemma {:induction false} LexTotal(a: seq<int>, b: seq<int>)
    ensures a == b || LexLess(a, b) || LexLess(b, a)
    ensures !(LexLess(a, b) && LexLess(b, a))
  {
    if a != [] && b != [] && a[0] == b[0] {
      LexTotal(a[1..], b[1..]);
      assert a == [a[0]] + a[1..] && b == [b[0]] + b[1..];
    }
  }

  lemma {:induction false} LexTransitive(a: seq<int>, b: seq<int>, c: seq<int>)
    requires LexLess(a, b) && LexLess(b, c)
    ensures LexLess(a, c)
  {
    if a != [] && a[0] == b[0] == c[0] {
      LexTransitive(a[1..], b[1..], c[1..]);
    }
  }

  /** A first code unit tells how long its character is, so text order is total. */
  lemma {:induction false} Utf16Injective(a: string, b: string)
    requires Utf16(a) == Utf16(b)
    ensures a == b
  {
    if a != [] && b != [] {
      var u, v := CharUnits(a[0]), CharUnits(b[0]);
      assert Utf16(a)[0] == u[0] && Utf16(b)[0] == v[0];
      assert |u| == |v|;
      assert u == Utf16(a)[..|u|] == Utf16(b)[..|v|] == v;
      SameUnits(a[0], b[0]);
      assert Utf16(a[1..]) == Utf16(a)[|u|..] == Utf16(b)[|v|..] == Utf16(b[1..]);
      Utf16Injective(a[1..], b[1..]);
      assert a == [a[0]] + a[1..] && b == [b[0]] + b[1..];
    }
  }

  lemma SameUnits(a: char, b: char)
    requires CharUnits(a) == CharUnits(b)
    ensures a == b
  {
    assert CharUnits(a)[0] == CharUnits(b)[0];
    if |CharUnits(a)| == 2 {
      assert CharUnits(a)[1] == CharUnits(b)[1];
    }
    assert a as int == b as int;
  }

  ghost predicate IsLeast(n: string, s: set<string>) {
    n in s && forall m :: m in s && m != n ==> Less(n, m)
  }

  lemma {:induction false} LeastExists(s: set<string>) returns (n: string)
    requires s != {}
    ensures IsLeast(n, s)
  {
    var m :| m in s;
    if s == {m} {
      return m;
    }
    n := LeastExists(s - {m});
    LessOrder(n, m);
    if Less(m, n) {
      forall k | k in s && k != m ensures Less(m, k) {
        if k != n {
          assert k in s - {m};
          LexTransitive(Utf16(m), Utf16(n), Utf16(k));
        }
      }
      return m;
    }
  }

  lemma LessOrder(a: string, b: string)
    ensures a == b || Less(a, b) || Less(b, a)
    ensures !(Less(a, b) && Less(b, a))
  {
    LexTotal(Utf16(a), Utf16(b));
    if Utf16(a) == Utf16(b) {
      Utf16Injective(a, b);
    }
  }

  lemma LeastUnique(a: string, b: string, s: set<string>)
    requires IsLeast(a, s) && IsLeast(b, s)
    ensures a == b
  {
    LessOrder(a, b);
  }

  ghost function Least(s: set<string>): (n: string)
    requires s != {}
    ensures IsLeast(n, s)
  {
    assert exists n :: IsLeast(n, s) by {
      var n := LeastExists(s);
    }
    var n :| IsLeast(n, s);
    n
  }

  /** Member names in ascending UTF-16 order. */
  ghost function SortedNames(s: set<string>): seq<string> {
    if s == {} then [] else [Least(s)] + SortedNames(s - {Least(s)})
  }

  lemma {:induction false} SortedNamesElements(s: set<string>)
    ensures forall n :: n in SortedNames(s) <==> n in s
    ensures forall i, j :: 0 <= i < j < |SortedNames(s)| ==> SortedNames(s)[i] != SortedNames(s)[j]
  {
    if s != {} {
      SortedNamesElements(s - {Least(s)});
    }
  }

  lemma {:induction false} SortedNamesAscend(s: set<string>)
    ensures forall i, j :: 0 <= i < j < |SortedNames(s)| ==> Less(SortedNames(s)[i], SortedNames(s)[j])
  {
    if s != {} {
      hide Less;
      var n, rest := Least(s), SortedNames(s - {Least(s)});
      SortedNamesAscend(s - {n});
      SortedNamesElements(s - {n});
      assert SortedNames(s) == [n] + rest;
      forall i, j | 0 <= i < j < |SortedNames(s)| ensures Less(SortedNames(s)[i], SortedNames(s)[j]) {
        if i == 0 {
          assert rest[j - 1] in rest;
        }
      }
    }
  }

  /** Names that differ first in a and b go by code point, but astral characters before U+E000 to U+FFFF. */
  lemma OrderByFirstDifference(a: char, s: string, b: char, t: string)
    requires a != b
    ensures var m, n := a as int, b as int;
            Less([a] + s, [b] + t) <==>
              if (m >= 0x10000) == (n >= 0x10000) then m < n
              else if m >= 0x10000 then n >= 0xE000 else m < 0xD800
  {
    var x, y := [a] + s, [b] + t;
    assert x[1..] == s && y[1..] == t;
    FirstUnits(CharUnits(a), Utf16(s), CharUnits(b), Utf16(t));
    SurrogateOrder(a, b);
  }

  lemma FirstUnits(a: seq<int>, s: seq<int>, b: seq<int>, t: seq<int>)
    requires 1 <= |a| <= 2 && 1 <= |b| <= 2 && (a[0] == b[0] ==> |a| == |b| == 2 && a[1] != b[1])
    ensures LexLess(a + s, b + t) <==> a[0] < b[0] || (a[0] == b[0] && a[1] < b[1])
  {
    var x, y := a + s, b + t;
    assert x[0] == a[0] && y[0] == b[0];
    if a[0] == b[0] {
      assert x[1..][0] == a[1] && y[1..][0] == b[1];
    }
  }

  lemma SurrogateOrder(a: char, b: char)
    requires a != b
    ensures var x, y := CharUnits(a), CharUnits(b);
            && (x[0] == y[0] ==> |x| == |y| == 2 && x[1] != y[1])
            && (x[0] < y[0] || (x[0] == y[0] && |x| == |y| == 2 && x[1] < y[1]) <==>
                  var m, n := a as int, b as int;
                  if (m >= 0x10000) == (n >= 0x10000) then m < n
                  else if m >= 0x10000 then n >= 0xE000 else m < 0xD800)
  {
  }

  lemma SortedNamesEmpty()
    ensures SortedNames({}) == []
  {
  }

  lemma SortedNamesStep(n: string, s: set<string>)
    requires IsLeast(n, s)
    ensures SortedNames(s) == [n] + SortedNames(s - {n})
  {
    LeastUnique(n, Least(s), s);
  }

  method LeastName(s: set<string>) returns (n: string)
    requires s != {}
    ensures IsLeast(n, s)
  {
    n :| n in s;
    var todo := s - {n};
    while todo != {}
      invariant n in s && n !in todo && todo <= s
      invariant forall m :: m in s && m !in todo && m != n ==> Less(n, m)
      decreases |todo|
    {
      var m :| m in todo;
      LessOrder(m, n);
      if Less(m, n) {
        forall k | k in s && k !in todo && k != n ensures Less(m, k) {
          LexTransitive(Utf16(m), Utf16(n), Utf16(k));
        }
        n := m;
      }
      todo := todo - {m};
    }
  }

  /** Every name once, in strictly ascending order. */
  method SortNames(s: set<string>) returns (names: seq<string>)
    ensures names == SortedNames(s)
    ensures forall n :: n in names <==> n in s
    ensures forall i, j :: 0 <= i < j < |names| ==> Less(names[i], names[j])
  {
    SortedNamesElements(s);
    SortedNamesAscend(s);
    hide IsLeast, SortedNames, Less;
    SortedNamesEmpty();
    names := [];
    var rest := s;
    while rest != {}
      invariant names + SortedNames(rest) == SortedNames(s)
      decreases |rest|
    {
      var n := LeastName(rest);
      SortedNamesStep(n, rest);
      names := names + [n];
      rest := rest - {n};
    }
  }

  // -------------------------------------------------------------- JSON Pointer

  function ReplaceChar(s: string, c: char, sub: string): string {
    if s == [] then [] else (if s[0] == c then sub else [s[0]]) + ReplaceChar(s[1..], c, sub)
  }

  function ReplacePair(s: string, a: char, b: char, sub: char): string {
    if s == [] then []
    else if |s| >= 2 && s[0] == a && s[1] == b then [sub] + ReplacePair(s[2..], a, b, sub)
    else [s[0]] + ReplacePair(s[1..], a, b, sub)
  }

  /** Section 3 of RFC 6901: ~ becomes ~0, then / becomes ~1. */
  function EscapeToken(name: string): string {
    ReplaceChar(ReplaceChar(name, '~', "~0"), '/', "~1")
  }

  /** Section 4 of RFC 6901: ~1 becomes /, then ~0 becomes ~. */
  function UnescapeToken(token: string): string {
    ReplacePair(ReplacePair(token, '~', '1', '/'), '~', '0', '~')
  }

  function EscapedChar(c: char): string {
    if c == '~' then "~0" else if c == '/' then "~1" else [c]
  }

  lemma EscapeTokenStep(name: string)
    requires name != []
    ensures EscapeToken(name) == EscapedChar(name[0]) + EscapeToken(name[1..])
  {
    var first := if name[0] == '~' then "~0" else [name[0]];
    var rest := ReplaceChar(name[1..], '~', "~0");
    if name[0] == '~' {
      assert (first + rest)[1..] == "0" + rest;
      assert ("0" + rest)[1..] == rest;
      assert ReplaceChar("0" + rest, '/', "~1") == "0" + ReplaceChar(rest, '/', "~1");
    } else {
      assert (first + rest)[1..] == rest;
    }
  }

  lemma {:induction false} UnescapeOnce(name: string)
    ensures ReplacePair(EscapeToken(name), '~', '1', '/') == ReplaceChar(name, '~', "~0")
  {
    if name != [] {
      EscapeTokenStep(name);
      UnescapeOnce(name[1..]);
      PairStep(name[0], EscapeToken(name[1..]));
    }
  }

  lemma PairStep(c: char, rest: string)
    ensures ReplacePair(EscapedChar(c) + rest, '~', '1', '/') ==
              (if c == '~' then "~0" else [c]) + ReplacePair(rest, '~', '1', '/')
  {
    var s := EscapedChar(c) + rest;
    if c == '~' {
      assert s[1..] == "0" + rest && ("0" + rest)[1..] == rest;
    } else if c == '/' {
      assert s[2..] == rest;
    } else {
      assert s[1..] == rest;
    }
  }

  lemma {:induction false} UnescapeTwice(name: string)
    ensures ReplacePair(ReplaceChar(name, '~', "~0"), '~', '0', '~') == name
  {
    if name != [] {
      UnescapeTwice(name[1..]);
      var rest := ReplaceChar(name[1..], '~', "~0");
      if name[0] == '~' {
        assert ("~0" + rest)[2..] == rest;
      } else {
        assert ([name[0]] + rest)[1..] == rest;
      }
      assert name == [name[0]] + name[1..];
    }
  }

  lemma UnescapeInverts(name: string)
    ensures UnescapeToken(EscapeToken(name)) == name
  {
    UnescapeOnce(name);
    UnescapeTwice(name);
  }

  lemma {:induction false} EscapeHasNoSlash(name: string)
    ensures '/' !in EscapeToken(name)
  {
    if name != [] {
      EscapeTokenStep(name);
      EscapeHasNoSlash(name[1..]);
    }
  }

  /** Section 3 of RFC 6901: ~ is written ~0 and / is written ~1, character by character. */
  lemma EscapeByCharacter(c: char, rest: string)
    ensures EscapeToken([c] + rest) == (if c == '~' then "~0" else if c == '/' then "~1" else [c]) + EscapeToken(rest)
    ensures EscapeToken("") == ""
  {
    EscapeTokenStep([c] + rest);
    assert ([c] + rest)[1..] == rest;
  }

  function Pointer(path: seq<string>): string {
    if path == [] then [] else "/" + EscapeToken(path[0]) + Pointer(path[1..])
  }

  function NextSlash(s: string, from: nat): (i: nat)
    requires from <= |s|
    ensures from <= i <= |s|
    decreases |s| - from
  {
    if from == |s| || s[from] == '/' then from else NextSlash(s, from + 1)
  }

  function ParsePointer(s: string): Option<seq<string>>
    decreases |s|
  {
    if s == [] then Some([])
    else if s[0] != '/' then None
    else
      var end := NextSlash(s, 1);
      var rest := ParsePointer(s[end..]);
      if rest.None? then None else Some([UnescapeToken(s[1..end])] + rest.value)
  }

  lemma {:induction false} NextSlashAt(s: string, from: nat, at: nat)
    requires from <= at <= |s| && (at == |s| || s[at] == '/')
    requires forall i :: from <= i < at ==> s[i] != '/'
    ensures NextSlash(s, from) == at
    decreases at - from
  {
    if from < at {
      NextSlashAt(s, from + 1, at);
    }
  }

  lemma SlashSplit(token: string, rest: string)
    requires (forall i :: 0 <= i < |token| ==> token[i] != '/') && (rest == [] || rest[0] == '/')
    ensures var s := "/" + token + rest;
            var end := NextSlash(s, 1);
            s != [] && s[0] == '/' && s[1..end] == token && s[end..] == rest
  {
    var s := "/" + token + rest;
    var end := 1 + |token|;
    assert forall i :: 1 <= i < end ==> s[i] == token[i - 1];
    assert end < |s| ==> s[end] == rest[0];
    NextSlashAt(s, 1, end);
    assert s[1..end] == token && s[end..] == rest;
  }

  lemma PointerStart(path: seq<string>)
    ensures Pointer(path) == [] || Pointer(path)[0] == '/'
  {
  }

  /** A pointer reads back as the tokens it was written from. */
  lemma {:induction false} PointerRoundTrip(path: seq<string>)
    ensures ParsePointer(Pointer(path)) == Some(path)
  {
    if path != [] {
      var token, rest := EscapeToken(path[0]), Pointer(path[1..]);
      EscapeHasNoSlash(path[0]);
      UnescapeInverts(path[0]);
      PointerRoundTrip(path[1..]);
      PointerStart(path[1..]);
      hide EscapeToken, UnescapeToken, NextSlash;
      SlashSplit(token, rest);
      assert Pointer(path) == "/" + token + rest;
      assert path == [path[0]] + path[1..];
    }
  }

  // ------------------------------------------------------------- array indices

  function DigitChar(n: nat): char
    requires n < 10
  {
    ('0' as int + n) as char
  }

  function PrintIndex(n: nat): string {
    if n < 10 then [DigitChar(n)] else PrintIndex(n / 10) + [DigitChar(n % 10)]
  }

  /** Digits as a number, or nothing. */
  function ParseDigits(t: string): Option<nat> {
    if t == [] then Some(0)
    else
      var front := ParseDigits(t[..|t| - 1]);
      var c := t[|t| - 1];
      if front.None? || !('0' <= c <= '9') then None
      else Some(front.value * 10 + (c as int - '0' as int))
  }

  /** An array index token: digits without a leading zero. */
  function ParseIndex(t: string): Option<nat> {
    if t == [] || (|t| > 1 && t[0] == '0') then None else ParseDigits(t)
  }

  lemma {:induction false} IndexRoundTrip(n: nat)
    ensures ParseIndex(PrintIndex(n)) == Some(n)
    ensures PrintIndex(n) != [] && (PrintIndex(n)[0] == '0' <==> n == 0)
  {
    if n >= 10 {
      IndexRoundTrip(n / 10);
      assert PrintIndex(n)[..|PrintIndex(n)| - 1] == PrintIndex(n / 10);
    } else {
      var t := PrintIndex(n);
      assert t[..|t| - 1] == [] && t[|t| - 1] as int == '0' as int + n;
      assert ParseDigits(t[..|t| - 1]) == Some(0);
      assert ParseDigits(t) == Some(n);
    }
  }

  // ---------------------------------------------------------- reading, writing

  /** The value a pointer's tokens name in a document. */
  function Lookup(doc: Json, path: seq<string>): Option<Json>
    decreases path
  {
    if path == [] then Some(doc)
    else match doc
      case Arr(items) =>
        var i := ParseIndex(path[0]);
        if i.None? || i.value >= |items| then None else Lookup(items[i.value], path[1..])
      case Obj(members) =>
        if path[0] !in members then None else Lookup(members[path[0]], path[1..])
      case _ => None
  }

  /** Replace, add or (with no value) remove what a pointer names. */
  function Put(doc: Json, path: seq<string>, v: Option<Json>): Json
    decreases path
  {
    if path == [] then (if v.None? then doc else v.value)
    else match doc
      case Arr(items) =>
        var i := ParseIndex(path[0]);
        if i.None? || i.value >= |items| then doc
        else Arr(items[i.value := Put(items[i.value], path[1..], v)])
      case Obj(members) =>
        if |path| == 1 then Obj(if v.None? then members - {path[0]} else members[path[0] := v.value])
        else if path[0] !in members then doc
        else Obj(members[path[0] := Put(members[path[0]], path[1..], v)])
      case _ => doc
  }
}
