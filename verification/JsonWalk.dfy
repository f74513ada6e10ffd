/** The walk itself: one shared pointer buffer, a bounded entry list and an uncut count. */
module JsonWalk {
  import opened Base
  import opened Utf8
  import opened Clamp
  import opened Preview
  import opened Json
  import opened JsonDiff

  const MAX_ENTRIES := 64

  // ------------------------------------------------------------ pointer bytes

  function ThreeBytes(n: int): (e: seq<byte>)
    requires 0x800 <= n < 0x10000 && !(0xD800 <= n < 0xE000)
    ensures IsChar(e)
  {
    var high, mid, low := n / 4096, n / 64 % 64, n % 64;
    assert n == high * 4096 + mid * 64 + low;
    [0xE0 + high, 0x80 + mid, 0x80 + low]
  }

  function FourBytes(n: int): (e: seq<byte>)
    requires 0x10000 <= n < 0x110000
    ensures IsChar(e)
  {
    var top, high, mid, low := n / 4096 / 64, n / 4096 % 64, n / 64 % 64, n % 64;
    LeadingBits(n / 4096);
    [0xF0 + top, 0x80 + high, 0x80 + mid, 0x80 + low]
  }

  lemma LeadingBits(k: int)
    requires 16 <= k < 272
    ensures 0 <= k / 64 <= 4 && (k / 64 == 0 ==> k % 64 >= 16) && (k / 64 == 4 ==> k % 64 < 16)
  {
  }

  /** UTF-8 of one Unicode scalar. */
  function EncodeChar(c: char): (e: seq<byte>)
    ensures IsChar(e)
  {
    var n := c as int;
    if n < 0x80 then [n]
    else if n < 0x800 then [0xC0 + n / 64, 0x80 + n % 64]
    else if n < 0x10000 then ThreeBytes(n)
    else FourBytes(n)
  }

  function CodePoints(s: string): Token {
    if s == [] then [] else [EncodeChar(s[0])] + CodePoints(s[1..])
  }

  function Tokens(path: seq<string>): seq<Token> {
    if path == [] then [] else [CodePoints(EscapeToken(path[0]))] + Tokens(path[1..])
  }

  /** A slash and the escaped token, as appended to the buffer. */
  function Piece(token: string): seq<byte> {
    [47] + Flatten(CodePoints(EscapeToken(token)))
  }

  function PointerBytes(path: seq<string>): seq<byte> {
    PointerText(Tokens(path))
  }

  lemma PointerBytesStep(token: string, path: seq<string>)
    ensures PointerBytes([token] + path) == Piece(token) + PointerBytes(path)
  {
    assert ([token] + path)[1..] == path;
    assert Tokens([token] + path)[1..] == Tokens(path);
  }

  /** The buffer holds the UTF-8 of the pointer's text. */
  lemma {:induction false} PointerBytesAreUtf8(path: seq<string>)
    ensures PointerBytes(path) == Flatten(CodePoints(Pointer(path)))
  {
    hide EscapeToken, EncodeChar;
    if path != [] {
      var token, rest := EscapeToken(path[0]), Pointer(path[1..]);
      PointerBytesAreUtf8(path[1..]);
      CodePointsAppend("/" + token, rest);
      CodePointsAppend("/", token);
      SlashBytes();
      assert Tokens(path)[1..] == Tokens(path[1..]);
      FlattenAppend(CodePoints("/"), CodePoints(token));
      FlattenAppend(CodePoints("/" + token), CodePoints(rest));
    }
  }

  lemma SlashBytes()
    ensures Flatten(CodePoints("/")) == [47]
  {
    assert CodePoints("/") == [EncodeChar('/')] + CodePoints("");
    assert Flatten([EncodeChar('/')]) == EncodeChar('/') + [];
  }

  lemma {:induction false} CodePointsAppend(a: string, b: string)
    ensures CodePoints(a + b) == CodePoints(a) + CodePoints(b)
  {
    hide EncodeChar;
    if a == [] {
      assert a + b == b;
    } else {
      CodePointsAppend(a[1..], b);
      assert (a + b)[1..] == a[1..] + b;
    }
  }

  // -------------------------------------------------------- reading text back

  function Octet(b: byte): int { b }

  function Scalar(c: seq<byte>): int
    requires IsChar(c)
  {
    if |c| == 1 then Octet(c[0])
    else if |c| == 2 then (Octet(c[0]) - 0xC0) * 64 + Octet(c[1]) - 0x80
    else if |c| == 3 then (Octet(c[0]) - 0xE0) * 4096 + (Octet(c[1]) - 0x80) * 64 + Octet(c[2]) - 0x80
    else (Octet(c[0]) - 0xF0) * 262144 + (Octet(c[1]) - 0x80) * 4096 + (Octet(c[2]) - 0x80) * 64 + Octet(c[3]) - 0x80
  }

  lemma ScalarOfChar(c: char)
    ensures Scalar(EncodeChar(c)) == c as int
  {
    var n := c as int;
    hide IsChar;
    if 0x800 <= n < 0x10000 {
      ThreeParts(n);
    } else if n >= 0x10000 {
      FourParts(n);
    }
  }

  lemma ThreeParts(n: nat)
    ensures n / 4096 * 4096 + n / 64 % 64 * 64 + n % 64 == n
  {
    assert n / 64 / 64 == n / 4096;
  }

  lemma FourParts(n: nat)
    ensures n / 4096 / 64 * 262144 + n / 4096 % 64 * 4096 + n / 64 % 64 * 64 + n % 64 == n
  {
    ThreeParts(n);
  }

  /** The string a UTF-8 text spells; None when it is ill-formed. */
  function Decoded(s: seq<byte>): Option<string>
    decreases |s|
  {
    if s == [] then Some("")
    else if CharLen(s) == 0 then None
    else
      var n, rest := Scalar(s[..CharLen(s)]), Decoded(s[CharLen(s)..]);
      if rest.None? || !(0 <= n < 0xD800 || 0xE000 <= n < 0x110000) then None else Some([n as char] + rest.value)
  }

  lemma {:induction false} DecodedText(s: string)
    ensures Decoded(Flatten(CodePoints(s))) == Some(s)
  {
    hide IsChar, EncodeChar, Scalar;
    if s != [] {
      var head, rest := EncodeChar(s[0]), Flatten(CodePoints(s[1..]));
      DecodedText(s[1..]);
      CharShape(head);
      CharLenOfChar(head, rest);
      ScalarOfChar(s[0]);
      assert CodePoints(s)[1..] == CodePoints(s[1..]);
      assert (head + rest)[..|head|] == head && (head + rest)[|head|..] == rest;
      assert Flatten(CodePoints(s)) == head + rest;
      assert s == [s[0]] + s[1..];
    }
  }

  // ---------------------------------------------------------- what is recorded

  datatype LogEntry = LogEntry(path: seq<byte>, cached: Option<Json>, source: Option<Json>)

  function Copied(pointer: seq<byte>): seq<byte> {
    if |pointer| <= COPIED_MAX then pointer else pointer[..COPIED_MAX]
  }

  function Recorded(base: seq<byte>, e: Entry): LogEntry {
    LogEntry(Copied(base + PointerBytes(e.path)), e.cached, e.source)
  }

  /** Entries as recorded below a pair whose own pointer is `base`. */
  function Logged(base: seq<byte>, es: seq<Entry>): (out: seq<LogEntry>)
    ensures |out| == |es|
  {
    seq(|es|, i requires 0 <= i < |es| => Recorded(base, es[i]))
  }

  function Cut(all: seq<LogEntry>): seq<LogEntry> {
    if |all| <= MAX_ENTRIES then all else all[..MAX_ENTRIES]
  }

  lemma LoggedConcat(base: seq<byte>, a: seq<Entry>, b: seq<Entry>)
    ensures Logged(base, a + b) == Logged(base, a) + Logged(base, b)
  {
    hide Recorded;
  }

  lemma LoggedUnder(base: seq<byte>, token: string, es: seq<Entry>)
    ensures Logged(base, Under(token, es)) == Logged(base + Piece(token), es)
  {
    hide PointerBytes, Copied, Piece;
    var out := Under(token, es);
    forall i | 0 <= i < |es| ensures Recorded(base, out[i]) == Recorded(base + Piece(token), es[i]) {
      PointerBytesStep(token, es[i].path);
      assert base + (Piece(token) + PointerBytes(es[i].path)) == base + Piece(token) + PointerBytes(es[i].path);
    }
    hide Recorded;
  }

  lemma CutAbsorbs(a: seq<LogEntry>, b: seq<LogEntry>, c: seq<LogEntry>)
    ensures Cut(Cut(a + b) + c) == Cut(a + (b + c))
  {
    assert a + (b + c) == a + b + c;
  }

  // ---------------------------------------------------------------- the walker

  class Walker {
    var pointer: seq<byte>
    var entries: seq<LogEntry>
    var count: nat

    constructor ()
      ensures pointer == [] && entries == [] && count == 0
    {
      pointer, entries, count := [], [], 0;
    }

    method Report(cached: Option<Json>, source: Option<Json>)
      requires |entries| <= MAX_ENTRIES
      modifies this
      ensures pointer == old(pointer) && count == old(count) + 1
      ensures entries == Cut(old(entries) + Logged(old(pointer), [Entry([], cached, source)]))
    {
      count := count + 1;
      var e := Entry([], cached, source);
      assert pointer + PointerBytes(e.path) == pointer;
      assert [e][1..] == [];
      assert Logged(pointer, [e]) == [LogEntry(Copied(pointer), cached, source)];
      if |entries| < MAX_ENTRIES {
        var kept := if |pointer| < COPIED_MAX then |pointer| else COPIED_MAX;
        entries := entries + [LogEntry(pointer[..kept], cached, source)];
      }
    }

    /** Report a member that only one side has, at the pointer already in the buffer. */
    method ReportMember(ghost base: seq<byte>, ghost name: string, cached: Option<Json>, source: Option<Json>)
      requires |entries| <= MAX_ENTRIES && pointer == base + Piece(name)
      modifies this
      ensures pointer == old(pointer) && count == old(count) + 1
      ensures entries == Cut(old(entries) + Logged(base, [Entry([name], cached, source)]))
    {
      hide Piece, Copied, PointerBytes;
      Report(cached, source);
      var e := Entry([], cached, source);
      assert [name] + [] == [name] && [e][1..] == [];
      assert Under(name, [e]) == [Entry([name], cached, source)];
      LoggedUnder(base, name, [e]);
    }

    /** Records exactly the differences of the pair and restores the pointer buffer. */
    method Walk(left: Json, right: Json, depth: nat)
      requires |entries| <= MAX_ENTRIES
      modifies this
      ensures pointer == old(pointer)
      ensures count == old(count) + |Diff(left, right, depth)|
      ensures entries == Cut(old(entries) + Logged(old(pointer), Diff(left, right, depth)))
      decreases left, 1
    {
      hide Logged;
      var kind := KindOf(left);
      assert old(entries) + Logged(old(pointer), []) == old(entries) by { LoggedEmpty(pointer); }
      if kind != KindOf(right) {
        Report(Some(left), Some(right));
        return;
      }
      if kind.Primitive? {
        if left != right {
          Report(Some(left), Some(right));
        }
        return;
      }
      if depth >= MAX_DEPTH {
        if left != right {
          Report(Some(left), Some(right));
        }
        return;
      }
      if kind.Array? {
        if |left.items| != |right.items| {
          Report(Some(left), Some(right));
          return;
        }
        WalkItems(left, right, depth);
        return;
      }
      WalkMembers(left, right, depth);
    }

    method WalkItems(left: Json, right: Json, depth: nat)
      requires left.Arr? && right.Arr? && |left.items| == |right.items|
      requires |entries| <= MAX_ENTRIES
      modifies this
      ensures pointer == old(pointer)
      ensures count == old(count) + |DiffItems(left, right, depth, 0)|
      ensures entries == Cut(old(entries) + Logged(old(pointer), DiffItems(left, right, depth, 0)))
      decreases left, 0
    {
      hide Logged, Piece, PrintIndex, Diff, Cut;
      var parent := |pointer|;
      ghost var base, start, all := pointer, entries, DiffItems(left, right, depth, 0);
      CutLength(entries, [], entries);
      for i := 0 to |left.items|
        invariant parent <= |pointer| && pointer[..parent] == base
        invariant |entries| <= MAX_ENTRIES
        invariant count + |DiffItems(left, right, depth, i)| == old(count) + |all|
        invariant Cut(entries + Logged(base, DiffItems(left, right, depth, i))) == Cut(start + Logged(base, all))
      {
        var token := PrintIndex(i);
        ghost var sub := Diff(left.items[i], right.items[i], depth + 1);
        ghost var rest := DiffItems(left, right, depth, i + 1);
        ghost var before := entries;
        pointer := pointer[..parent] + Piece(token);
        Walk(left.items[i], right.items[i], depth + 1);
        LoggedUnder(base, token, sub);
        LoggedConcat(base, Under(token, sub), rest);
        CutAbsorbs(before, Logged(base, Under(token, sub)), Logged(base, rest));
        CutLength(entries, before, Logged(base, Under(token, sub)));
      }
      CutLength(entries, [], entries);
      LoggedEmpty(base);
      assert entries + [] == entries;
      pointer := pointer[..parent];
    }

    method WalkMembers(left: Json, right: Json, depth: nat)
      requires left.Obj? && right.Obj?
      requires |entries| <= MAX_ENTRIES
      modifies this
      ensures pointer == old(pointer)
      ensures var names := SortedNames(left.members.Keys + right.members.Keys);
              && count == old(count) + |DiffMembers(left, right, depth, names)|
              && entries == Cut(old(entries) + Logged(old(pointer), DiffMembers(left, right, depth, names)))
      decreases left, 0
    {
      hide Logged, Piece, Diff, Cut, DiffMember, SortedNames;
      var parent := |pointer|;
      var names := SortNames(left.members.Keys + right.members.Keys);
      SortedNamesElements(left.members.Keys + right.members.Keys);
      ghost var base, start, all := pointer, entries, DiffMembers(left, right, depth, names);
      CutLength(entries, [], entries);
      assert names[0..] == names;
      for i := 0 to |names|
        invariant parent <= |pointer| && pointer[..parent] == base
        invariant |entries| <= MAX_ENTRIES
        invariant count + |DiffMembers(left, right, depth, names[i..])| == old(count) + |all|
        invariant Cut(entries + Logged(base, DiffMembers(left, right, depth, names[i..])))
                  == Cut(start + Logged(base, all))
      {
        var name := names[i];
        assert name in names;
        assert names[i..][1..] == names[i + 1..];
        ghost var sub, rest := DiffMember(left, right, depth, name), DiffMembers(left, right, depth, names[i + 1..]);
        ghost var before := entries;
        pointer := pointer[..parent] + Piece(name);
        WalkMember(left, right, depth, name, base);
        LoggedConcat(base, sub, rest);
        CutAbsorbs(before, Logged(base, sub), Logged(base, rest));
        CutLength(entries, before, Logged(base, sub));
      }
      assert names[|names|..] == [];
      CutLength(entries, [], entries);
      LoggedEmpty(base);
      assert entries + [] == entries;
      pointer := pointer[..parent];
    }

    method WalkMember(left: Json, right: Json, depth: nat, name: string, ghost base: seq<byte>)
      requires left.Obj? && right.Obj? && (name in left.members || name in right.members)
      requires |entries| <= MAX_ENTRIES && pointer == base + Piece(name)
      modifies this
      ensures pointer == old(pointer)
      ensures count == old(count) + |DiffMember(left, right, depth, name)|
      ensures entries == Cut(old(entries) + Logged(base, DiffMember(left, right, depth, name)))
      decreases left, 0, 0
    {
      hide Logged, Piece, Diff, Cut;
      if name !in right.members {
        ReportMember(base, name, Some(left.members[name]), None);
      } else if name !in left.members {
        ReportMember(base, name, None, Some(right.members[name]));
      } else {
        Walk(left.members[name], right.members[name], depth + 1);
        LoggedUnder(base, name, Diff(left.members[name], right.members[name], depth + 1));
      }
    }
  }

  lemma LoggedEmpty(base: seq<byte>)
    ensures Logged(base, []) == []
  {
  }

  lemma CutLength(es: seq<LogEntry>, a: seq<LogEntry>, b: seq<LogEntry>)
    requires es == Cut(a + b) || es == a + b
    ensures |Cut(a + b)| <= MAX_ENTRIES
    ensures |es| <= MAX_ENTRIES ==> Cut(es) == es
  {
  }

  // --------------------------------------------- the entries rebuild the source

  /** Entries as pointer text and source side; an entry whose path is no text is left out. */
  function AsText(es: seq<LogEntry>): seq<(string, Option<Json>)>
    decreases |es|
  {
    if es == [] then []
    else (if Decoded(es[0].path).Some? then [(Decoded(es[0].path).value, es[0].source)] else []) + AsText(es[1..])
  }

  /** Every pointer fits the copied prefix. */
  predicate Uncut(es: seq<Entry>)
    decreases |es|
  {
    es == [] || (|PointerBytes(es[0].path)| <= COPIED_MAX && Uncut(es[1..]))
  }

  lemma {:induction false} UncutText(es: seq<Entry>)
    requires Uncut(es)
    ensures AsText(Logged([], es)) == AsPointers(es)
    decreases |es|
  {
    hide PointerBytes, Decoded, Pointer;
    if es != [] {
      UncutText(es[1..]);
      PointerBytesAreUtf8(es[0].path);
      DecodedText(Pointer(es[0].path));
      assert [] + PointerBytes(es[0].path) == PointerBytes(es[0].path);
      assert Logged([], es)[1..] == Logged([], es[1..]);
    }
  }

  /** A recorded path shorter than the copy limit was not cut. */
  lemma {:induction false} ShortPathsUncut(es: seq<Entry>)
    requires forall i :: 0 <= i < |es| ==> |Logged([], es)[i].path| < COPIED_MAX
    ensures Uncut(es)
    decreases |es|
  {
    hide PointerBytes;
    if es != [] {
      var rest := Logged([], es[1..]);
      assert Logged([], es)[0].path == Copied([] + PointerBytes(es[0].path));
      assert [] + PointerBytes(es[0].path) == PointerBytes(es[0].path);
      forall i | 0 <= i < |es[1..]| ensures |rest[i].path| < COPIED_MAX {
        assert rest[i] == Logged([], es)[i + 1];
      }
      ShortPathsUncut(es[1..]);
    }
  }

  /** When nothing was cut, the recorded bytes and source sides rebuild the source value. */
  lemma LoggedEntriesRebuild(cached: Json, source: Json)
    requires |Diff(cached, source, 0)| <= MAX_ENTRIES && Uncut(Diff(cached, source, 0))
    ensures PatchByPointer(cached, AsText(Cut(Logged([], Diff(cached, source, 0))))) == source
  {
    UncutText(Diff(cached, source, 0));
    DiffPatch(cached, source);
    hide Diff, AsText, PatchByPointer, Logged;
  }

  /** A recorded entry: both sides of the difference and its pointer's bytes, at most 516 of them. */
  predicate RecordsOf(logged: LogEntry, e: Entry) {
    var whole := PointerBytes(e.path);
    && logged.cached == e.cached && logged.source == e.source
    && logged.path == if |whole| <= 516 then whole else whole[..516]
  }

  lemma LoggedAt(es: seq<Entry>, i: nat)
    requires i < |es|
    ensures RecordsOf(Logged([], es)[i], es[i])
  {
    hide PointerBytes;
    assert [] + PointerBytes(es[i].path) == PointerBytes(es[i].path);
  }

  /**
   * The built-in computation: the first 64 differences and the uncut total. A result with at most 64
   * differences and no path at the copy limit is a patch from the cached value to the source.
   */
  method WalkJson(cached: Json, source: Json) returns (entries: seq<LogEntry>, count: nat)
    ensures count == |Diff(cached, source, 0)|
    ensures |entries| == (if count < 64 then count else 64)
    ensures entries == Cut(Logged([], Diff(cached, source, 0)))
    ensures forall i :: 0 <= i < |entries| ==> RecordsOf(entries[i], Diff(cached, source, 0)[i])
    ensures count <= 64 && (forall i :: 0 <= i < |entries| ==> |entries[i].path| < 516) ==>
              PatchByPointer(cached, AsText(entries)) == source
  {
    hide Diff, AsText, PatchByPointer;
    var walker := new Walker();
    walker.Walk(cached, source, 0);
    assert [] + Logged([], Diff(cached, source, 0)) == Logged([], Diff(cached, source, 0));
    entries, count := walker.entries, walker.count;
    forall i | 0 <= i < |entries| ensures RecordsOf(entries[i], Diff(cached, source, 0)[i]) {
      LoggedAt(Diff(cached, source, 0), i);
    }
    hide Logged, Uncut;
    if count <= MAX_ENTRIES && (forall i :: 0 <= i < |entries| ==> |entries[i].path| < COPIED_MAX) {
      ShortPathsUncut(Diff(cached, source, 0));
      LoggedEntriesRebuild(cached, source);
    }
  }

  /** What a warning prints for an entry is the clamp of its whole pointer, in every port. */
  lemma LoggedPathsClampWhole(path: seq<string>)
    ensures var whole := PointerBytes(path);
            && WellFormed(whole)
            && Clamped(Repair(Copied(whole)), PATH_MAX) == Clamped(whole, PATH_MAX)
            && Clamped(PointerText(CutTokens(Tokens(path), PATH_MAX)), PATH_MAX) == Clamped(whole, PATH_MAX)
  {
    var whole := PointerBytes(path);
    CopiedIs(whole);
    hide WellFormed, Repair, Clamped, PointerText, CutTokens, Tokens, Copied;
    PointerTextWellFormed(Tokens(path));
    EarlyCutInvisible(whole, PATH_MAX);
    TokenCutInvisible(Tokens(path), PATH_MAX);
  }

  lemma CopiedIs(pointer: seq<byte>)
    ensures Copied(pointer) == pointer[..(if |pointer| < PATH_MAX + 4 then |pointer| else PATH_MAX + 4)]
  {
    assert pointer[..|pointer|] == pointer;
  }
}
