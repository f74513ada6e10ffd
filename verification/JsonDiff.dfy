/** The structural difference of two JSON values, as the walk defines it, and its patch law. */
module JsonDiff {
  import opened Base
  import opened Json

  const MAX_DEPTH := 32

  /** One difference: where, and each side that has a value there. */
  datatype Entry = Entry(path: seq<string>, cached: Option<Json>, source: Option<Json>)

  datatype Kind = Primitive | Array | Object

  function KindOf(j: Json): Kind {
    match j
    case Arr(_) => Array
    case Obj(_) => Object
    case _ => Primitive
  }

  function Whole(l: Json, r: Json): seq<Entry> {
    [Entry([], Some(l), Some(r))]
  }

  /** Entries of a child, moved below the token that names it. */
  function Under(token: string, es: seq<Entry>): (out: seq<Entry>)
    ensures |out| == |es|
    ensures forall i :: 0 <= i < |es| ==> out[i] == es[i].(path := [token] + es[i].path)
  {
    if es == [] then [] else [es[0].(path := [token] + es[0].path)] + Under(token, es[1..])
  }

  /** All differences in walk order, with paths relative to the compared pair. */
  ghost function Diff(l: Json, r: Json, depth: nat): seq<Entry>
    decreases l, 1, 0
  {
    if KindOf(l) != KindOf(r) then Whole(l, r)
    else if KindOf(l).Primitive? || depth >= MAX_DEPTH then (if l == r then [] else Whole(l, r))
    else if l.Arr? then
      if |l.items| != |r.items| then Whole(l, r) else DiffItems(l, r, depth, 0)
    else DiffMembers(l, r, depth, SortedNames(l.members.Keys + r.members.Keys))
  }

  ghost function DiffItems(l: Json, r: Json, depth: nat, i: nat): seq<Entry>
    requires l.Arr? && r.Arr? && |l.items| == |r.items| && i <= |l.items|
    decreases l, 0, |l.items| - i
  {
    if i == |l.items| then []
    else Under(PrintIndex(i), Diff(l.items[i], r.items[i], depth + 1)) + DiffItems(l, r, depth, i + 1)
  }

  ghost function DiffMember(l: Json, r: Json, depth: nat, n: string): seq<Entry>
    requires l.Obj? && r.Obj?
    decreases l, 0, 0
  {
    if n !in r.members then [Entry([n], if n in l.members then Some(l.members[n]) else None, None)]
    else if n !in l.members then [Entry([n], None, Some(r.members[n]))]
    else Under(n, Diff(l.members[n], r.members[n], depth + 1))
  }

  ghost function DiffMembers(l: Json, r: Json, depth: nat, names: seq<string>): seq<Entry>
    requires l.Obj? && r.Obj?
    decreases l, 0, |names| + 1
  {
    if names == [] then []
    else DiffMember(l, r, depth, names[0]) + DiffMembers(l, r, depth, names[1..])
  }

  // -------------------------------------------------------------------- patch

  /** Apply each entry's source side at its path, in order. */
  function Patch(doc: Json, es: seq<Entry>): Json
    decreases |es|
  {
    if es == [] then doc else Patch(Put(doc, es[0].path, es[0].source), es[1..])
  }

  lemma {:induction false} PatchConcat(doc: Json, a: seq<Entry>, b: seq<Entry>)
    ensures Patch(doc, a + b) == Patch(Patch(doc, a), b)
    decreases |a|
  {
    if a == [] {
      assert a + b == b;
    } else {
      PatchConcat(Put(doc, a[0].path, a[0].source), a[1..], b);
      assert (a + b)[1..] == a[1..] + b;
    }
  }

  /** An entry for a whole pair always carries its source side. */
  predicate RootsHaveSource(es: seq<Entry>) {
    forall i :: 0 <= i < |es| ==> es[i].path == [] ==> es[i].source.Some?
  }

  lemma {:induction false} PatchUnderMember(members: map<string, Json>, n: string, es: seq<Entry>)
    requires n in members && RootsHaveSource(es)
    ensures Patch(Obj(members), Under(n, es)) == Obj(members[n := Patch(members[n], es)])
    decreases |es|
  {
    if es == [] {
      assert members[n := members[n]] == members;
    } else {
      var v := Put(members[n], es[0].path, es[0].source);
      var path := [n] + es[0].path;
      assert path[1..] == es[0].path;
      assert Put(Obj(members), path, es[0].source) == Obj(members[n := v]);
      PatchUnderMember(members[n := v], n, es[1..]);
      assert Under(n, es)[1..] == Under(n, es[1..]);
      assert members[n := v][n := Patch(v, es[1..])] == members[n := Patch(v, es[1..])];
    }
  }

  lemma {:induction false} PatchUnderItem(items: seq<Json>, i: nat, es: seq<Entry>)
    requires i < |items| && RootsHaveSource(es)
    ensures Patch(Arr(items), Under(PrintIndex(i), es)) == Arr(items[i := Patch(items[i], es)])
    decreases |es|
  {
    if es == [] {
      assert items[i := items[i]] == items;
    } else {
      var v := Put(items[i], es[0].path, es[0].source);
      var path := [PrintIndex(i)] + es[0].path;
      assert path[1..] == es[0].path;
      IndexRoundTrip(i);
      assert Put(Arr(items), path, es[0].source) == Arr(items[i := v]);
      PatchUnderItem(items[i := v], i, es[1..]);
      assert Under(PrintIndex(i), es)[1..] == Under(PrintIndex(i), es[1..]);
      assert items[i := v][i := Patch(v, es[1..])] == items[i := Patch(v, es[1..])];
    }
  }

  /** Replaying the full difference on the cached value produces the source value. */
  lemma {:induction false} PatchYieldsSource(l: Json, r: Json, depth: nat)
    ensures Patch(l, Diff(l, r, depth)) == r
    ensures RootsHaveSource(Diff(l, r, depth))
    decreases l, 1, 0
  {
    var es := Diff(l, r, depth);
    if KindOf(l) != KindOf(r) || KindOf(l).Primitive? || depth >= MAX_DEPTH || (l.Arr? && |l.items| != |r.items|) {
      assert es == [] || es == Whole(l, r);
      assert es == Whole(l, r) ==> es[1..] == [];
    } else if l.Arr? {
      PatchItems(l, r, depth, 0, l.items);
    } else {
      var names := SortedNames(l.members.Keys + r.members.Keys);
      SortedNamesElements(l.members.Keys + r.members.Keys);
      PatchMembers(l, r, depth, names, l.members);
    }
  }

  lemma {:induction false} PatchItems(l: Json, r: Json, depth: nat, i: nat, cur: seq<Json>)
    requires l.Arr? && r.Arr? && |l.items| == |r.items| == |cur| && i <= |cur|
    requires cur[..i] == r.items[..i] && cur[i..] == l.items[i..]
    ensures Patch(Arr(cur), DiffItems(l, r, depth, i)) == r
    ensures RootsHaveSource(DiffItems(l, r, depth, i))
    decreases l, 0, |cur| - i
  {
    if i == |cur| {
      assert cur == cur[..i] && r.items == r.items[..i];
    } else {
      assert cur[i] == cur[i..][0] == l.items[i];
      PatchYieldsSource(l.items[i], r.items[i], depth + 1);
      var sub := Diff(l.items[i], r.items[i], depth + 1);
      PatchUnderItem(cur, i, sub);
      var next := cur[i := r.items[i]];
      assert next[..i + 1] == cur[..i] + [r.items[i]] == r.items[..i + 1];
      assert next[i + 1..] == cur[i..][1..] == l.items[i + 1..];
      PatchItems(l, r, depth, i + 1, next);
      PatchConcat(Arr(cur), Under(PrintIndex(i), sub), DiffItems(l, r, depth, i + 1));
    }
  }

  /** On `n`, the two member maps agree: both lack it or both hold the same value. */
  predicate SameMember(a: map<string, Json>, b: map<string, Json>, n: string) {
    (n in a <==> n in b) && (n in a ==> a[n] == b[n])
  }

  lemma {:induction false} PatchMembers(l: Json, r: Json, depth: nat, names: seq<string>, cur: map<string, Json>)
    requires l.Obj? && r.Obj?
    requires forall i, j :: 0 <= i < j < |names| ==> names[i] != names[j]
    requires forall n :: n in names ==> n in l.members || n in r.members
    requires forall n :: n in names ==> SameMember(cur, l.members, n)
    requires forall n :: n !in names ==> SameMember(cur, r.members, n)
    ensures Patch(Obj(cur), DiffMembers(l, r, depth, names)) == r
    ensures RootsHaveSource(DiffMembers(l, r, depth, names))
    decreases l, 0, |names| + 1
  {
    if names == [] {
      forall n ensures n in cur <==> n in r.members {
        assert SameMember(cur, r.members, n);
      }
      forall n | n in cur ensures cur[n] == r.members[n] {
        assert SameMember(cur, r.members, n);
      }
      assert cur == r.members;
    } else {
      var n := names[0];
      var next := if n in r.members then cur[n := r.members[n]] else cur - {n};
      PatchOneMember(l, r, depth, n, cur);
      assert forall m :: m in names <==> m == n || m in names[1..];
      forall m | m in names[1..] ensures SameMember(next, l.members, m) {
        assert m != n;
        assert SameMember(cur, l.members, m);
      }
      forall m | m !in names[1..] ensures SameMember(next, r.members, m) {
        if m != n {
          assert SameMember(cur, r.members, m);
        }
      }
      PatchMembers(l, r, depth, names[1..], next);
      PatchConcat(Obj(cur), DiffMember(l, r, depth, n), DiffMembers(l, r, depth, names[1..]));
    }
  }

  lemma {:induction false} PatchOneMember(l: Json, r: Json, depth: nat, n: string, cur: map<string, Json>)
    requires l.Obj? && r.Obj? && (n in l.members || n in r.members)
    requires SameMember(cur, l.members, n)
    ensures Patch(Obj(cur), DiffMember(l, r, depth, n)) ==
              Obj(if n in r.members then cur[n := r.members[n]] else cur - {n})
    ensures RootsHaveSource(DiffMember(l, r, depth, n))
    decreases l, 0, 0
  {
    var es := DiffMember(l, r, depth, n);
    if n in l.members && n in r.members {
      PatchYieldsSource(l.members[n], r.members[n], depth + 1);
      PatchUnderMember(cur, n, Diff(l.members[n], r.members[n], depth + 1));
    } else {
      assert es[1..] == [];
    }
  }

  // ------------------------------------------------------ what the entries say

  /** The walk reports nothing exactly when the two values are equal. */
  lemma {:induction false} NoEntriesIffEqual(l: Json, r: Json, depth: nat)
    ensures Diff(l, r, depth) == [] <==> l == r
    decreases l, 1, 0
  {
    PatchYieldsSource(l, r, depth);
    if l == r && depth < MAX_DEPTH {
      if l.Arr? {
        EqualItems(l, depth, 0);
      } else if l.Obj? {
        SortedNamesElements(l.members.Keys + r.members.Keys);
        EqualMembers(l, depth, SortedNames(l.members.Keys + r.members.Keys));
      }
    }
  }

  lemma {:induction false} EqualItems(l: Json, depth: nat, i: nat)
    requires l.Arr? && i <= |l.items|
    ensures DiffItems(l, l, depth, i) == []
    decreases l, 0, |l.items| - i
  {
    if i < |l.items| {
      NoEntriesIffEqual(l.items[i], l.items[i], depth + 1);
      EqualItems(l, depth, i + 1);
    }
  }

  lemma {:induction false} EqualMembers(l: Json, depth: nat, names: seq<string>)
    requires l.Obj?
    requires forall n :: n in names ==> n in l.members
    ensures DiffMembers(l, l, depth, names) == []
    decreases l, 0, |names| + 1
  {
    if names != [] {
      NoEntriesIffEqual(l.members[names[0]], l.members[names[0]], depth + 1);
      EqualMembers(l, depth, names[1..]);
    }
  }

  /** Neither path is the other, nor above it. */
  predicate Apart(p: seq<string>, q: seq<string>) {
    !(p <= q) && !(q <= p)
  }

  predicate AllApart(es: seq<Entry>) {
    forall i, j :: 0 <= i < j < |es| ==> Apart(es[i].path, es[j].path)
  }

  predicate StartsWith(es: seq<Entry>, token: string) {
    forall i :: 0 <= i < |es| ==> |es[i].path| > 0 && es[i].path[0] == token
  }

  predicate AvoidsStart(es: seq<Entry>, token: string) {
    forall i :: 0 <= i < |es| ==> |es[i].path| > 0 && es[i].path[0] != token
  }

  lemma ApartConcat(a: seq<Entry>, b: seq<Entry>, token: string)
    requires AllApart(a) && AllApart(b) && StartsWith(a, token) && AvoidsStart(b, token)
    ensures AllApart(a + b)
  {
    forall i, j | 0 <= i < j < |a + b| ensures Apart((a + b)[i].path, (a + b)[j].path) {
      if i < |a| && |a| <= j {
        assert (a + b)[i].path[0] == token && (a + b)[j].path[0] != token;
      }
    }
  }

  lemma ApartUnder(token: string, es: seq<Entry>)
    requires AllApart(es)
    ensures AllApart(Under(token, es))
  {
    forall i, j | 0 <= i < j < |es| ensures Apart(Under(token, es)[i].path, Under(token, es)[j].path) {
      PrefixUnder(token, es[i].path, es[j].path);
      PrefixUnder(token, es[j].path, es[i].path);
    }
  }

  lemma PrefixUnder(token: string, p: seq<string>, q: seq<string>)
    ensures [token] + p <= [token] + q ==> p <= q
  {
    if [token] + p <= [token] + q {
      forall k | 0 <= k < |p| ensures p[k] == q[k] {
        assert ([token] + p)[k + 1] == ([token] + q)[k + 1];
      }
    }
  }

  /** Reported paths are distinct and none is an ancestor of another. */
  lemma {:induction false} EntriesApart(l: Json, r: Json, depth: nat)
    ensures AllApart(Diff(l, r, depth))
    decreases l, 1, 0
  {
    if KindOf(l) == KindOf(r) && depth < MAX_DEPTH {
      if l.Arr? && |l.items| == |r.items| {
        ItemsApart(l, r, depth, 0);
      } else if l.Obj? {
        SortedNamesElements(l.members.Keys + r.members.Keys);
        MembersApart(l, r, depth, SortedNames(l.members.Keys + r.members.Keys));
      }
    }
  }

  lemma {:induction false} ItemsApart(l: Json, r: Json, depth: nat, i: nat)
    requires l.Arr? && r.Arr? && |l.items| == |r.items| && i <= |l.items|
    ensures AllApart(DiffItems(l, r, depth, i))
    decreases l, 0, |l.items| - i
  {
    if i < |l.items| {
      var sub := Diff(l.items[i], r.items[i], depth + 1);
      EntriesApart(l.items[i], r.items[i], depth + 1);
      ApartUnder(PrintIndex(i), sub);
      ItemsApart(l, r, depth, i + 1);
      ItemsAvoid(l, r, depth, i + 1, i);
      ApartConcat(Under(PrintIndex(i), sub), DiffItems(l, r, depth, i + 1), PrintIndex(i));
    }
  }

  lemma {:induction false} ItemsAvoid(l: Json, r: Json, depth: nat, i: nat, k: nat)
    requires l.Arr? && r.Arr? && |l.items| == |r.items| && k < i <= |l.items|
    ensures AvoidsStart(DiffItems(l, r, depth, i), PrintIndex(k))
    decreases |l.items| - i
  {
    if i < |l.items| {
      IndexRoundTrip(i);
      IndexRoundTrip(k);
      ItemsAvoid(l, r, depth, i + 1, k);
    }
  }

  lemma {:induction false} MembersApart(l: Json, r: Json, depth: nat, names: seq<string>)
    requires l.Obj? && r.Obj?
    requires forall i, j :: 0 <= i < j < |names| ==> names[i] != names[j]
    ensures var es := DiffMembers(l, r, depth, names);
            AllApart(es) && forall n :: n !in names ==> AvoidsStart(es, n)
    decreases l, 0, |names| + 1
  {
    if names != [] {
      var n := names[0];
      var sub := DiffMember(l, r, depth, n);
      MembersApart(l, r, depth, names[1..]);
      assert AllApart(sub) && StartsWith(sub, n) by {
        if n in l.members && n in r.members {
          EntriesApart(l.members[n], r.members[n], depth + 1);
          ApartUnder(n, Diff(l.members[n], r.members[n], depth + 1));
        }
      }
      assert n !in names[1..];
      ApartConcat(sub, DiffMembers(l, r, depth, names[1..]), n);
      forall m | m !in names ensures AvoidsStart(DiffMembers(l, r, depth, names), m) {
        assert m != n && m !in names[1..];
        assert AvoidsStart(DiffMembers(l, r, depth, names[1..]), m);
      }
    }
  }

  /** Each entry tells the truth: it shows what each side holds there, and they differ. */
  predicate Truthful(e: Entry, l: Json, r: Json) {
    e.cached == Lookup(l, e.path) && e.source == Lookup(r, e.path) && e.cached != e.source
  }

  lemma {:induction false} EntriesTruthful(l: Json, r: Json, depth: nat)
    ensures forall e :: e in Diff(l, r, depth) ==> Truthful(e, l, r)
    decreases l, 1, 0
  {
    if KindOf(l) == KindOf(r) && depth < MAX_DEPTH {
      if l.Arr? && |l.items| == |r.items| {
        ItemsTruthful(l, r, depth, 0);
      } else if l.Obj? {
        SortedNamesElements(l.members.Keys + r.members.Keys);
        MembersTruthful(l, r, depth, SortedNames(l.members.Keys + r.members.Keys));
      }
    }
  }

  lemma {:induction false} ItemsTruthful(l: Json, r: Json, depth: nat, i: nat)
    requires l.Arr? && r.Arr? && |l.items| == |r.items| && i <= |l.items|
    ensures forall e :: e in DiffItems(l, r, depth, i) ==> Truthful(e, l, r)
    decreases l, 0, |l.items| - i
  {
    if i < |l.items| {
      EntriesTruthful(l.items[i], r.items[i], depth + 1);
      IndexRoundTrip(i);
      TruthfulUnder(PrintIndex(i), Diff(l.items[i], r.items[i], depth + 1), l.items[i], r.items[i], l, r);
      ItemsTruthful(l, r, depth, i + 1);
    }
  }

  lemma {:induction false} MembersTruthful(l: Json, r: Json, depth: nat, names: seq<string>)
    requires l.Obj? && r.Obj?
    requires forall n :: n in names ==> n in l.members || n in r.members
    ensures forall e :: e in DiffMembers(l, r, depth, names) ==> Truthful(e, l, r)
    decreases l, 0, |names| + 1
  {
    if names != [] {
      var n := names[0];
      if n in l.members && n in r.members {
        EntriesTruthful(l.members[n], r.members[n], depth + 1);
        TruthfulUnder(n, Diff(l.members[n], r.members[n], depth + 1), l.members[n], r.members[n], l, r);
      } else {
        assert [n][1..] == [];
        assert Lookup(l, [n]) == if n in l.members then Some(l.members[n]) else None;
        assert Lookup(r, [n]) == if n in r.members then Some(r.members[n]) else None;
      }
      assert forall e :: e in DiffMember(l, r, depth, n) ==> Truthful(e, l, r);
      MembersTruthful(l, r, depth, names[1..]);
    }
  }

  lemma TruthfulUnder(token: string, es: seq<Entry>, lc: Json, rc: Json, l: Json, r: Json)
    requires forall e :: e in es ==> Truthful(e, lc, rc)
    requires forall path: seq<string> :: |path| > 0 && path[0] == token ==>
               Lookup(l, path) == Lookup(lc, path[1..]) && Lookup(r, path) == Lookup(rc, path[1..])
    ensures forall e :: e in Under(token, es) ==> Truthful(e, l, r)
  {
    forall e | e in Under(token, es) ensures Truthful(e, l, r) {
      var i :| 0 <= i < |es| && e == Under(token, es)[i];
      assert es[i] in es;
      assert ([token] + es[i].path)[1..] == es[i].path;
    }
  }

  // -------------------------------------------------- as fine as can be, in order

  /** Two containers the walk can descend into: two objects, or two arrays of one length. */
  predicate Descendable(e: Entry) {
    && e.cached.Some? && e.source.Some?
    && ((e.cached.value.Obj? && e.source.value.Obj?)
        || (e.cached.value.Arr? && e.source.value.Arr? && |e.cached.value.items| == |e.source.value.items|))
  }

  /** No entry lies deeper than 32 tokens, and one that could be split further lies exactly there. */
  predicate Finest(e: Entry, depth: nat) {
    |e.path| + depth <= 32 && (Descendable(e) ==> |e.path| + depth == 32)
  }

  lemma {:induction false} EntriesFinest(l: Json, r: Json, depth: nat)
    requires depth <= 32
    ensures forall e :: e in Diff(l, r, depth) ==> Finest(e, depth)
    decreases l, 1, 0
  {
    if KindOf(l) == KindOf(r) && depth < MAX_DEPTH {
      if l.Arr? && |l.items| == |r.items| {
        ItemsFinest(l, r, depth, 0);
      } else if l.Obj? {
        MembersFinest(l, r, depth, SortedNames(l.members.Keys + r.members.Keys));
      }
    }
  }

  lemma {:induction false} ItemsFinest(l: Json, r: Json, depth: nat, i: nat)
    requires l.Arr? && r.Arr? && |l.items| == |r.items| && i <= |l.items| && depth < 32
    ensures forall e :: e in DiffItems(l, r, depth, i) ==> Finest(e, depth)
    decreases l, 0, |l.items| - i
  {
    if i < |l.items| {
      EntriesFinest(l.items[i], r.items[i], depth + 1);
      FinestUnder(PrintIndex(i), Diff(l.items[i], r.items[i], depth + 1), depth);
      ItemsFinest(l, r, depth, i + 1);
    }
  }

  lemma {:induction false} MembersFinest(l: Json, r: Json, depth: nat, names: seq<string>)
    requires l.Obj? && r.Obj? && depth < 32
    ensures forall e :: e in DiffMembers(l, r, depth, names) ==> Finest(e, depth)
    decreases l, 0, |names| + 1
  {
    if names != [] {
      var n := names[0];
      if n in l.members && n in r.members {
        EntriesFinest(l.members[n], r.members[n], depth + 1);
        FinestUnder(n, Diff(l.members[n], r.members[n], depth + 1), depth);
      }
      assert forall e :: e in DiffMember(l, r, depth, n) ==> Finest(e, depth);
      MembersFinest(l, r, depth, names[1..]);
    }
  }

  lemma FinestUnder(token: string, es: seq<Entry>, depth: nat)
    requires forall e :: e in es ==> Finest(e, depth + 1)
    ensures forall e :: e in Under(token, es) ==> Finest(e, depth)
  {
    forall e | e in Under(token, es) ensures Finest(e, depth) {
      var i :| 0 <= i < |es| && e == Under(token, es)[i];
      assert es[i] in es;
    }
  }

  /** p comes before q in a walk of l: items by index, members by name order, first difference first. */
  predicate Before(l: Json, p: seq<string>, q: seq<string>)
    decreases |p|
  {
    && p != [] && q != []
    && if p[0] == q[0] then
         Lookup(l, [p[0]]).Some? && Before(Lookup(l, [p[0]]).value, p[1..], q[1..])
       else TokenBefore(l, p[0], q[0])
  }

  predicate TokenBefore(l: Json, a: string, b: string) {
    if l.Arr? then ParseIndex(a).Some? && ParseIndex(b).Some? && ParseIndex(a).value < ParseIndex(b).value
    else l.Obj? && Less(a, b)
  }

  predicate AllBefore(l: Json, es: seq<Entry>) {
    forall i, j :: 0 <= i < j < |es| ==> Before(l, es[i].path, es[j].path)
  }

  /** Every entry starts with a token that comes after the given one. */
  predicate StartsAfter(l: Json, es: seq<Entry>, token: string) {
    forall i :: 0 <= i < |es| ==> |es[i].path| > 0 && es[i].path[0] != token && TokenBefore(l, token, es[i].path[0])
  }

  lemma BeforeConcat(l: Json, a: seq<Entry>, b: seq<Entry>, token: string)
    requires AllBefore(l, a) && AllBefore(l, b) && StartsWith(a, token) && StartsAfter(l, b, token)
    ensures AllBefore(l, a + b)
  {
    hide TokenBefore;
    forall i, j | 0 <= i < j < |a + b| ensures Before(l, (a + b)[i].path, (a + b)[j].path) {
      if i < |a| && |a| <= j {
        assert (a + b)[i].path[0] == token && (a + b)[j] == b[j - |a|];
      } else if |a| <= i {
        assert (a + b)[i] == b[i - |a|] && (a + b)[j] == b[j - |a|];
      }
    }
  }

  lemma BeforeUnder(l: Json, token: string, child: Json, es: seq<Entry>)
    requires AllBefore(child, es) && Lookup(l, [token]) == Some(child)
    ensures AllBefore(l, Under(token, es)) && StartsWith(Under(token, es), token)
  {
    forall i, j | 0 <= i < j < |es| ensures Before(l, Under(token, es)[i].path, Under(token, es)[j].path) {
      assert ([token] + es[i].path)[1..] == es[i].path && ([token] + es[j].path)[1..] == es[j].path;
    }
  }

  /** Entries come in walk order at every level. */
  lemma {:induction false} EntriesInOrder(l: Json, r: Json, depth: nat)
    ensures AllBefore(l, Diff(l, r, depth))
    decreases l, 1, 0
  {
    if KindOf(l) == KindOf(r) && depth < MAX_DEPTH {
      if l.Arr? && |l.items| == |r.items| {
        ItemsInOrder(l, r, depth, 0);
      } else if l.Obj? {
        SortedNamesAscend(l.members.Keys + r.members.Keys);
        MembersInOrder(l, r, depth, SortedNames(l.members.Keys + r.members.Keys));
      }
    }
  }

  lemma {:induction false} ItemsInOrder(l: Json, r: Json, depth: nat, i: nat)
    requires l.Arr? && r.Arr? && |l.items| == |r.items| && i <= |l.items|
    ensures AllBefore(l, DiffItems(l, r, depth, i))
    decreases l, 0, |l.items| - i
  {
    if i < |l.items| {
      var sub := Diff(l.items[i], r.items[i], depth + 1);
      EntriesInOrder(l.items[i], r.items[i], depth + 1);
      IndexRoundTrip(i);
      assert [PrintIndex(i)][1..] == [];
      assert Lookup(l, [PrintIndex(i)]) == Some(l.items[i]);
      BeforeUnder(l, PrintIndex(i), l.items[i], sub);
      ItemsInOrder(l, r, depth, i + 1);
      ItemsStartAfter(l, r, depth, i + 1, i);
      BeforeConcat(l, Under(PrintIndex(i), sub), DiffItems(l, r, depth, i + 1), PrintIndex(i));
    }
  }

  lemma {:induction false} ItemsStartAfter(l: Json, r: Json, depth: nat, i: nat, k: nat)
    requires l.Arr? && r.Arr? && |l.items| == |r.items| && k < i <= |l.items|
    ensures StartsAfter(l, DiffItems(l, r, depth, i), PrintIndex(k))
    decreases |l.items| - i
  {
    if i < |l.items| {
      IndexRoundTrip(i);
      IndexRoundTrip(k);
      ItemsStartAfter(l, r, depth, i + 1, k);
    }
  }

  lemma {:induction false} MembersInOrder(l: Json, r: Json, depth: nat, names: seq<string>)
    requires l.Obj? && r.Obj?
    requires forall i, j :: 0 <= i < j < |names| ==> Less(names[i], names[j])
    ensures AllBefore(l, DiffMembers(l, r, depth, names))
    decreases l, 0, |names| + 1
  {
    hide Less;
    if names != [] {
      var n := names[0];
      var sub := DiffMember(l, r, depth, n);
      MembersInOrder(l, r, depth, names[1..]);
      assert AllBefore(l, sub) && StartsWith(sub, n) by {
        if n in l.members && n in r.members {
          EntriesInOrder(l.members[n], r.members[n], depth + 1);
          assert [n][1..] == [];
          assert Lookup(l, [n]) == Some(l.members[n]);
          BeforeUnder(l, n, l.members[n], Diff(l.members[n], r.members[n], depth + 1));
        }
      }
      MembersStartAfter(l, r, depth, names[1..], n);
      BeforeConcat(l, sub, DiffMembers(l, r, depth, names[1..]), n);
    }
  }

  lemma {:induction false} MembersStartAfter(l: Json, r: Json, depth: nat, names: seq<string>, n: string)
    requires l.Obj? && r.Obj? && forall i :: 0 <= i < |names| ==> Less(n, names[i])
    ensures StartsAfter(l, DiffMembers(l, r, depth, names), n)
    decreases |names|
  {
    if names != [] {
      LessOrder(n, names[0]);
      hide Less;
      MembersStartAfter(l, r, depth, names[1..], n);
    }
  }

  // ------------------------------------------------------- as pointer text

  /** Replay entries by their pointer text, read as RFC 6901 prescribes. */
  function PatchByPointer(doc: Json, es: seq<(string, Option<Json>)>): Json
    decreases |es|
  {
    if es == [] then doc
    else
      var path := ParsePointer(es[0].0);
      PatchByPointer(if path.None? then doc else Put(doc, path.value, es[0].1), es[1..])
  }

  function AsPointers(es: seq<Entry>): seq<(string, Option<Json>)> {
    if es == [] then [] else [(Pointer(es[0].path), es[0].source)] + AsPointers(es[1..])
  }

  lemma {:induction false} PatchByPointerIsPatch(doc: Json, es: seq<Entry>)
    ensures PatchByPointer(doc, AsPointers(es)) == Patch(doc, es)
    decreases |es|
  {
    if es != [] {
      PointerRoundTrip(es[0].path);
      PatchByPointerIsPatch(Put(doc, es[0].path, es[0].source), es[1..]);
      assert AsPointers(es)[1..] == AsPointers(es[1..]);
    }
  }

  /** Diff then patch: the reported pointers and source sides rebuild the source value. */
  lemma DiffPatch(cached: Json, source: Json)
    ensures PatchByPointer(cached, AsPointers(Diff(cached, source, 0))) == source
  {
    PatchYieldsSource(cached, source, 0);
    PatchByPointerIsPatch(cached, Diff(cached, source, 0));
  }
}
