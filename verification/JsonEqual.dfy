/** Structural equality by an explicit worklist, for pairs too deep to recurse into. */
module JsonEqual {
  import opened Json
  import opened JsonDiff

  /** Number of nodes, the work still ahead of a pending pair. */
  ghost function Size(j: Json): nat
    decreases j, 1
  {
    match j
    case Arr(_) => 1 + ItemsSize(j, 0)
    case Obj(members) => 1 + MembersSize(j, members.Keys)
    case _ => 1
  }

  ghost function ItemsSize(j: Json, i: nat): nat
    requires j.Arr? && i <= |j.items|
    decreases j, 0, |j.items| - i
  {
    if i == |j.items| then 0 else Size(j.items[i]) + ItemsSize(j, i + 1)
  }

  ghost function MembersSize(j: Json, names: set<string>): nat
    requires j.Obj? && names <= j.members.Keys
    decreases j, 0, |names|
  {
    if names == {} then 0
    else
      var n :| n in names;
      Size(j.members[n]) + MembersSize(j, names - {n})
  }

  /** The sum over members does not depend on the order they are visited in. */
  lemma {:induction false} MembersSizeRemove(j: Json, names: set<string>, n: string)
    requires j.Obj? && names <= j.members.Keys && n in names
    ensures MembersSize(j, names) == Size(j.members[n]) + MembersSize(j, names - {n})
    decreases |names|
  {
    hide Size;
    var m :| m in names && MembersSize(j, names) == Size(j.members[m]) + MembersSize(j, names - {m});
    if m != n {
      MembersSizeRemove(j, names - {m}, n);
      MembersSizeRemove(j, names - {n}, m);
      assert names - {m} - {n} == names - {n} - {m};
    }
  }

  type Pending = seq<(Json, Json)>

  ghost function Work(pending: Pending): nat {
    if pending == [] then 0 else Work(pending[..|pending| - 1]) + Size(pending[|pending| - 1].0)
  }

  predicate AllEqual(pending: Pending) {
    forall i :: 0 <= i < |pending| ==> pending[i].0 == pending[i].1
  }

  lemma WorkPush(pending: Pending, pair: (Json, Json))
    ensures Work(pending + [pair]) == Work(pending) + Size(pair.0)
    ensures AllEqual(pending + [pair]) <==> AllEqual(pending) && pair.0 == pair.1
  {
    hide Size;
    assert (pending + [pair])[..|pending|] == pending;
    if AllEqual(pending + [pair]) {
      assert (pending + [pair])[|pending|] == pair;
      assert forall i :: 0 <= i < |pending| ==> pending[i] == (pending + [pair])[i];
    }
  }

  method PushItems(pending: Pending, left: Json, right: Json) returns (out: Pending)
    requires left.Arr? && right.Arr? && |left.items| == |right.items|
    ensures Work(out) == Work(pending) + ItemsSize(left, 0)
    ensures AllEqual(out) <==> AllEqual(pending) && left == right
  {
    hide Size, AllEqual, Work;
    out := pending;
    for i := 0 to |left.items|
      invariant Work(out) + ItemsSize(left, i) == Work(pending) + ItemsSize(left, 0)
      invariant AllEqual(out) <==> AllEqual(pending) && left.items[..i] == right.items[..i]
    {
      WorkPush(out, (left.items[i], right.items[i]));
      out := out + [(left.items[i], right.items[i])];
      assert left.items[..i + 1] == left.items[..i] + [left.items[i]];
      assert right.items[..i + 1] == right.items[..i] + [right.items[i]];
    }
    assert left.items[..|left.items|] == left.items && right.items[..|right.items|] == right.items;
  }

  /** On the names already visited, both sides agree. */
  predicate AgreeOn(left: Json, right: Json, names: set<string>)
    requires left.Obj? && right.Obj? && names <= left.members.Keys
  {
    forall n :: n in names ==> n in right.members && left.members[n] == right.members[n]
  }

  /** Nothing when a name is missing on the right: the pair differs. */
  method PushMembers(pending: Pending, left: Json, right: Json) returns (missing: bool, out: Pending)
    requires left.Obj? && right.Obj? && |left.members| == |right.members|
    ensures missing ==> left != right
    ensures !missing ==> Work(out) == Work(pending) + MembersSize(left, left.members.Keys)
    ensures !missing ==> (AllEqual(out) <==> AllEqual(pending) && left == right)
  {
    hide Size, AllEqual, Work, MembersSize, AgreeOn;
    out := pending;
    var todo := left.members.Keys;
    MembersSizeEmpty(left);
    AgreeOnNothing(left, right);
    assert left.members.Keys - todo == {};
    while todo != {}
      invariant todo <= left.members.Keys
      invariant forall n :: n in left.members.Keys - todo ==> n in right.members
      invariant Work(out) + MembersSize(left, todo) == Work(pending) + MembersSize(left, left.members.Keys)
      invariant AllEqual(out) <==> AllEqual(pending) && AgreeOn(left, right, left.members.Keys - todo)
      decreases |todo|
    {
      var n :| n in todo;
      if n !in right.members {
        return true, [];
      }
      MembersSizeRemove(left, todo, n);
      WorkPush(out, (left.members[n], right.members[n]));
      out := out + [(left.members[n], right.members[n])];
      assert left.members.Keys - (todo - {n}) == left.members.Keys - todo + {n};
      AgreeOnOneMore(left, right, left.members.Keys - todo, n);
      todo := todo - {n};
    }
    missing := false;
    assert left.members.Keys - todo == left.members.Keys;
    AgreeOnAll(left, right);
  }

  lemma AgreeOnNothing(left: Json, right: Json)
    requires left.Obj? && right.Obj?
    ensures AgreeOn(left, right, {})
  {
  }

  lemma AgreeOnOneMore(left: Json, right: Json, names: set<string>, n: string)
    requires left.Obj? && right.Obj? && names <= left.members.Keys && n in left.members && n in right.members
    ensures AgreeOn(left, right, names + {n}) <==>
              AgreeOn(left, right, names) && left.members[n] == right.members[n]
  {
  }

  lemma AgreeOnAll(left: Json, right: Json)
    requires left.Obj? && right.Obj? && |left.members| == |right.members| && left.members.Keys <= right.members.Keys
    ensures AgreeOn(left, right, left.members.Keys) <==> left == right
  {
    SameKeys(left.members.Keys, right.members.Keys);
    if AgreeOn(left, right, left.members.Keys) {
      assert left.members == right.members;
    }
  }

  lemma MembersSizeEmpty(j: Json)
    requires j.Obj?
    ensures MembersSize(j, {}) == 0
  {
  }

  /** A subset of equal size is the whole set. */
  lemma SameKeys(a: set<string>, b: set<string>)
    requires a <= b && |a| == |b|
    ensures a == b
  {
    assert b == a + (b - a);
    assert |b| == |a| + |b - a|;
  }

  /** Worklist equality decides structural equality, at any depth. */
  method JsonEqual(cached: Json, source: Json) returns (equal: bool)
    ensures equal <==> cached == source
  {
    var pending := [(cached, source)];
    assert pending == [] + [(cached, source)];
    WorkPush([], (cached, source));
    while pending != []
      invariant AllEqual(pending) <==> cached == source
      decreases Work(pending)
    {
      var last := |pending| - 1;
      var (left, right) := pending[last];
      ghost var whole := pending;
      pending := pending[..last];
      assert whole == pending + [(left, right)];
      WorkPush(pending, (left, right));
      var kind := KindOf(left);
      if kind != KindOf(right) {
        return false;
      }
      if kind.Primitive? {
        if left != right {
          return false;
        }
      } else if kind.Array? {
        if |left.items| != |right.items| {
          return false;
        }
        pending := PushItems(pending, left, right);
      } else {
        if |left.members| != |right.members| {
          return false;
        }
        var missing, next := PushMembers(pending, left, right);
        if missing {
          return false;
        }
        pending := next;
      }
    }
    return true;
  }
}
