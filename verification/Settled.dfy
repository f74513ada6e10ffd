/** The settle-once cell: many waiters, one value, no wakeup lost across slot reuse. */
module Settled {
  import opened Base

  type Waker = nat
  type Slots = map<nat, Waker>

  // ------------------------------------------------ critical sections, as values

  /** Where a poll of an unsettled cell leaves the slots: replace in place, or take a vacant slot. */
  function Registered(slots: Slots, registration: Option<nat>, waker: Waker, vacant: nat): Slots {
    slots[(if registration.Some? then registration.value else vacant) := waker]
  }

  function Released(slots: Slots, registration: Option<nat>): Slots {
    if registration.Some? then slots - {registration.value} else slots
  }

  /** The shared cell; each method body is one critical section. */
  class Cell<T> {
    var value: Option<T>
    var wakers: Slots

    constructor ()
      ensures value == None && wakers == map[]
    {
      value, wakers := None, map[];
    }

    /** Returns false when already settled; otherwise the taken slots are then woken. */
    method Settle(v: T) returns (won: bool, taken: Slots)
      modifies this
      ensures won == old(value).None?
      ensures won ==> value == Some(v) && wakers == map[] && taken == old(wakers)
      ensures !won ==> value == old(value) && wakers == old(wakers) && taken == map[]
    {
      if value.Some? {
        return false, map[];
      }
      value := Some(v);
      taken := wakers;
      wakers := map[];
      won := true;
    }

    method Poll(registration: Option<nat>, waker: Waker) returns (ready: Option<T>, next: Option<nat>)
      requires value.None? && registration.Some? ==> registration.value in wakers
      modifies this
      ensures value == old(value) && ready == value
      ensures ready.Some? ==> next == registration && wakers == old(wakers)
      ensures ready.None? ==> next.Some? && (registration.Some? ==> next == registration)
      ensures ready.None? && registration.None? ==> next.value !in old(wakers)
      ensures ready.None? ==> wakers == Registered(old(wakers), registration, waker, next.value)
    {
      if value.Some? {
        return value, registration;
      }
      if registration.Some? {
        wakers := wakers[registration.value := waker];
        return None, registration;
      }
      var slot := FreshSlot(wakers);
      wakers := wakers[slot := waker];
      return None, Some(slot);
    }

    method DropWait(registration: Option<nat>)
      requires value.None? && registration.Some? ==> registration.value in wakers
      modifies this
      ensures value == old(value)
      ensures wakers == if value.None? then Released(old(wakers), registration) else old(wakers)
    {
      if value.None? && registration.Some? {
        wakers := wakers - {registration.value};
      }
    }
  }

  /** A slab hands out any index it does not hold, a released one included. */
  method FreshSlot(slots: Slots) returns (slot: nat)
    ensures slot !in slots
  {
    slot := 0;
    ghost var seen: set<nat> := {};
    while slot in slots
      invariant seen <= slots.Keys && |seen| == slot
      invariant forall i: nat :: i in seen ==> i < slot
      decreases |slots.Keys| - slot
    {
      seen := seen + {slot};
      SubsetSize(seen, slots.Keys);
      slot := slot + 1;
    }
  }

  lemma SubsetSize(a: set<nat>, b: set<nat>)
    requires a <= b
    ensures |a| <= |b|
  {
    assert b == a + (b - a);
  }

  // ------------------------------------------------------------- interleavings

  /** One future: its slot, the waker of its latest pending poll, the value it returned. */
  datatype Wait<T> = Wait(registration: Option<nat>, latest: Option<Waker>, returned: Option<T>)

  datatype State<T> = State(
    value: Option<T>, wakers: Slots, waits: map<nat, Wait<T>>, taken: Slots, woken: set<nat>)

  datatype Label<T> =
    | Settle(v: T)
    | Wake(slot: nat)
    | NewWait(id: nat)
    | Poll(id: nat, waker: Waker, vacant: nat)
    | DropWait(id: nat)

  predicate Enabled<T>(s: State<T>, l: Label<T>) {
    match l
    case Settle(_) => true
    case Wake(slot) => slot in s.taken && slot !in s.woken
    case NewWait(id) => id !in s.waits
    case Poll(id, _, vacant) => id in s.waits && vacant !in s.wakers
    case DropWait(id) => id in s.waits
  }

  function Step<T>(s: State<T>, l: Label<T>): State<T>
    requires Enabled(s, l)
  {
    match l
    case Settle(v) =>
      if s.value.Some? then s else s.(value := Some(v), wakers := map[], taken := s.wakers)
    case Wake(slot) => s.(woken := s.woken + {slot})
    case NewWait(id) => s.(waits := s.waits[id := Wait(None, None, None)])
    case Poll(id, waker, vacant) =>
      var w := s.waits[id];
      if s.value.Some? then s.(waits := s.waits[id := w.(returned := s.value)])
      else
        var slot := if w.registration.Some? then w.registration.value else vacant;
        s.(wakers := Registered(s.wakers, w.registration, waker, vacant),
           waits := s.waits[id := Wait(Some(slot), Some(waker), None)])
    case DropWait(id) =>
      s.(wakers := if s.value.None? then Released(s.wakers, s.waits[id].registration) else s.wakers,
         waits := s.waits - {id})
  }

  function Init<T>(): State<T> {
    State(None, map[], map[], map[], {})
  }

  function Run<T>(labels: seq<Label<T>>): Option<State<T>> {
    if labels == [] then Some(Init())
    else
      var before := Run(labels[..|labels| - 1]);
      if before.None? || !Enabled(before.value, labels[|labels| - 1]) then None
      else Some(Step(before.value, labels[|labels| - 1]))
  }

  /** A waiter that polled while the cell was unsettled and still holds its slot. */
  predicate Pending<T>(s: State<T>, id: nat) {
    id in s.waits && s.waits[id].registration.Some?
  }

  /** The slab of slots that pending waiters own, before and after settlement. */
  function Held<T>(s: State<T>): Slots {
    if s.value.None? then s.wakers else s.taken
  }

  /** The waker of the pending waiter's latest poll is the one kept in its slot of slots. */
  predicate Kept<T>(s: State<T>, id: nat, slots: Slots)
    requires Pending(s, id)
  {
    s.waits[id].registration.value in slots && s.waits[id].latest == Some(slots[s.waits[id].registration.value])
  }

  /** Each pending waiter owns one slot, alone, holding its latest waker. */
  ghost predicate SlotsOwned<T>(s: State<T>) {
    && (forall id :: Pending(s, id) ==> Kept(s, id, Held(s)))
    && (forall a, b :: Pending(s, a) && Pending(s, b) && a != b ==> s.waits[a].registration != s.waits[b].registration)
  }

  /** No slot is left behind: every stored waker belongs to a pending waiter. */
  ghost predicate NoOrphans<T>(s: State<T>) {
    forall slot :: slot in s.wakers ==> exists id :: Pending(s, id) && s.waits[id].registration == Some(slot)
  }

  ghost predicate Inv<T>(s: State<T>) {
    && SlotsOwned(s)
    && NoOrphans(s)
    && (s.value.Some? ==> s.wakers == map[])
    && (s.value.None? ==> s.taken == map[])
    && s.woken <= s.taken.Keys
    && (forall id :: id in s.waits && s.waits[id].returned.Some? ==> s.waits[id].returned == s.value)
  }

  lemma StepKeepsOwnership<T>(s: State<T>, l: Label<T>)
    requires Inv(s) && Enabled(s, l)
    ensures SlotsOwned(Step(s, l))
  {
    var t := Step(s, l);
    forall id | Pending(t, id) ensures Kept(t, id, Held(t)) {
      assert (l.Poll? && l.id == id) || Pending(s, id);
      if Pending(s, id) {
        assert Kept(s, id, Held(s));
      }
    }
    forall a, b | Pending(t, a) && Pending(t, b) && a != b ensures t.waits[a].registration != t.waits[b].registration {
      assert Pending(s, a) ==> Kept(s, a, Held(s));
      assert Pending(s, b) ==> Kept(s, b, Held(s));
    }
  }

  lemma StepKeepsNoOrphans<T>(s: State<T>, l: Label<T>)
    requires Inv(s) && Enabled(s, l)
    ensures NoOrphans(Step(s, l))
  {
    var t := Step(s, l);
    forall slot | slot in t.wakers ensures exists id :: Pending(t, id) && t.waits[id].registration == Some(slot) {
      if l.Poll? && t.waits[l.id].registration == Some(slot) {
        assert Pending(t, l.id);
      } else {
        assert slot in s.wakers;
        var id :| Pending(s, id) && s.waits[id].registration == Some(slot);
        assert Pending(t, id);
      }
    }
  }

  lemma StepKeepsInv<T>(s: State<T>, l: Label<T>)
    requires Inv(s) && Enabled(s, l)
    ensures Inv(Step(s, l))
  {
    StepKeepsOwnership(s, l);
    StepKeepsNoOrphans(s, l);
  }

  lemma {:induction false} RunInv<T>(labels: seq<Label<T>>)
    requires Run(labels).Some?
    ensures Inv(Run(labels).value)
  {
    hide Inv, Step, Enabled;
    if labels == [] {
      InitInv<T>();
    } else {
      RunInv(labels[..|labels| - 1]);
      StepKeepsInv(Run(labels[..|labels| - 1]).value, labels[|labels| - 1]);
    }
  }

  lemma InitInv<T>()
    ensures Inv(Init<T>())
  {
  }

  // ------------------------------------------------------------------ theorems

  /** In no reachable state does a poll or drop index a slot that is not there. */
  lemma SlotIndexNeverStale<T>(labels: seq<Label<T>>, id: nat)
    requires Run(labels).Some? && id in Run(labels).value.waits
    ensures var s := Run(labels).value;
            s.value.None? && s.waits[id].registration.Some? ==> s.waits[id].registration.value in s.wakers
  {
    RunInv(labels);
    assert Pending(Run(labels).value, id) ==> Kept(Run(labels).value, id, Held(Run(labels).value));
  }

  /** Settling takes exactly one waker per pending waiter: its latest. */
  lemma SettleTakesLatestWakers<T>(labels: seq<Label<T>>, v: T)
    requires Run(labels).Some? && Run(labels).value.value.None?
    ensures var s := Run(labels).value;
            var taken := Step(s, Settle(v)).taken;
            && Step(s, Settle(v)).value == Some(v) && Step(s, Settle(v)).wakers == map[]
            && (forall id :: Pending(s, id) ==> Kept(s, id, taken))
            && (forall slot :: slot in taken ==> exists id :: OnlyOwner(s, id, slot))
  {
    RunInv(labels);
    var s := Run(labels).value;
    forall id | Pending(s, id) ensures Kept(s, id, s.wakers) {
      assert Kept(s, id, Held(s));
    }
    forall slot | slot in s.wakers ensures exists id :: OnlyOwner(s, id, slot) {
      var id :| Pending(s, id) && s.waits[id].registration == Some(slot);
      assert OnlyOwner(s, id, slot);
    }
  }

  ghost predicate OnlyOwner<T>(s: State<T>, id: nat, slot: nat) {
    && Pending(s, id) && s.waits[id].registration == Some(slot)
    && forall other :: Pending(s, other) && s.waits[other].registration == Some(slot) ==> other == id
  }

  /**
   * No lost wakeup: in every reachable settled state the settling thread has woken, or still
   * has in hand, the latest waker of every waiter that went pending; once it is done, all are woken.
   */
  lemma NoLostWakeup<T>(labels: seq<Label<T>>, id: nat)
    requires Run(labels).Some? && Run(labels).value.value.Some? && Pending(Run(labels).value, id)
    ensures var s := Run(labels).value;
            var slot := s.waits[id].registration.value;
            && Kept(s, id, s.taken)
            && (slot in s.woken || Enabled(s, Wake(slot)))
            && (s.woken == s.taken.Keys ==> slot in s.woken)
  {
    RunInv(labels);
    assert Kept(Run(labels).value, id, Held(Run(labels).value));
  }

  /**
   * What a poll does. Before settlement the wait is pending with that waker in its own slot, the slot it
   * had if it had one, and every other slot is untouched; after settlement it returns the value.
   */
  lemma PollTakesEffect<T>(labels: seq<Label<T>>, id: nat, waker: Waker, vacant: nat)
    requires Run(labels).Some? && Enabled(Run(labels).value, Poll(id, waker, vacant))
    ensures var s := Run(labels).value;
            var t := Step(s, Poll(id, waker, vacant));
            && id in t.waits && t.value == s.value
            && (s.value.Some? ==> t.waits[id].returned == s.value && t.wakers == s.wakers)
            && (s.value.None? ==>
                  && Pending(t, id) && t.waits[id].latest == Some(waker)
                  && (Pending(s, id) ==> t.waits[id].registration == s.waits[id].registration)
                  && t.waits[id].registration.value in t.wakers
                  && t.wakers[t.waits[id].registration.value] == waker
                  && t.wakers - {t.waits[id].registration.value} == s.wakers - {t.waits[id].registration.value}
                  && forall other :: Pending(s, other) && other != id ==>
                       s.waits[other].registration != t.waits[id].registration)
  {
    RunInv(labels);
    var s := Run(labels).value;
    hide Run;
    forall other | Pending(s, other) && other != id && s.value.None?
      ensures s.waits[other].registration != Step(s, Poll(id, waker, vacant)).waits[id].registration
    {
      assert Kept(s, other, Held(s));
    }
  }

  /** The value never changes once set, and every completed wait returned that value. */
  lemma {:induction false} SettlesOnce<T>(labels: seq<Label<T>>, more: seq<Label<T>>)
    requires Run(labels + more).Some?
    ensures Run(labels).Some?
    ensures Run(labels).value.value.Some? ==> Run(labels + more).value.value == Run(labels).value.value
    ensures forall id :: id in Run(labels + more).value.waits && Run(labels + more).value.waits[id].returned.Some?
              ==> Run(labels + more).value.waits[id].returned == Run(labels + more).value.value
    decreases |more|
  {
    RunInv(labels + more);
    hide Inv;
    assert Inv(Run(labels + more).value);
    if more == [] {
      assert labels + more == labels;
    } else {
      var n := |labels + more| - 1;
      assert (labels + more)[..n] == labels + more[..|more| - 1];
      SettlesOnce(labels, more[..|more| - 1]);
    }
    ReturnedValues(Run(labels + more).value);
  }

  lemma ReturnedValues<T>(s: State<T>)
    requires Inv(s)
    ensures forall id :: id in s.waits && s.waits[id].returned.Some? ==> s.waits[id].returned == s.value
  {
  }
}
