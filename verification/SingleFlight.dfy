/**
 * Request-scoped memoization and single flight, as interleaved critical sections: any number
 * of callers, scopes that close at any moment, leaders that fail, panic or are dropped.
 */
module SingleFlight {
  import opened Base

  datatype Result<V> = Value(value: V) | Error(code: nat)

  // ------------------------------------------------ critical sections, as values

  /** One flight table: the process table (request is false) or one request scope. */
  datatype Table<F, V> = Table(request: bool, live: bool, memo: map<string, V>, flights: map<string, F>)

  datatype Entry<F> = Alone | Join(flight: F) | Lead

  function Decide<F, V>(t: Table<F, V>, key: string, coalesce: bool): Entry<F> {
    if !coalesce || !t.live then Alone
    else if key in t.flights then Join(t.flights[key])
    else Lead
  }

  function Remembered<F, V>(t: Table<F, V>, key: string): Option<V> {
    if t.live && key in t.memo then Some(t.memo[key]) else None
  }

  function Published<F, V>(t: Table<F, V>, key: string, value: V): Table<F, V> {
    if t.request && t.live then t.(memo := t.memo[key := value]) else t
  }

  function Unregistered<F(==), V>(t: Table<F, V>, key: string, flight: F): Table<F, V> {
    if key in t.flights && t.flights[key] == flight then t.(flights := t.flights - {key}) else t
  }

  function Closed<F, V>(t: Table<F, V>): Table<F, V> {
    t.(live := false, memo := map[], flights := map[])
  }

  class Flight<V> {
    var result: Option<Result<V>>
    var followers: nat

    constructor ()
      ensures result == None && followers == 0
    {
      result, followers := None, 0;
    }
  }

  /** The mutable table; each method body runs under its lock. */
  class FlightTable<V> {
    const request: bool
    var live: bool
    var memo: map<string, V>
    var flights: map<string, Flight<V>>

    function Abs(): Table<Flight<V>, V>
      reads this
    {
      Table(request, live, memo, flights)
    }

    constructor (request: bool)
      ensures Abs() == Table(request, true, map[], map[])
    {
      this.request, live, memo, flights := request, true, map[], map[];
    }

    method Enter(key: string, coalesce: bool) returns (entry: Entry<Flight<V>>, led: Option<Flight<V>>)
      modifies this, flights.Values
      ensures entry == Decide(old(Abs()), key, coalesce)
      ensures led.Some? == entry.Lead?
      ensures led.Some? ==> fresh(led.value) && led.value.result.None? && led.value.followers == 0
      ensures Abs() == if led.Some? then old(Abs()).(flights := old(flights)[key := led.value]) else old(Abs())
      ensures forall f | f in old(flights.Values) ::
                f.result == old(f.result) && f.followers == old(f.followers) + if entry == Join(f) then 1 else 0
    {
      led := None;
      if !coalesce || !live {
        return Alone, None;
      }
      if key in flights {
        var f := flights[key];
        f.followers := f.followers + 1;
        return Join(f), None;
      }
      var f := new Flight();
      flights := flights[key := f];
      return Lead, Some(f);
    }

    method Lookup(key: string) returns (found: Option<V>)
      ensures found == Remembered(Abs(), key)
    {
      if live && key in memo {
        return Some(memo[key]);
      }
      return None;
    }

    method Publish(key: string, value: V)
      modifies this
      ensures Abs() == Published(old(Abs()), key, value)
    {
      if request && live {
        memo := memo[key := value];
      }
    }

    /** Cleanup and settlement in one critical section. */
    method Finish(key: string, flight: Flight<V>, result: Result<V>)
      modifies this, flight
      ensures Abs() == Unregistered(old(Abs()), key, flight)
      ensures flight.result == Some(result)
    {
      flight.result := Some(result);
      if key in flights && flights[key] == flight {
        flights := flights - {key};
      }
    }

    method Close()
      modifies this
      ensures Abs() == Closed(old(Abs()))
    {
      live, memo, flights := false, map[], map[];
    }
  }

  // ------------------------------------------------------------- interleavings

  datatype Phase<V> =
    | Running
    | Loading
    | Publishing(value: V)
    | Finishing(result: Result<V>)
    | Settling(result: Result<V>)

  datatype Caller<V> =
    | Working(table: nat, key: string, flight: Option<nat>, phase: Phase<V>)
    | Following(joined: nat)
    | Done(table: nat, key: string, flight: Option<nat>, result: Result<V>)

  datatype FlightState<V> = FlightState(table: nat, key: string, leader: nat, result: Option<Result<V>>)

  /** mixed holds the scopes and keys that some caller entered without coalescing while the scope was live. */
  datatype State<V> = State(
    tables: map<nat, Table<nat, V>>, flights: map<nat, FlightState<V>>,
    callers: map<nat, Caller<V>>, mixed: set<(nat, string)>)

  const PROCESS: nat := 0

  datatype Label<V> =
    | Open(table: nat)
    | Close(table: nat)
    | Enter(caller: nat, table: nat, key: string, coalesce: bool, flight: nat)
    | Lookup(caller: nat)
    | Loaded(caller: nat, result: Result<V>)
    | Publish(caller: nat)
    | Drop(caller: nat, code: nat)
    | Finish(caller: nat)
    | Unregister(caller: nat)
    | Settle(caller: nat)
    | Receive(caller: nat)

  predicate Works<V>(s: State<V>, c: nat) {
    c in s.callers && s.callers[c].Working? && s.callers[c].table in s.tables
    && (s.callers[c].flight.Some? ==> s.callers[c].flight.value in s.flights)
  }

  predicate Enabled<V>(s: State<V>, l: Label<V>) {
    match l
    case Open(t) => t !in s.tables
    case Close(t) => t in s.tables && t != PROCESS
    case Enter(c, t, _, _, f) => c !in s.callers && t in s.tables && f !in s.flights
    case Lookup(c) => Works(s, c) && s.callers[c].phase.Running?
    case Loaded(c, _) => Works(s, c) && s.callers[c].phase.Loading?
    case Publish(c) => Works(s, c) && s.callers[c].phase.Publishing?
    case Drop(c, _) =>
      Works(s, c) && (s.callers[c].phase.Running? || s.callers[c].phase.Loading? || s.callers[c].phase.Publishing?)
    case Finish(c) => Works(s, c) && s.callers[c].phase.Finishing?
    case Unregister(c) => Works(s, c) && s.callers[c].phase.Finishing?
    case Settle(c) => Works(s, c) && s.callers[c].phase.Settling?
    case Receive(c) =>
      && c in s.callers && s.callers[c].Following? && s.callers[c].joined in s.flights
      && s.flights[s.callers[c].joined].result.Some?
  }

  function Moved<V>(s: State<V>, c: nat, phase: Phase<V>): State<V>
    requires Works(s, c)
  {
    s.(callers := s.callers[c := s.callers[c].(phase := phase)])
  }

  function Entered<V>(s: State<V>, c: nat, t: nat, key: string, coalesce: bool, f: nat): State<V>
    requires t in s.tables
  {
    match Decide(s.tables[t], key, coalesce)
    case Alone =>
      s.(callers := s.callers[c := Working(t, key, None, Running)],
         mixed := if s.tables[t].live && s.tables[t].request then s.mixed + {(t, key)} else s.mixed)
    case Join(g) => s.(callers := s.callers[c := Following(g)])
    case Lead =>
      s.(callers := s.callers[c := Working(t, key, Some(f), Running)],
         flights := s.flights[f := FlightState(t, key, c, None)],
         tables := s.tables[t := s.tables[t].(flights := s.tables[t].flights[key := f])])
  }

  function Cleaned<V>(s: State<V>, c: nat): State<V>
    requires Works(s, c)
  {
    var w := s.callers[c];
    if w.flight.None? then s
    else s.(tables := s.tables[w.table := Unregistered(s.tables[w.table], w.key, w.flight.value)])
  }

  function Settled<V>(s: State<V>, c: nat, result: Result<V>): State<V>
    requires Works(s, c)
  {
    var w := s.callers[c];
    var done := s.(callers := s.callers[c := Done(w.table, w.key, w.flight, result)]);
    if w.flight.None? then done
    else done.(flights := s.flights[w.flight.value := s.flights[w.flight.value].(result := Some(result))])
  }

  function Step<V>(s: State<V>, l: Label<V>): State<V>
    requires Enabled(s, l)
  {
    match l
    case Open(t) => s.(tables := s.tables[t := Table(t != PROCESS, true, map[], map[])])
    case Close(t) => s.(tables := s.tables[t := Closed(s.tables[t])])
    case Enter(c, t, key, coalesce, f) => Entered(s, c, t, key, coalesce, f)
    case Lookup(c) =>
      var found := Remembered(s.tables[s.callers[c].table], s.callers[c].key);
      Moved(s, c, if found.Some? then Finishing(Value(found.value)) else Loading)
    case Loaded(c, result) =>
      Moved(s, c, if result.Value? then Publishing(result.value) else Finishing(result))
    case Publish(c) =>
      var w := s.callers[c];
      Moved(s.(tables := s.tables[w.table := Published(s.tables[w.table], w.key, w.phase.value)]),
            c, Finishing(Value(w.phase.value)))
    case Drop(c, code) => Moved(s, c, Finishing(Error(code)))
    case Finish(c) => Settled(Cleaned(s, c), c, s.callers[c].phase.result)
    case Unregister(c) => Moved(Cleaned(s, c), c, Settling(s.callers[c].phase.result))
    case Settle(c) => Settled(s, c, s.callers[c].phase.result)
    case Receive(c) =>
      var f := s.flights[s.callers[c].joined];
      s.(callers := s.callers[c := Done(f.table, f.key, Some(s.callers[c].joined), f.result.value)])
  }

  function Init<V>(): State<V> {
    State(map[PROCESS := Table(false, true, map[], map[])], map[], map[], {})
  }

  function Run<V>(labels: seq<Label<V>>): Option<State<V>> {
    if labels == [] then Some(Init())
    else
      var before := Run(labels[..|labels| - 1]);
      if before.None? || !Enabled(before.value, labels[|labels| - 1]) then None
      else Some(Step(before.value, labels[|labels| - 1]))
  }

  // ---------------------------------------------------------------- invariant

  /** c is at work on flight f. */
  predicate Leads<V>(s: State<V>, c: nat, f: nat) {
    Works(s, c) && s.callers[c].flight == Some(f)
  }

  /** A registered flight is unsettled and its leader is at work and will clean it up. */
  ghost predicate EntryOk<V>(s: State<V>, t: nat, key: string) {
    t in s.tables && key in s.tables[t].flights ==>
      var f := s.tables[t].flights[key];
      && f in s.flights && s.flights[f].table == t && s.flights[f].key == key && s.flights[f].result.None?
      && Leads(s, s.flights[f].leader, f) && !s.callers[s.flights[f].leader].phase.Settling?
  }

  /** A leader owns its flight, unsettled, and keeps it registered until cleanup or scope close. */
  ghost predicate LeaderOk<V>(s: State<V>, c: nat) {
    c in s.callers && s.callers[c].Working? ==>
      var w := s.callers[c];
      && Works(s, c)
      && (w.flight.Some? ==> s.flights[w.flight.value] == FlightState(w.table, w.key, c, None))
      && (w.flight.Some? && !w.phase.Settling? && s.tables[w.table].live ==>
            w.key in s.tables[w.table].flights && s.tables[w.table].flights[w.key] == w.flight.value)
  }

  /** An unsettled flight has a leader at work on it. */
  ghost predicate FlightOk<V>(s: State<V>, f: nat) {
    f in s.flights && s.flights[f].result.None? ==> Leads(s, s.flights[f].leader, f)
  }

  /** Whoever shared a flight returned its result. */
  ghost predicate ResultOk<V>(s: State<V>, c: nat) {
    c in s.callers && !s.callers[c].Working? ==>
      match s.callers[c]
      case Following(f) => f in s.flights
      case Done(t, key, flight, r) =>
        flight.Some? ==>
          flight.value in s.flights
          && s.flights[flight.value] == FlightState(t, key, s.flights[flight.value].leader, Some(r))
  }

  ghost predicate ScopeOk<V>(s: State<V>, t: nat) {
    t in s.tables ==>
      && s.tables[t].request == (t != PROCESS)
      && (!s.tables[t].live ==> s.tables[t].memo == map[] && s.tables[t].flights == map[])
  }

  ghost predicate Inv<V>(s: State<V>) {
    && (forall t, key :: EntryOk(s, t, key))
    && (forall c :: LeaderOk(s, c))
    && (forall f :: FlightOk(s, f))
    && (forall c :: ResultOk(s, c))
    && (forall t :: ScopeOk(s, t))
  }

  /** The facts about the acting caller that its own step relies on. */
  ghost predicate ActorOk<V>(s: State<V>, l: Label<V>) {
    match l
    case Open(_) => true
    case Close(_) => true
    case Enter(c, t, key, _, _) => EntryOk(s, t, key)
    case Lookup(c) => LeaderOk(s, c)
    case Loaded(c, _) => LeaderOk(s, c)
    case Publish(c) => LeaderOk(s, c)
    case Drop(c, _) => LeaderOk(s, c)
    case Finish(c) => true
    case Unregister(c) => LeaderOk(s, c) && (c in s.callers && s.callers[c].Working? ==> ScopeOk(s, s.callers[c].table))
    case Settle(c) => LeaderOk(s, c)
    case Receive(c) => ResultOk(s, c)
  }

  /** Steps taken by a working caller. */
  predicate WorkStep<V>(l: Label<V>) {
    l.Lookup? || l.Loaded? || l.Publish? || l.Drop? || CleanStep(l)
  }

  predicate CleanStep<V>(l: Label<V>) {
    l.Unregister? || l.Settle?
  }

  lemma MoveEntry<V>(s: State<V>, l: Label<V>, t: nat, key: string)
    requires WorkStep(l) && !CleanStep(l) && Enabled(s, l) && ActorOk(s, l) && EntryOk(s, t, key)
    ensures EntryOk(Step(s, l), t, key)
  {
  }

  lemma CleanEntry<V>(s: State<V>, l: Label<V>, t: nat, key: string)
    requires CleanStep(l) && Enabled(s, l) && ActorOk(s, l) && EntryOk(s, t, key)
    ensures EntryOk(Step(s, l), t, key)
  {
  }

  lemma EnterEntry<V>(s: State<V>, l: Label<V>, t: nat, key: string)
    requires l.Enter? && Enabled(s, l) && ActorOk(s, l) && EntryOk(s, t, key)
    ensures EntryOk(Step(s, l), t, key)
  {
  }

  lemma TableEntry<V>(s: State<V>, l: Label<V>, t: nat, key: string)
    requires (l.Open? || l.Close? || l.Receive?) && Enabled(s, l) && ActorOk(s, l) && EntryOk(s, t, key)
    ensures EntryOk(Step(s, l), t, key)
  {
  }

  lemma MoveLeader<V>(s: State<V>, l: Label<V>, c: nat)
    requires WorkStep(l) && !CleanStep(l) && Enabled(s, l) && ActorOk(s, l) && LeaderOk(s, c)
    ensures LeaderOk(Step(s, l), c)
  {
  }

  lemma CleanLeader<V>(s: State<V>, l: Label<V>, c: nat)
    requires CleanStep(l) && Enabled(s, l) && ActorOk(s, l) && LeaderOk(s, c)
    ensures LeaderOk(Step(s, l), c)
  {
  }

  lemma TableLeader<V>(s: State<V>, l: Label<V>, c: nat)
    requires !WorkStep(l) && !l.Finish? && Enabled(s, l) && ActorOk(s, l) && LeaderOk(s, c)
    ensures LeaderOk(Step(s, l), c)
  {
  }

  lemma WorkFlight<V>(s: State<V>, l: Label<V>, f: nat)
    requires WorkStep(l) && Enabled(s, l) && ActorOk(s, l) && FlightOk(s, f)
    ensures FlightOk(Step(s, l), f)
  {
  }

  lemma TableFlight<V>(s: State<V>, l: Label<V>, f: nat)
    requires !WorkStep(l) && !l.Finish? && Enabled(s, l) && ActorOk(s, l) && FlightOk(s, f)
    ensures FlightOk(Step(s, l), f)
  {
  }

  lemma StepResult<V>(s: State<V>, l: Label<V>, c: nat)
    requires !l.Finish? && Enabled(s, l) && ActorOk(s, l) && ResultOk(s, c)
    ensures ResultOk(Step(s, l), c)
  {
  }

  lemma StepScope<V>(s: State<V>, l: Label<V>, t: nat)
    requires !l.Finish? && Enabled(s, l) && ScopeOk(s, t)
    ensures ScopeOk(Step(s, l), t)
  {
  }

  /** Cleanup and settlement in one critical section are the two separate steps in a row. */
  lemma FinishIsTwoSteps<V>(s: State<V>, c: nat)
    requires Enabled(s, Finish(c))
    ensures Enabled(s, Unregister(c)) && Enabled(Step(s, Unregister(c)), Settle(c))
    ensures Step(Step(s, Unregister(c)), Settle(c)) == Step(s, Finish(c))
  {
    assert Step(Step(s, Unregister(c)), Settle(c)).callers == Step(s, Finish(c)).callers;
  }

  lemma SmallStepKeepsInv<V>(s: State<V>, l: Label<V>)
    requires Inv(s) && Enabled(s, l) && !l.Finish?
    ensures Inv(Step(s, l))
  {
    assert ActorOk(s, l);
    assert !WorkStep(l) ==> l.Enter? || l.Open? || l.Close? || l.Receive?;
    assert CleanStep(l) ==> WorkStep(l);
    hide ActorOk, WorkStep, CleanStep, EntryOk, LeaderOk, FlightOk, ResultOk, ScopeOk, Step, Enabled;
    forall t, key ensures EntryOk(Step(s, l), t, key) {
      if CleanStep(l) {
        CleanEntry(s, l, t, key);
      } else if WorkStep(l) {
        MoveEntry(s, l, t, key);
      } else if l.Enter? {
        EnterEntry(s, l, t, key);
      } else {
        TableEntry(s, l, t, key);
      }
    }
    forall c ensures LeaderOk(Step(s, l), c) && ResultOk(Step(s, l), c) {
      StepResult(s, l, c);
      if CleanStep(l) {
        CleanLeader(s, l, c);
      } else if WorkStep(l) {
        MoveLeader(s, l, c);
      } else {
        TableLeader(s, l, c);
      }
    }
    forall f ensures FlightOk(Step(s, l), f) && ScopeOk(Step(s, l), f) {
      StepScope(s, l, f);
      if WorkStep(l) { WorkFlight(s, l, f); } else { TableFlight(s, l, f); }
    }
  }

  lemma StepKeepsInv<V>(s: State<V>, l: Label<V>)
    requires Inv(s) && Enabled(s, l)
    ensures Inv(Step(s, l))
  {
    hide Inv, Step, Enabled;
    if l.Finish? {
      FinishIsTwoSteps(s, l.caller);
      SmallStepKeepsInv(s, Unregister(l.caller));
      SmallStepKeepsInv(Step(s, Unregister(l.caller)), Settle(l.caller));
    } else {
      SmallStepKeepsInv(s, l);
    }
  }

  lemma {:induction false} RunInv<V>(labels: seq<Label<V>>)
    requires Run(labels).Some?
    ensures Inv(Run(labels).value)
  {
    hide Inv, Step, Enabled;
    if labels == [] {
      InitInv<V>();
    } else {
      RunInv(labels[..|labels| - 1]);
      StepKeepsInv(Run(labels[..|labels| - 1]).value, labels[|labels| - 1]);
    }
  }

  lemma InitInv<V>()
    ensures Inv(Init<V>())
  {
  }

  // ------------------------------------------------------------------ theorems

  /** At most one call per table and key is executing in a live table; everyone else follows or runs alone. */
  lemma AtMostOneLeader<V>(labels: seq<Label<V>>, c: nat, d: nat)
    requires Run(labels).Some?
    requires c in Run(labels).value.callers && Executes(Run(labels).value, c)
    requires d in Run(labels).value.callers && Executes(Run(labels).value, d)
    requires Run(labels).value.callers[c].table == Run(labels).value.callers[d].table
    requires Run(labels).value.callers[c].key == Run(labels).value.callers[d].key
    ensures c == d
  {
    RunInv(labels);
    var s := Run(labels).value;
    assert LeaderOk(s, c) && LeaderOk(s, d);
  }

  /** c leads a flight of a live table and has not yet cleaned up. */
  predicate Executes<V>(s: State<V>, c: nat)
    requires c in s.callers
  {
    Works(s, c) && s.callers[c].flight.Some? && !s.callers[c].phase.Settling? && s.tables[s.callers[c].table].live
  }

  /** A caller that joins, joins an unsettled flight of its own table and key whose leader is at work. */
  lemma JoinsOnlyUnsettled<V>(labels: seq<Label<V>>, c: nat, t: nat, key: string, f: nat)
    requires Run(labels).Some? && Enabled(Run(labels).value, Enter(c, t, key, true, f))
    ensures var s := Run(labels).value;
            Decide(s.tables[t], key, true).Join? ==>
              var g := s.tables[t].flights[key];
              && Step(s, Enter(c, t, key, true, f)).callers[c] == Following(g)
              && g in s.flights && s.flights[g] == FlightState(t, key, s.flights[g].leader, None)
              && Leads(s, s.flights[g].leader, g)
  {
    RunInv(labels);
    assert EntryOk(Run(labels).value, t, key);
  }

  /** d executes key in table t. */
  predicate ExecutesKey<V>(s: State<V>, d: nat, t: nat, key: string) {
    d in s.callers && Executes(s, d) && s.callers[d].table == t && s.callers[d].key == key
  }

  /**
   * What a new caller becomes, exactly: with coalescing in a live table it follows whoever executes the
   * key and leads, executing it, when nobody does; without coalescing or after close it works alone.
   */
  lemma EnterExactly<V>(labels: seq<Label<V>>, c: nat, t: nat, key: string, coalesce: bool, f: nat)
    requires Run(labels).Some? && Enabled(Run(labels).value, Enter(c, t, key, coalesce, f))
    ensures var s := Run(labels).value;
            var after := Step(s, Enter(c, t, key, coalesce, f));
            && (coalesce && s.tables[t].live ==>
                  forall d :: ExecutesKey(s, d, t, key) ==> after.callers[c] == Following(s.callers[d].flight.value))
            && (coalesce && s.tables[t].live && (forall d :: !ExecutesKey(s, d, t, key)) ==>
                  after.callers[c] == Working(t, key, Some(f), Running) && ExecutesKey(after, c, t, key))
            && (!coalesce || !s.tables[t].live ==> after.callers[c] == Working(t, key, None, Running))
  {
    RunInv(labels);
    var s := Run(labels).value;
    hide Run;
    forall d | ExecutesKey(s, d, t, key) && coalesce
      ensures Decide(s.tables[t], key, coalesce) == Join(s.callers[d].flight.value)
    {
      assert LeaderOk(s, d);
    }
    assert EntryOk(s, t, key);
    if key in s.tables[t].flights && s.tables[t].live {
      var leader := s.flights[s.tables[t].flights[key]].leader;
      assert LeaderOk(s, leader);
      assert ExecutesKey(s, leader, t, key);
    }
    hide Inv, LeaderOk, EntryOk;
  }

  /** The step of one caller, of its entry or of a scope leaves every other caller where it is. */
  lemma OthersKeepCaller<V>(s: State<V>, l: Label<V>, c: nat)
    requires Enabled(s, l) && c in s.callers && (l.Open? || l.Close? || l.caller != c)
    ensures c in Step(s, l).callers && Step(s, l).callers[c] == s.callers[c]
  {
  }

  /** The table of caller c after its load returned r: a value is remembered in a live scope, an error nowhere. */
  predicate RemembersLoad<V(==)>(before: Table<nat, V>, after: Table<nat, V>, key: string, r: Result<V>) {
    && (r.Value? && before.request && before.live ==> after.live && Remembered(after, key) == Some(r.value))
    && (r.Error? || !before.request || !before.live ==> after.memo == before.memo)
    && after.memo - {key} == before.memo - {key}
  }

  /** c is done with result r, and so is its flight if it led one. */
  ghost predicate Settles<V>(s: State<V>, c: nat, w: Caller<V>, r: Result<V>)
    requires w.Working?
  {
    && c in s.callers && s.callers[c] == Done(w.table, w.key, w.flight, r)
    && (w.flight.Some? ==> w.flight.value in s.flights && s.flights[w.flight.value].result == Some(r))
  }

  /** Whatever a load returns, value or error, is what the caller and its flight settle with. */
  lemma LoadedResultIsReturned<V>(s: State<V>, c: nat, r: Result<V>)
    requires Works(s, c) && s.callers[c].phase.Loading?
    ensures var w := s.callers[c];
            var loaded := Step(s, Loaded(c, r));
            && (r.Value? ==> Enabled(loaded, Publish(c)))
            && var ready := if r.Value? then Step(loaded, Publish(c)) else loaded;
            && Enabled(ready, Finish(c)) && Settles(Step(ready, Finish(c)), c, w, r)
            && w.table in Step(ready, Finish(c)).tables
            && RemembersLoad(s.tables[w.table], Step(ready, Finish(c)).tables[w.table], w.key, r)
  {
  }

  /** A lookup that finds a value ends the call with it and loads nothing; a dropped call settles with its error. */
  lemma LookupAndDrop<V>(s: State<V>, c: nat, code: nat)
    requires Works(s, c)
    ensures var w := s.callers[c];
            && (w.phase.Running? ==>
                  var found := Remembered(s.tables[w.table], w.key);
                  && (found.None? ==> Step(s, Lookup(c)).callers[c] == w.(phase := Loading))
                  && (found.Some? ==>
                        && Enabled(Step(s, Lookup(c)), Finish(c))
                        && Settles(Step(Step(s, Lookup(c)), Finish(c)), c, w, Value(found.value))))
            && (w.phase.Running? || w.phase.Loading? || w.phase.Publishing? ==>
                  && Enabled(Step(s, Drop(c, code)), Finish(c))
                  && Settles(Step(Step(s, Drop(c, code)), Finish(c)), c, w, Error(code)))
  {
  }

  /** Leader and followers of one flight all return the same result. */
  lemma SharedResult<V>(labels: seq<Label<V>>, c: nat, d: nat)
    requires Run(labels).Some?
    requires c in Run(labels).value.callers && Run(labels).value.callers[c].Done?
    requires d in Run(labels).value.callers && Run(labels).value.callers[d].Done?
    requires Run(labels).value.callers[c].flight.Some?
    requires Run(labels).value.callers[d].flight == Run(labels).value.callers[c].flight
    ensures Run(labels).value.callers[c] == Run(labels).value.callers[d]
  {
    RunInv(labels);
    assert ResultOk(Run(labels).value, c) && ResultOk(Run(labels).value, d);
  }

  /** Cleanup by c never removes a flight that another caller leads. */
  lemma CleanupOnlyOwn<V>(labels: seq<Label<V>>, c: nat, l: Label<V>, t: nat, key: string)
    requires Run(labels).Some? && Enabled(Run(labels).value, l) && (l == Finish(c) || l == Unregister(c))
    requires t in Run(labels).value.tables && key in Run(labels).value.tables[t].flights
    ensures var s := Run(labels).value;
            var f := s.tables[t].flights[key];
            && f in s.flights
            && (s.flights[f].leader != c ==> Step(s, l).tables[t].flights[key := f] == Step(s, l).tables[t].flights)
            && (s.flights[f].leader == c ==> key !in Step(s, l).tables[t].flights)
  {
    RunInv(labels);
    var s := Run(labels).value;
    assert EntryOk(s, t, key) && LeaderOk(s, c);
  }

  /** A follower's flight is settled, so it can return, or has a leader that can take a step. */
  lemma FollowersNeverStuck<V>(labels: seq<Label<V>>, c: nat)
    requires Run(labels).Some? && c in Run(labels).value.callers && Run(labels).value.callers[c].Following?
    ensures var s := Run(labels).value;
            var f := s.callers[c].joined;
            && f in s.flights
            && (s.flights[f].result.Some? ==> Enabled(s, Receive(c)))
            && (s.flights[f].result.None? ==> Leads(s, s.flights[f].leader, f) && CanStep(s, s.flights[f].leader))
  {
    RunInv(labels);
    var s := Run(labels).value;
    assert ResultOk(s, c);
    assert FlightOk(s, s.callers[c].joined);
  }

  predicate CanStep<V>(s: State<V>, c: nat) {
    Enabled(s, Lookup(c)) || Enabled(s, Loaded(c, Error(0))) || Enabled(s, Publish(c)) || Enabled(s, Finish(c))
    || Enabled(s, Settle(c))
  }

  lemma RunSnoc<V>(labels: seq<Label<V>>, l: Label<V>)
    ensures Run(labels).Some? && Enabled(Run(labels).value, l) <==> Run(labels + [l]).Some?
    ensures Run(labels + [l]).Some? ==> Run(labels + [l]) == Some(Step(Run(labels).value, l))
  {
    assert (labels + [l])[..|labels|] == labels;
  }

  lemma {:induction false} ClosedStaysClosed<V>(labels: seq<Label<V>>, more: seq<Label<V>>, t: nat)
    requires Run(labels + more).Some? && Run(labels).Some?
    requires t in Run(labels).value.tables && !Run(labels).value.tables[t].live
    ensures t in Run(labels + more).value.tables && !Run(labels + more).value.tables[t].live
    decreases |more|
  {
    hide *;
    if more == [] {
      assert labels + more == labels;
    } else {
      var head, last := more[..|more| - 1], more[|more| - 1];
      assert labels + more == labels + head + [last];
      RunSnoc(labels + head, last);
      ClosedStaysClosed(labels, head, t);
      StaysClosed(Run(labels + head).value, last, t);
    }
  }

  /** From the step that closes a scope, nothing is ever published or registered in it again. */
  lemma ClosedStaysEmpty<V>(labels: seq<Label<V>>, more: seq<Label<V>>, t: nat)
    requires Run(labels + [Close(t)] + more).Some?
    ensures t in Run(labels + [Close(t)] + more).value.tables
    ensures Run(labels + [Close(t)] + more).value.tables[t] == Table(true, false, map[], map[])
  {
    RunPrefix(labels + [Close(t)], more);
    RunSnoc(labels, Close(t));
    DeadStaysEmpty(labels + [Close(t)], more, t);
    hide Run;
  }

  lemma DeadStaysEmpty<V>(labels: seq<Label<V>>, more: seq<Label<V>>, t: nat)
    requires Run(labels + more).Some? && Run(labels).Some?
    requires t in Run(labels).value.tables && !Run(labels).value.tables[t].live
    ensures t in Run(labels + more).value.tables
    ensures Run(labels + more).value.tables[t] == Table(t != PROCESS, false, map[], map[])
  {
    ClosedStaysClosed(labels, more, t);
    RunInv(labels + more);
    assert ScopeOk(Run(labels + more).value, t);
  }

  lemma {:induction false} RunPrefix<V>(labels: seq<Label<V>>, more: seq<Label<V>>)
    requires Run(labels + more).Some?
    ensures Run(labels).Some?
    decreases |more|
  {
    hide *;
    if more == [] {
      assert labels + more == labels;
    } else {
      var head, last := more[..|more| - 1], more[|more| - 1];
      assert labels + more == labels + head + [last];
      RunSnoc(labels + head, last);
      RunPrefix(labels, head);
    }
  }

  lemma StaysClosed<V>(s: State<V>, l: Label<V>, t: nat)
    requires Enabled(s, l) && t in s.tables && !s.tables[t].live
    ensures t in Step(s, l).tables && !Step(s, l).tables[t].live
  {
  }

  // ------------------------------------------------ agreement within one request

  /** The live scope t remembers v for the key. */
  ghost predicate Holds<V>(s: State<V>, t: nat, key: string, v: V)
    requires t in s.tables
  {
    s.tables[t].live && s.tables[t].request ==> key in s.tables[t].memo && s.tables[t].memo[key] == v
  }

  /** Where everyone coalesces on a key: no load while remembered, every value returned is the remembered one. */
  ghost predicate CallerAgrees<V>(s: State<V>, c: nat) {
    c in s.callers ==>
      match s.callers[c]
      case Working(t, key, flight, phase) =>
        && t in s.tables
        && ((t, key) !in s.mixed ==>
              && (s.tables[t].live && s.tables[t].request ==> flight.Some?)
              && (s.tables[t].live && (phase.Loading? || phase.Publishing?) ==> key !in s.tables[t].memo)
              && ((phase.Finishing? || phase.Settling?) && phase.result.Value? ==>
                    Holds(s, t, key, phase.result.value)))
      case Following(_) => true
      case Done(t, key, _, r) => t in s.tables && ((t, key) !in s.mixed && r.Value? ==> Holds(s, t, key, r.value))
  }

  ghost predicate FlightAgrees<V>(s: State<V>, f: nat) {
    f in s.flights ==>
      var g := s.flights[f];
      && g.table in s.tables
      && ((g.table, g.key) !in s.mixed && g.result.Some? && g.result.value.Value? ==>
            Holds(s, g.table, g.key, g.result.value.value))
  }

  ghost predicate Agreement<V>(s: State<V>) {
    (forall c :: CallerAgrees(s, c)) && (forall f :: FlightAgrees(s, f))
  }

  ghost predicate ActorAgrees<V>(s: State<V>, l: Label<V>) {
    match l
    case Lookup(c) => LeaderOk(s, c) && CallerAgrees(s, c)
    case Loaded(c, _) => LeaderOk(s, c) && CallerAgrees(s, c)
    case Publish(c) => LeaderOk(s, c) && CallerAgrees(s, c)
    case Drop(c, _) => LeaderOk(s, c) && CallerAgrees(s, c)
    case Unregister(c) => LeaderOk(s, c) && CallerAgrees(s, c)
    case Settle(c) => LeaderOk(s, c) && CallerAgrees(s, c)
    case Receive(c) => c in s.callers && s.callers[c].Following? ==> FlightAgrees(s, s.callers[c].joined)
    case _ => true
  }

  lemma PublishCallerAgrees<V>(s: State<V>, b: nat, c: nat)
    requires Enabled(s, Publish(b)) && ActorAgrees(s, Publish(b)) && CallerAgrees(s, c) && LeaderOk(s, c)
    requires WorkerScopeOk(s, Publish(b))
    ensures CallerAgrees(Step(s, Publish(b)), c)
  {
  }

  lemma MoveCallerAgrees<V>(s: State<V>, l: Label<V>, c: nat)
    requires WorkStep(l) && !CleanStep(l) && !l.Publish? && Enabled(s, l)
    requires ActorAgrees(s, l) && CallerAgrees(s, c) && LeaderOk(s, c)
    ensures CallerAgrees(Step(s, l), c)
  {
  }

  lemma CleanCallerAgrees<V>(s: State<V>, l: Label<V>, c: nat)
    requires CleanStep(l) && Enabled(s, l) && ActorAgrees(s, l) && CallerAgrees(s, c) && LeaderOk(s, c)
    ensures CallerAgrees(Step(s, l), c)
  {
  }

  ghost predicate WorkerScopeOk<V>(s: State<V>, l: Label<V>)
    requires WorkStep(l) && Enabled(s, l)
  {
    ScopeOk(s, s.callers[l.caller].table)
  }

  lemma TableCallerAgrees<V>(s: State<V>, l: Label<V>, c: nat)
    requires !WorkStep(l) && !l.Finish? && Enabled(s, l) && ActorAgrees(s, l) && CallerAgrees(s, c) && LeaderOk(s, c)
    ensures CallerAgrees(Step(s, l), c)
  {
  }

  lemma StepFlightAgrees<V>(s: State<V>, l: Label<V>, f: nat)
    requires !l.Finish? && Enabled(s, l) && ActorAgrees(s, l) && FlightAgrees(s, f)
    ensures FlightAgrees(Step(s, l), f)
  {
  }

  lemma SmallStepAgrees<V>(s: State<V>, l: Label<V>)
    requires Inv(s) && Agreement(s) && Enabled(s, l) && !l.Finish?
    ensures Agreement(Step(s, l))
  {
    assert ActorAgrees(s, l);
    assert WorkStep(l) ==> WorkerScopeOk(s, l);
    assert l.Publish? ==> WorkStep(l);
    hide ActorAgrees, WorkerScopeOk, WorkStep, CleanStep, CallerAgrees, FlightAgrees, Step, Enabled;
    hide EntryOk, LeaderOk, FlightOk, ResultOk, ScopeOk;
    forall c ensures CallerAgrees(Step(s, l), c) {
      if l.Publish? {
        PublishCallerAgrees(s, l.caller, c);
      } else if CleanStep(l) {
        CleanCallerAgrees(s, l, c);
      } else if WorkStep(l) {
        MoveCallerAgrees(s, l, c);
      } else {
        TableCallerAgrees(s, l, c);
      }
    }
    forall f ensures FlightAgrees(Step(s, l), f) { StepFlightAgrees(s, l, f); }
  }

  lemma {:induction false} RunAgrees<V>(labels: seq<Label<V>>)
    requires Run(labels).Some?
    ensures Agreement(Run(labels).value)
  {
    hide Inv, Agreement, Step, Enabled;
    if labels == [] {
      InitAgrees<V>();
    } else {
      var before, l := Run(labels[..|labels| - 1]).value, labels[|labels| - 1];
      RunAgrees(labels[..|labels| - 1]);
      RunInv(labels[..|labels| - 1]);
      if l.Finish? {
        FinishIsTwoSteps(before, l.caller);
        SmallStepAgrees(before, Unregister(l.caller));
        SmallStepKeepsInv(before, Unregister(l.caller));
        SmallStepAgrees(Step(before, Unregister(l.caller)), Settle(l.caller));
      } else {
        SmallStepAgrees(before, l);
      }
    }
  }

  lemma InitAgrees<V>()
    ensures Agreement(Init<V>())
  {
  }

  /**
   * All successful calls of a key in one live request scope return one value, the remembered one,
   * as long as every caller of that key in that scope coalesces; other scopes and keys are free.
   */
  lemma RequestAgrees<V>(labels: seq<Label<V>>, c: nat, d: nat)
    requires Run(labels).Some? && Succeeded(Run(labels).value, c) && Succeeded(Run(labels).value, d)
    requires Run(labels).value.callers[c].table == Run(labels).value.callers[d].table
    requires Run(labels).value.callers[c].key == Run(labels).value.callers[d].key
    requires (Run(labels).value.callers[c].table, Run(labels).value.callers[c].key) !in Run(labels).value.mixed
    ensures var s := Run(labels).value;
            && s.callers[c].result == s.callers[d].result
            && Remembered(s.tables[s.callers[c].table], s.callers[c].key) == Some(s.callers[c].result.value)
  {
    RunAgrees(labels);
    assert CallerAgrees(Run(labels).value, c) && CallerAgrees(Run(labels).value, d);
  }

  /** c returned a value in a request scope that is still live. */
  predicate Succeeded<V>(s: State<V>, c: nat) {
    && c in s.callers && s.callers[c].Done? && s.callers[c].result.Value?
    && s.callers[c].table in s.tables && s.tables[s.callers[c].table].live && s.tables[s.callers[c].table].request
  }

  lemma Extend<V(!new)>(s: State<V>, l: Label<V>)
    requires Enabled(s, l) && Reached(s)
    ensures Reached(Step(s, l))
  {
    var labels :| Run(labels) == Some(s);
    RunSnoc(labels, l);
    assert Run(labels + [l]) == Some(Step(s, l));
  }

  ghost predicate Reached<V(!new)>(s: State<V>) {
    exists labels :: Run(labels) == Some(s)
  }

  /** A live scope t where caller 1 loads key alone while caller 2 leads a flight for it. */
  function TwoLoads<V>(t: nat, key: string): State<V>
    requires t != PROCESS
  {
    State(map[PROCESS := Table(false, true, map[], map[]), t := Table(true, true, map[], map[key := 7])],
          map[7 := FlightState(t, key, 2, None)],
          map[1 := Working(t, key, None, Loading), 2 := Working(t, key, Some(7), Loading)], {(t, key)})
  }

  lemma TwoLoadsReached<V(!new)>(t: nat, key: string)
    requires t != PROCESS
    ensures Reached(TwoLoads<V>(t, key))
  {
    hide Reached, Run;
    InitReached<V>();
    var s := Init<V>();
    Extend(s, Open(t));
    s := Step(s, Open(t));
    Extend(s, Enter(1, t, key, false, 7));
    s := Step(s, Enter(1, t, key, false, 7));
    Extend(s, Lookup(1));
    s := Step(s, Lookup(1));
    Extend(s, Enter(2, t, key, true, 7));
    s := Step(s, Enter(2, t, key, true, 7));
    Extend(s, Lookup(2));
    s := Step(s, Lookup(2));
    assert s == TwoLoads(t, key);
  }

  lemma InitReached<V(!new)>()
    ensures Reached(Init<V>())
  {
    assert Run<V>([]) == Some(Init());
  }

  /** Both callers of t and key are done, with a and b, and nothing else was entered uncoalesced. */
  ghost predicate Answered<V>(s: State<V>, t: nat, key: string, a: V, b: V) {
    && s.mixed == {(t, key)} && Succeeded(s, 1) && Succeeded(s, 2)
    && s.callers[1] == Done(t, key, None, Value(a)) && s.callers[2] == Done(t, key, Some(7), Value(b))
  }

  /**
   * The condition cannot be dropped: for every request scope, every key and any two values, one
   * uncoalesced caller is enough for two successful calls of the live scope to return them.
   */
  lemma UncoalescedCallersDisagree<V(!new)>(t: nat, key: string, a: V, b: V)
    requires t != PROCESS
    ensures exists s: State<V> :: Reached(s) && Answered(s, t, key, a, b)
  {
    TwoLoadsReached<V>(t, key);
    hide Reached;
    var s := TwoLoads<V>(t, key);
    Extend(s, Loaded(2, Value(b)));
    s := Step(s, Loaded(2, Value(b)));
    Extend(s, Publish(2));
    s := Step(s, Publish(2));
    Extend(s, Finish(2));
    s := Step(s, Finish(2));
    Extend(s, Loaded(1, Value(a)));
    s := Step(s, Loaded(1, Value(a)));
    Extend(s, Publish(1));
    s := Step(s, Publish(1));
    Extend(s, Finish(1));
    s := Step(s, Finish(1));
    assert Answered(s, t, key, a, b);
  }
}
