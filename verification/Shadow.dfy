/**
 * Shadow validation: bounded background jobs, one per key, that compare a cached frame with the
 * source and report one verdict each. Every interleaving of jobs, raw reads, deadlines and clock.
 */
module Shadow {
  import opened Base
  import opened Deadline
  import Frames

  datatype Verdict =
    | Dropped | Match | Mismatch | Superseded | Filled | FillFenced | FillError | Expired | RedisError
    | SourceError | DeserializationError | ComparisonError | ConfirmationError

  // ----------------------------------------------------------------- the slots

  predicate HasRoom(slots: map<string, nat>, capacity: nat, key: string) {
    key !in slots && |slots| < capacity
  }

  function Freed(slots: map<string, nat>, key: string, id: nat): map<string, nat> {
    if key in slots && slots[key] == id then slots - {key} else slots
  }

  /** The slot table; each method body runs under the cache lock. */
  class ShadowSlots {
    const capacity: nat
    var slots: map<string, nat>

    constructor (capacity: nat)
      ensures slots == map[] && this.capacity == capacity
    {
      this.capacity, slots := capacity, map[];
    }

    method Admit(key: string, id: nat) returns (admitted: bool)
      modifies this
      ensures admitted == HasRoom(old(slots), capacity, key)
      ensures slots == if admitted then old(slots)[key := id] else old(slots)
    {
      if key in slots || |slots| >= capacity {
        return false;
      }
      slots := slots[key := id];
      return true;
    }

    method Release(key: string, id: nat)
      modifies this
      ensures slots == Freed(old(slots), key, id)
    {
      if key in slots && slots[key] == id {
        slots := slots - {key};
      }
    }
  }

  // ------------------------------------------------------------------- one job

  datatype Stage =
    | Deferred
    | Ready
    | Reading
    | Sourcing(fill: bool)
    | Encoding
    | Writing
    | Decoding
    | Comparing
    | Confirming
    | Finished(verdict: Verdict)

  /**
   * A job whose source was started by the serving call (dark) reads Redis first; the others start
   * from the frame that was served. last, equal, confirmed, starts, writes and reportedAt are history.
   */
  datatype Job = Job(
    key: string, dark: bool, started: int, budget: nat, stage: Stage, frame: Option<Frames.Frame>,
    abandoned: bool, issued: nat, settled: set<nat>, verdicts: seq<Verdict>, released: bool,
    last: Response, equal: Option<bool>, confirmed: Option<Frames.Frame>, starts: seq<int>, writes: nat,
    reportedAt: int)

  /** What the outside world answers to the stage a job is in. */
  datatype Response =
    | Proceed
    | ReadFailed | ReadMiss | ReadHit(frame: Frames.Frame)
    | SourceValue | SourceFailed(timedOut: bool) | Stopped
    | EncodeFailed | Fenced | Encoded | Written | WriteFailed
    | Decoded | DecodeFailed | Compared(equal: bool) | CompareFailed
    | Panicked

  predicate Late(j: Job, now: int) {
    j.abandoned || !InTime(j.started, j.budget, now)
  }

  /** The expiry check: a late job is abandoned and finishes as a timeout. */
  function Checked(j: Job, now: int, next: Job): Job {
    if Late(j, now) then j.(abandoned := true, stage := Finished(Expired)) else next
  }

  function End(j: Job, verdict: Verdict): Job {
    j.(stage := Finished(verdict))
  }

  function StartRead(j: Job, now: int, stage: Stage): Job {
    j.(stage := stage, issued := j.issued + 1, starts := j.starts + [now])
  }

  /** A read that returned a result has settled; one that failed may still be outstanding. */
  function ReadReturned(j: Job): Job {
    if j.issued == 0 then j else j.(settled := j.settled + {j.issued - 1})
  }

  predicate Answers(j: Job, r: Response) {
    match j.stage
    case Deferred => false
    case Finished(_) => false
    case Ready => r.Proceed? || r.Panicked?
    case Reading => r.ReadFailed? || r.ReadMiss? || r.ReadHit? || r.Panicked?
    case Sourcing(_) => r.SourceValue? || r.SourceFailed? || (r.Stopped? && j.dark && j.abandoned) || r.Panicked?
    case Encoding => r.EncodeFailed? || r.Fenced? || r.Encoded? || r.Panicked?
    case Writing => r.Written? || r.WriteFailed? || r.Panicked?
    case Decoding => r.Decoded? || r.DecodeFailed? || r.Panicked?
    case Comparing => r.Compared? || r.CompareFailed? || r.Panicked?
    case Confirming => r.ReadFailed? || r.ReadMiss? || r.ReadHit? || r.Panicked?
  }

  function AfterReading(j: Job, now: int, r: Response): Job {
    match r
    case ReadFailed => End(j, RedisError)
    case ReadMiss => Checked(ReadReturned(j), now, ReadReturned(j).(stage := Sourcing(true)))
    case ReadHit(frame) =>
      Checked(ReadReturned(j), now, ReadReturned(j).(stage := Sourcing(false), frame := Some(frame)))
    case _ => End(j, Expired)
  }

  function AfterSource(j: Job, now: int, fill: bool, r: Response): Job {
    match r
    case SourceValue =>
      Checked(j, now, if fill then j.(stage := Encoding)
                      else if j.frame.Some? then j.(stage := Decoding) else End(j, Expired))
    case SourceFailed(timedOut) => End(j, if j.dark && timedOut then Expired else SourceError)
    case _ => End(j, Expired)
  }

  function AfterFill(j: Job, now: int, r: Response): Job {
    match r
    case Encoded => Checked(j, now, j.(stage := Writing, starts := j.starts + [now]))
    case EncodeFailed => Checked(j, now, End(j, FillError))
    case Fenced => Checked(j, now, End(j, FillFenced))
    case Written => Checked(j.(writes := j.writes + 1), now, End(j.(writes := j.writes + 1), Filled))
    case WriteFailed => Checked(j, now, End(j, FillError))
    case _ => End(j, Expired)
  }

  function AfterCompare(j: Job, now: int, r: Response): Job {
    match r
    case Compared(equal) =>
      var k := j.(equal := Some(equal));
      Checked(k, now, if equal then End(k, Match) else StartRead(k, now, Confirming))
    case CompareFailed => End(j, ComparisonError)
    case _ => End(j, Expired)
  }

  function AfterConfirm(j: Job, now: int, r: Response): Job {
    match r
    case ReadFailed => End(j, ConfirmationError)
    case ReadMiss => Checked(ReadReturned(j), now, End(ReadReturned(j), Superseded))
    case ReadHit(frame) =>
      var k := ReadReturned(j).(confirmed := Some(frame));
      Checked(k, now, End(k, if j.frame.Some? && frame.payload == j.frame.value.payload then Mismatch else Superseded))
    case _ => End(j, Expired)
  }

  /** One stage of the validation, ending where it next has to wait. */
  function Advance(j: Job, now: int, r: Response): Job
    requires Answers(j, r)
  {
    Continue(j.(last := r), now, r)
  }

  function Continue(j: Job, now: int, r: Response): Job
    requires Answers(j, r)
  {
    match j.stage
    case Ready =>
      if r.Panicked? then End(j, Expired)
      else Checked(j, now, if j.dark then StartRead(j, now, Reading) else j.(stage := Sourcing(false)))
    case Reading => AfterReading(j, now, r)
    case Sourcing(fill) => AfterSource(j, now, fill, r)
    case Encoding => AfterFill(j, now, r)
    case Writing => AfterFill(j, now, r)
    case Decoding =>
      if r.Decoded? then Checked(j, now, j.(stage := Comparing))
      else End(j, if r.DecodeFailed? then DeserializationError else Expired)
    case Comparing => AfterCompare(j, now, r)
    case Confirming => AfterConfirm(j, now, r)
  }

  // ------------------------------------------------------------- interleavings

  datatype State = State(
    capacity: nat, now: int, slots: map<string, nat>, jobs: map<nat, Job>, dropped: set<nat>)

  datatype Label =
    | Tick(to: int)
    | Schedule(id: nat, key: string, dark: bool, started: int, budget: nat, frame: Option<Frames.Frame>)
    | Begin(id: nat)
    | Validate(id: nat, response: Response)
    | Report(id: nat)
    | TimeOut(id: nat)
    | ReadSettled(id: nat, index: nat)
    | Release(id: nat)

  predicate AllSettled(j: Job) {
    forall n | 0 <= n < j.issued :: n in j.settled
  }

  predicate Enabled(s: State, l: Label) {
    match l
    case Tick(to) => s.now <= to
    case Schedule(id, _, dark, _, _, frame) => id !in s.jobs && id !in s.dropped && dark == frame.None?
    case Begin(id) => id in s.jobs && s.jobs[id].stage.Deferred?
    case Validate(id, r) => id in s.jobs && Answers(s.jobs[id], r)
    case Report(id) =>
      && id in s.jobs && s.jobs[id].stage.Finished? && s.jobs[id].verdicts == []
      && InTime(s.jobs[id].started, s.jobs[id].budget, s.now)
    case TimeOut(id) =>
      && id in s.jobs && !s.jobs[id].stage.Deferred? && s.jobs[id].verdicts == []
      && !InTime(s.jobs[id].started, s.jobs[id].budget, s.now)
    case ReadSettled(id, n) => id in s.jobs && n < s.jobs[id].issued
    case Release(id) =>
      && id in s.jobs && s.jobs[id].stage.Finished? && AllSettled(s.jobs[id])
      && s.jobs[id].verdicts != [] && !s.jobs[id].released
  }

  function NewJob(key: string, dark: bool, started: int, budget: nat, frame: Option<Frames.Frame>): Job {
    Job(key, dark, started, budget, Deferred, frame, false, 0, {}, [], false, Proceed, None, None, [], 0, 0)
  }

  function JobStep(s: State, l: Label, j: Job): Job
    requires Enabled(s, l) && !l.Tick? && !l.Schedule? && j == s.jobs[l.id]
  {
    match l
    case Begin(_) => j.(stage := Ready, started := if j.dark then j.started else s.now)
    case Validate(_, r) => Advance(j, s.now, r)
    case Report(_) => j.(verdicts := j.verdicts + [j.stage.verdict], reportedAt := s.now)
    case TimeOut(_) => j.(verdicts := j.verdicts + [Expired], reportedAt := s.now, abandoned := true)
    case ReadSettled(_, n) => j.(settled := j.settled + {n})
    case Release(_) => j.(released := true)
  }

  function Step(s: State, l: Label): State
    requires Enabled(s, l)
  {
    match l
    case Tick(to) => s.(now := to)
    case Schedule(id, key, dark, started, budget, frame) =>
      if HasRoom(s.slots, s.capacity, key) then
        s.(slots := s.slots[key := id], jobs := s.jobs[id := NewJob(key, dark, started, budget, frame)])
      else s.(dropped := s.dropped + {id})
    case _ =>
      var t := s.(jobs := s.jobs[l.id := JobStep(s, l, s.jobs[l.id])]);
      if l.Release? then t.(slots := Freed(s.slots, s.jobs[l.id].key, l.id)) else t
  }

  function Run(capacity: nat, labels: seq<Label>): Option<State> {
    if labels == [] then Some(State(capacity, 0, map[], map[], {}))
    else
      var before := Run(capacity, labels[..|labels| - 1]);
      if before.None? || !Enabled(before.value, labels[|labels| - 1]) then None
      else Some(Step(before.value, labels[|labels| - 1]))
  }

  // ---------------------------------------------------------------- invariant

  /** What a reported or pending verdict rests on. */
  predicate Sound(j: Job, v: Verdict) {
    match v
    case Mismatch =>
      && j.equal == Some(false) && j.frame.Some? && j.confirmed.Some?
      && j.confirmed.value.payload == j.frame.value.payload
    case Match => j.equal == Some(true) && j.frame.Some?
    case Superseded =>
      && j.equal == Some(false) && j.frame.Some?
      && (if j.confirmed.Some? then j.confirmed.value.payload != j.frame.value.payload else j.last.ReadMiss?)
    case ConfirmationError => j.equal == Some(false) && j.last.ReadFailed?
    case Filled => j.writes == 1 && j.dark && j.frame.None? && j.last.Written?
    case FillFenced => j.writes == 0 && j.dark && j.frame.None? && j.last.Fenced?
    case FillError => j.writes == 0 && j.dark && j.frame.None? && (j.last.EncodeFailed? || j.last.WriteFailed?)
    case RedisError => j.writes == 0 && j.dark && j.last.ReadFailed? && j.equal.None?
    case SourceError => j.last.SourceFailed?
    case DeserializationError => j.last.DecodeFailed?
    case ComparisonError => j.last.CompareFailed?
    case Dropped => false
    case Expired => j.abandoned || j.last.Panicked? || (j.dark && j.last == SourceFailed(true))
  }

  predicate AllInTime(j: Job) {
    forall i | 0 <= i < |j.starts| :: InTime(j.started, j.budget, j.starts[i])
  }

  predicate StageOk(j: Job) {
    match j.stage
    case Deferred =>
      j.starts == [] && j.issued == 0 && j.verdicts == [] && j.equal.None? && !j.abandoned && j.dark == j.frame.None?
    case Ready => j.starts == [] && j.issued == 0 && j.equal.None? && j.dark == j.frame.None?
    case Reading => j.dark && j.equal.None? && j.frame.None?
    case Sourcing(fill) => fill == j.frame.None? && (fill ==> j.dark)
    case Encoding => j.dark && j.frame.None?
    case Writing => j.dark && j.frame.None?
    case Decoding => j.frame.Some?
    case Comparing => j.frame.Some?
    case Confirming => j.frame.Some? && j.equal == Some(false)
    case Finished(v) => Sound(j, v)
  }

  predicate VerdictOk(j: Job) {
    && |j.verdicts| <= 1
    && (j.verdicts != [] && j.verdicts[0] != Expired ==>
          && j.stage == Finished(j.verdicts[0]) && Sound(j, j.verdicts[0])
          && InTime(j.started, j.budget, j.reportedAt))
    && (j.verdicts == [Expired] ==> j.stage == Finished(Expired) || !InTime(j.started, j.budget, j.reportedAt))
    && (j.released ==> j.stage.Finished? && |j.verdicts| == 1 && AllSettled(j))
    && (!j.stage.Finished? ==> j.writes == 0 && j.confirmed.None?)
  }

  predicate JobOk(j: Job) {
    AllInTime(j) && StageOk(j) && VerdictOk(j)
  }

  predicate HeldOk(s: State, id: nat) {
    id in s.jobs ==>
      && JobOk(s.jobs[id])
      && (s.jobs[id].abandoned ==> !InTime(s.jobs[id].started, s.jobs[id].budget, s.now))
      && (s.jobs[id].verdicts != [] ==> s.jobs[id].reportedAt <= s.now)
      && (!s.jobs[id].released ==> s.jobs[id].key in s.slots && s.slots[s.jobs[id].key] == id)
  }

  predicate SlotOk(s: State, key: string) {
    key in s.slots ==> s.slots[key] in s.jobs && s.jobs[s.slots[key]].key == key && !s.jobs[s.slots[key]].released
  }

  /** The jobs still holding a slot. */
  function Holding(s: State): set<nat> {
    Unreleased(s.jobs)
  }

  function Unreleased(jobs: map<nat, Job>): set<nat> {
    set id | id in jobs && !jobs[id].released
  }

  ghost predicate Inv(s: State) {
    && (forall id: nat :: HeldOk(s, id))
    && (forall key :: SlotOk(s, key))
    && |s.slots| == |Holding(s)| <= s.capacity
  }

  /** What one stage of validation may change. */
  predicate Follows(j: Job, k: Job, now: int) {
    && k.key == j.key && k.dark == j.dark && k.started == j.started && k.budget == j.budget
    && k.verdicts == j.verdicts && k.released == j.released && k.reportedAt == j.reportedAt
    && (k.starts == j.starts || (!Late(j, now) && k.starts == j.starts + [now]))
    && (j.writes == 0 && j.confirmed.None? && StageOk(j) ==> StageOk(k))
    && ((k.writes == j.writes && k.confirmed == j.confirmed) || k.stage.Finished?)
    && (k.abandoned ==> Late(j, now))
    && (j.abandoned ==> k.abandoned && k.stage.Finished? && k.starts == j.starts && k.issued == j.issued)
  }

  lemma ReadingHitFollows(j: Job, now: int, r: Response)
    requires j.stage.Reading? && r.ReadHit? && j.last == r
    ensures Follows(j, AfterReading(j, now, r), now)
  {
    hide InTime;
  }

  lemma ReadingFollows(j: Job, now: int, r: Response)
    requires j.stage.Reading? && Answers(j, r) && j.last == r
    ensures Follows(j, AfterReading(j, now, r), now)
  {
    hide InTime;
    if r.ReadHit? {
      hide AfterReading, Follows;
      ReadingHitFollows(j, now, r);
    }
  }

  lemma SourceFollows(j: Job, now: int, r: Response)
    requires j.stage.Sourcing? && Answers(j, r) && j.last == r
    ensures Follows(j, AfterSource(j, now, j.stage.fill, r), now)
  {
    hide InTime;
  }

  lemma EncodeFollows(j: Job, now: int, r: Response)
    requires j.stage.Encoding? && Answers(j, r) && j.last == r
    ensures Follows(j, AfterFill(j, now, r), now)
  {
    hide InTime;
  }

  lemma WriteFollows(j: Job, now: int, r: Response)
    requires j.stage.Writing? && Answers(j, r) && j.last == r
    ensures Follows(j, AfterFill(j, now, r), now)
  {
    hide InTime;
  }

  lemma CompareFollows(j: Job, now: int, r: Response)
    requires j.stage.Comparing? && Answers(j, r) && j.last == r
    ensures Follows(j, AfterCompare(j, now, r), now)
  {
    hide InTime;
  }

  lemma ConfirmHitFollows(j: Job, now: int, r: Response)
    requires j.stage.Confirming? && r.ReadHit? && j.last == r
    ensures Follows(j, AfterConfirm(j, now, r), now)
  {
    hide InTime;
  }

  lemma ConfirmMissFollows(j: Job, now: int, r: Response)
    requires j.stage.Confirming? && r.ReadMiss? && j.last == r
    ensures Follows(j, AfterConfirm(j, now, r), now)
  {
    hide InTime;
  }

  lemma ConfirmFollows(j: Job, now: int, r: Response)
    requires j.stage.Confirming? && Answers(j, r) && j.last == r
    ensures Follows(j, AfterConfirm(j, now, r), now)
  {
    hide InTime;
    if r.ReadHit? {
      hide AfterConfirm, Follows;
      ConfirmHitFollows(j, now, r);
    } else if r.ReadMiss? {
      hide AfterConfirm, Follows;
      ConfirmMissFollows(j, now, r);
    }
  }

  lemma RestFollows(j: Job, now: int, r: Response)
    requires (j.stage.Ready? || j.stage.Decoding?) && Answers(j, r) && j.last == r
    ensures Follows(j, Continue(j, now, r), now)
  {
    hide InTime, AfterReading, AfterSource, AfterFill, AfterCompare, AfterConfirm;
  }

  lemma ContinueFollows(j: Job, now: int, r: Response)
    requires Answers(j, r) && j.last == r
    ensures Follows(j, Continue(j, now, r), now)
  {
    hide Follows, AfterReading, AfterSource, AfterFill, AfterCompare, AfterConfirm;
    match j.stage
    case Reading => ReadingFollows(j, now, r);
    case Sourcing(_) => SourceFollows(j, now, r);
    case Encoding => EncodeFollows(j, now, r);
    case Writing => WriteFollows(j, now, r);
    case Comparing => CompareFollows(j, now, r);
    case Confirming => ConfirmFollows(j, now, r);
    case _ => RestFollows(j, now, r);
  }

  lemma AdvanceFollows(j: Job, now: int, r: Response)
    requires Answers(j, r)
    ensures Follows(j, Advance(j, now, r), now)
  {
    ContinueFollows(j.(last := r), now, r);
    hide Continue, InTime;
    assert StageOk(j) && !j.stage.Finished? ==> StageOk(j.(last := r));
  }

  lemma AdvanceKeeps(j: Job, now: int, r: Response)
    requires JobOk(j) && Answers(j, r)
    ensures JobOk(Advance(j, now, r)) && !Advance(j, now, r).released && Advance(j, now, r).key == j.key
    ensures Advance(j, now, r).abandoned ==> Late(j, now)
    ensures Advance(j, now, r).started == j.started && Advance(j, now, r).budget == j.budget
    ensures Advance(j, now, r).verdicts == j.verdicts && Advance(j, now, r).reportedAt == j.reportedAt
  {
    AdvanceFollows(j, now, r);
    hide Advance, StageOk, Sound;
  }

  lemma JobStepKeeps(s: State, l: Label)
    requires Enabled(s, l) && !l.Tick? && !l.Schedule? && HeldOk(s, l.id)
    ensures JobOk(JobStep(s, l, s.jobs[l.id]))
    ensures JobStep(s, l, s.jobs[l.id]).released == (l.Release? || s.jobs[l.id].released)
    ensures JobStep(s, l, s.jobs[l.id]).key == s.jobs[l.id].key
    ensures var j := JobStep(s, l, s.jobs[l.id]);
            && (j.abandoned ==> !InTime(j.started, j.budget, s.now))
            && (j.verdicts != [] ==> j.reportedAt <= s.now)
  {
    var j := s.jobs[l.id];
    if l.Validate? {
      hide *;
      JobStepIs(s, l);
      AdvanceKeeps(j, s.now, l.response);
    } else {
      hide Advance, Sound, InTime;
    }
  }

  lemma JobStepIs(s: State, l: Label)
    requires Enabled(s, l) && l.Validate? && HeldOk(s, l.id)
    ensures Answers(s.jobs[l.id], l.response) && JobStep(s, l, s.jobs[l.id]) == Advance(s.jobs[l.id], s.now, l.response)
    ensures JobOk(s.jobs[l.id]) && !s.jobs[l.id].released
  {
    hide Advance;
  }

  lemma StepHeld(s: State, l: Label, id: nat)
    requires Enabled(s, l) && HeldOk(s, id) && (!l.Tick? && !l.Schedule? ==> HeldOk(s, l.id))
    ensures HeldOk(Step(s, l), id)
  {
    if !l.Tick? && !l.Schedule? {
      JobStepKeeps(s, l);
    }
    hide JobOk, JobStep;
    if l.Schedule? {
      NewJobOk(l.key, l.dark, l.started, l.budget, l.frame);
    }
  }

  lemma NewJobOk(key: string, dark: bool, started: int, budget: nat, frame: Option<Frames.Frame>)
    requires dark == frame.None?
    ensures JobOk(NewJob(key, dark, started, budget, frame))
  {
  }

  lemma StepSlot(s: State, l: Label, key: string)
    requires Enabled(s, l) && SlotOk(s, key) && (!l.Tick? && !l.Schedule? ==> HeldOk(s, l.id))
    ensures SlotOk(Step(s, l), key)
  {
    if !l.Tick? && !l.Schedule? {
      JobStepKeeps(s, l);
    }
    hide JobOk, JobStep;
  }

  lemma AddedJob(jobs: map<nat, Job>, id: nat, j: Job)
    requires id !in jobs && !j.released
    ensures |Unreleased(jobs[id := j])| == |Unreleased(jobs)| + 1
  {
    assert Unreleased(jobs[id := j]) == Unreleased(jobs) + {id};
  }

  lemma ChangedJob(jobs: map<nat, Job>, id: nat, j: Job)
    requires id in jobs && (jobs[id].released ==> j.released)
    ensures |Unreleased(jobs[id := j])| == |Unreleased(jobs)| - if j.released && !jobs[id].released then 1 else 0
  {
    var after := Unreleased(jobs[id := j]);
    if j.released && !jobs[id].released {
      assert id in Unreleased(jobs);
      assert after == Unreleased(jobs) - {id};
    } else {
      assert after == Unreleased(jobs);
    }
  }

  lemma ScheduleCount(s: State, l: Label)
    requires Enabled(s, l) && l.Schedule? && |s.slots| == |Holding(s)| <= s.capacity
    ensures |Step(s, l).slots| == |Holding(Step(s, l))| <= s.capacity == Step(s, l).capacity
  {
    if HasRoom(s.slots, s.capacity, l.key) {
      AddedJob(s.jobs, l.id, NewJob(l.key, l.dark, l.started, l.budget, l.frame));
    }
    hide Unreleased, JobStep, NewJob;
  }

  lemma JobCount(s: State, l: Label)
    requires Enabled(s, l) && !l.Schedule? && !l.Tick? && HeldOk(s, l.id) && |s.slots| == |Holding(s)| <= s.capacity
    ensures |Step(s, l).slots| == |Holding(Step(s, l))| <= s.capacity == Step(s, l).capacity
  {
    JobStepKeeps(s, l);
    ChangedJob(s.jobs, l.id, JobStep(s, l, s.jobs[l.id]));
    hide JobOk, JobStep, AllSettled, Answers, InTime, HasRoom, Unreleased;
  }

  lemma StepKeepsInv(s: State, l: Label)
    requires Inv(s) && Enabled(s, l)
    ensures Inv(Step(s, l))
  {
    if l.Schedule? {
      ScheduleCount(s, l);
    } else if !l.Tick? {
      assert HeldOk(s, l.id);
      JobCount(s, l);
    }
    assert |Step(s, l).slots| == |Holding(Step(s, l))| <= Step(s, l).capacity;
    hide HeldOk, SlotOk, Step, Enabled, Holding;
    forall id: nat ensures HeldOk(Step(s, l), id) { StepHeld(s, l, id); }
    forall key ensures SlotOk(Step(s, l), key) { StepSlot(s, l, key); }
  }

  lemma {:induction false} RunInv(capacity: nat, labels: seq<Label>)
    requires Run(capacity, labels).Some?
    ensures Inv(Run(capacity, labels).value) && Run(capacity, labels).value.capacity == capacity
  {
    hide Inv, Step, Enabled;
    if labels == [] {
      InitInv(capacity);
    } else {
      var before := Run(capacity, labels[..|labels| - 1]).value;
      RunInv(capacity, labels[..|labels| - 1]);
      StepKeepsInv(before, labels[|labels| - 1]);
      SameCapacity(before, labels[|labels| - 1]);
    }
  }

  lemma InitInv(capacity: nat)
    ensures Inv(State(capacity, 0, map[], map[], {}))
  {
  }

  lemma SameCapacity(s: State, l: Label)
    requires Enabled(s, l)
    ensures Step(s, l).capacity == s.capacity
  {
  }

  // ------------------------------------------------------------------ theorems

  /** An attempt runs exactly when no unreleased job has its key and fewer than capacity are unreleased. */
  lemma AdmittedIffRoom(capacity: nat, labels: seq<Label>, l: Label)
    requires Run(capacity, labels).Some? && Enabled(Run(capacity, labels).value, l) && l.Schedule?
    ensures var s := Run(capacity, labels).value;
            var room := |Holding(s)| < capacity && forall id :: id in Holding(s) ==> s.jobs[id].key != l.key;
            && (l.id in Step(s, l).jobs <==> room)
            && (room ==> Step(s, l).jobs[l.id] == NewJob(l.key, l.dark, l.started, l.budget, l.frame))
            && (l.id in Step(s, l).dropped <==> !room)
  {
    RunInv(capacity, labels);
    var s := Run(capacity, labels).value;
    assert SlotOk(s, l.key);
    if l.key in s.slots {
      assert s.slots[l.key] in Holding(s);
    } else {
      forall id | id in Holding(s) ensures s.jobs[id].key != l.key {
        assert HeldOk(s, id);
      }
    }
  }

  /** Capacity holds, a key has at most one unreleased job, and a job keeps its own slot until release. */
  lemma SlotsBoundJobs(capacity: nat, labels: seq<Label>, a: nat, b: nat)
    requires Run(capacity, labels).Some?
    requires a in Holding(Run(capacity, labels).value) && b in Holding(Run(capacity, labels).value)
    ensures var s := Run(capacity, labels).value;
            && |Holding(s)| <= capacity
            && (s.jobs[a].key == s.jobs[b].key ==> a == b)
            && s.jobs[a].key in s.slots && s.slots[s.jobs[a].key] == a
  {
    RunInv(capacity, labels);
    assert HeldOk(Run(capacity, labels).value, a) && HeldOk(Run(capacity, labels).value, b);
  }

  /** A slot is given up only after exactly one verdict was reported and every raw read settled. */
  lemma ReleasedAfterEverything(capacity: nat, labels: seq<Label>, id: nat)
    requires Run(capacity, labels).Some? && id in Run(capacity, labels).value.jobs
    ensures var j := Run(capacity, labels).value.jobs[id];
            && |j.verdicts| <= 1
            && (j.released ==> |j.verdicts| == 1 && AllSettled(j) && j.stage.Finished?)
  {
    RunInv(capacity, labels);
    assert HeldOk(Run(capacity, labels).value, id);
  }

  /**
   * A mismatch is reported only when the comparison said different and a later read returned the
   * same payload bytes; a match only when it said equal; a fill only when one write succeeded.
   * Every verdict but a timeout is reported strictly before the deadline.
   */
  lemma VerdictsAreSound(capacity: nat, labels: seq<Label>, id: nat)
    requires Run(capacity, labels).Some? && id in Run(capacity, labels).value.jobs
    requires Run(capacity, labels).value.jobs[id].verdicts != []
    ensures var j := Run(capacity, labels).value.jobs[id];
            && j.verdicts == [j.verdicts[0]]
            && (j.verdicts[0] != Expired ==> Sound(j, j.verdicts[0]) && InTime(j.started, j.budget, j.reportedAt))
            && (j.verdicts[0] == Expired ==>
                  || !InTime(j.started, j.budget, Run(capacity, labels).value.now)
                  || j.last.Panicked? || (j.dark && j.last == SourceFailed(true)))
  {
    RunInv(capacity, labels);
    var s := Run(capacity, labels).value;
    assert HeldOk(s, id);
    hide Run, Inv;
    ReportedVerdict(s.jobs[id]);
    hide JobOk, Sound;
  }

  lemma ReportedVerdict(j: Job)
    requires JobOk(j) && j.verdicts != []
    ensures j.verdicts == [j.verdicts[0]]
    ensures j.verdicts[0] != Expired ==> Sound(j, j.verdicts[0]) && InTime(j.started, j.budget, j.reportedAt)
    ensures j.verdicts[0] == Expired ==>
              || !InTime(j.started, j.budget, j.reportedAt)
              || j.abandoned || j.last.Panicked? || (j.dark && j.last == SourceFailed(true))
  {
    hide AllInTime, AllSettled, InTime;
  }

  /** A stage times out only when late, stopped, panicked, out of source time or without anything to compare. */
  lemma TimeoutsHaveReasons(j: Job, now: int, r: Response)
    requires Answers(j, r) && Advance(j, now, r).stage == Finished(Expired)
    ensures || Late(j, now) || r.Panicked? || r.Stopped? || (j.dark && r == SourceFailed(true))
            || (j.stage == Sourcing(false) && j.frame.None?)
  {
    hide InTime;
  }

  /** The serving call's clock runs for a dark job; any other job's budget starts when it does. */
  lemma BudgetStarts(s: State, id: nat)
    requires Enabled(s, Begin(id))
    ensures var j := Step(s, Begin(id)).jobs[id];
            && j.stage == Ready && j.budget == s.jobs[id].budget
            && (j.dark ==> j.started == s.jobs[id].started) && (!j.dark ==> j.started == s.now)
  {
  }

  /** In time, a dark job reads, asks the source and fills what was missing; any other only asks the source. */
  lemma StagesUntilFilled(j: Job, now: int, r: Response)
    requires Answers(j, r) && !Late(j, now)
    ensures var k := Advance(j, now, r);
            && (r == Proceed ==> k.stage == if j.dark then Reading else Sourcing(false))
            && (j.stage.Reading? && r == ReadMiss ==> k.stage == Sourcing(true) && k.frame == j.frame)
            && (j.stage.Reading? && r.ReadHit? ==> k.stage == Sourcing(false) && k.frame == Some(r.frame))
            && (j.stage == Sourcing(true) && r == SourceValue ==> k.stage == Encoding)
            && (j.stage == Sourcing(false) && r == SourceValue && j.frame.Some? ==> k.stage == Decoding)
            && (r == Encoded ==> k.stage == Writing && k.starts == j.starts + [now])
            && (r == Written ==> k.stage == Finished(Filled))
  {
    hide InTime, AfterCompare, AfterConfirm;
  }

  /** Before its deadline a frame is decoded, compared and, if it differs, read again to confirm. */
  lemma StagesOfComparison(j: Job, now: int, r: Response)
    requires Answers(j, r) && !Late(j, now)
    ensures var k := Advance(j, now, r);
            && (r == Decoded ==> k.stage == Comparing)
            && (r == Compared(true) ==> k.stage == Finished(Match))
            && (r == Compared(false) ==> k.stage == Confirming && k.starts == j.starts + [now])
            && (j.stage.Confirming? && r == ReadMiss ==> k.stage == Finished(Superseded))
            && (j.stage.Confirming? && r.ReadHit? && j.frame.Some? ==>
                  k.stage == Finished(if r.frame.payload == j.frame.value.payload then Mismatch else Superseded))
  {
    hide InTime, AfterReading, AfterSource, AfterFill;
  }

  /** Every read and write a job ever started was started before its deadline. */
  lemma NoWorkStartsLate(capacity: nat, labels: seq<Label>, id: nat, i: nat)
    requires Run(capacity, labels).Some? && id in Run(capacity, labels).value.jobs
    requires i < |Run(capacity, labels).value.jobs[id].starts|
    ensures var j := Run(capacity, labels).value.jobs[id];
            InTime(j.started, j.budget, j.starts[i])
  {
    RunInv(capacity, labels);
    assert HeldOk(Run(capacity, labels).value, id);
  }

  /** Once abandoned, a job starts nothing more: its next stage is its last. */
  lemma AbandonedStartsNothing(j: Job, now: int, r: Response)
    requires Answers(j, r) && j.abandoned
    ensures var k := Advance(j, now, r);
            k.abandoned && k.stage.Finished? && k.starts == j.starts && k.issued == j.issued
  {
    AdvanceFollows(j, now, r);
    hide Advance;
  }

  /** A finished, reported job whose reads have settled can always release, and that frees its key. */
  lemma ReleaseFreesKey(capacity: nat, labels: seq<Label>, id: nat)
    requires Run(capacity, labels).Some? && Enabled(Run(capacity, labels).value, Release(id))
    ensures var s := Run(capacity, labels).value;
            var t := Step(s, Release(id));
            && t.slots == s.slots - {s.jobs[id].key} && |t.slots| == |s.slots| - 1
            && HasRoom(t.slots, capacity, s.jobs[id].key)
  {
    RunInv(capacity, labels);
    assert HeldOk(Run(capacity, labels).value, id);
  }

  /** The step a job itself can take next; a finished, reported job waits for its reads, then releases. */
  function NextStep(id: nat, j: Job, now: int): Label {
    match j.stage
    case Deferred => Begin(id)
    case Ready => Validate(id, Proceed)
    case Reading => Validate(id, ReadMiss)
    case Sourcing(_) => Validate(id, SourceValue)
    case Encoding => Validate(id, Encoded)
    case Writing => Validate(id, Written)
    case Decoding => Validate(id, Decoded)
    case Comparing => Validate(id, Compared(true))
    case Confirming => Validate(id, ReadMiss)
    case Finished(_) =>
      if j.verdicts != [] then Release(id)
      else if InTime(j.started, j.budget, now) then Report(id) else TimeOut(id)
  }

  /** No job holding a slot is ever stuck: it can take its next step, or a read it started is still out. */
  lemma JobsNeverStuck(capacity: nat, labels: seq<Label>, id: nat)
    requires Run(capacity, labels).Some? && id in Holding(Run(capacity, labels).value)
    ensures var s := Run(capacity, labels).value;
            var j := s.jobs[id];
            || Enabled(s, NextStep(id, j, s.now))
            || (j.stage.Finished? && |j.verdicts| == 1 && !AllSettled(j))
  {
    RunInv(capacity, labels);
    assert HeldOk(Run(capacity, labels).value, id);
    hide Run, Inv, Sound, AllInTime;
  }
}
