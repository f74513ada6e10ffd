/** The invalidation script: one atomic transition of a watermark key and its retention. */
module Watermark {
  import opened Base
  import opened Utf8
  import opened Decimals

  datatype Expiry = Never | At(time: int)

  /** What Redis stores under one key. */
  datatype Key =
    | Absent
    | Text(text: seq<byte>, expiry: Expiry)
    | OtherType(expiry: Expiry)
  {
    predicate Visible(now: int) {
      !Absent? && (expiry.Never? || now < expiry.time)
    }

    /** PTTL: -2 absent, -1 persistent, else the remaining milliseconds. */
    function Pttl(now: int): int {
      if !Visible(now) then -2 else if expiry.Never? then -1 else expiry.time - now
    }
  }

  predicate NoEarlier(a: Expiry, b: Expiry) {
    b.Never? || (a.At? && a.time <= b.time)
  }

  datatype Reply = Done | InvalidBuffer | InvalidTimestamp

  // ------------------------------------------------------ what the script means

  predicate Accepts(buffer: seq<byte>, at: seq<byte>) {
    && SafeText(buffer) && Value(buffer) <= MAX_DURATION_MS
    && SafeText(at) && Value(at) <= MAX_SAFE_INTEGER - Value(buffer)
  }

  /** The live safe watermark, 0 when there is none. */
  function Current(key: Key, now: int): nat {
    if key.Text? && key.Visible(now) && SafeText(key.text) then Value(key.text) else 0
  }

  /** Milliseconds the new watermark must outlive its own invalidation by. */
  function Retention(watermark: int, at: int): int {
    Max(MIN_WATERMARK_TTL_MS, watermark - at + MAX_TRACKED_TTL_MS + WATERMARK_MARGIN_MS)
  }

  /** The later of the old expiry and the required retention; persistent stays persistent. */
  function Extended(key: Key, now: int, ttl: int): Expiry {
    if key.Text? && key.Visible(now) then
      if key.expiry.Never? then Never else At(Max(key.expiry.time, now + ttl))
    else At(now + ttl)
  }

  function Advance(key: Key, now: int, at: nat, buffer: nat): Key {
    var watermark := Max(Current(key, now), at + buffer);
    Text(Print(watermark), Extended(key, now, Retention(watermark, at)))
  }

  /** One Redis key holding a watermark, and the script that runs on it. */
  class WatermarkKey {
    var key: Key

    constructor ()
      ensures key == Absent
    {
      key := Absent;
    }

    method Invalidate(now: int, bufferText: seq<byte>, atText: seq<byte>) returns (reply: Reply)
      modifies this
      ensures reply == Done <==> Accepts(bufferText, atText)
      ensures reply == Done ==> key == Advance(old(key), now, Value(atText), Value(bufferText))
      ensures reply != Done ==> key == old(key)
    {
      hide Value, SafeText, Print;
      var buffer := ParseSafe(bufferText);
      if buffer.None? || buffer.value > MAX_DURATION_MS {
        return InvalidBuffer;
      }
      var at := ParseSafe(atText);
      if at.None? || at.value > MAX_SAFE_INTEGER - buffer.value {
        return InvalidTimestamp;
      }
      var proposed := at.value + buffer.value;
      // A wrong-type read error counts as an absent marker and is repaired below.
      var found := key.Visible(now) && key.Text?;
      var current := 0;
      if found {
        var parsed := ParseSafe(key.text);
        if parsed.Some? {
          current := parsed.value;
        }
      }
      var watermark := Max(current, proposed);
      var currentTtl := -2;
      if found {
        currentTtl := key.Pttl(now);
      }
      var desired := Max(7200000, watermark - at.value + 3600000 + 60000);
      if currentTtl > desired {
        desired := currentTtl;
      }
      if currentTtl == -1 {
        key := Text(Print(watermark), Never);
      } else {
        key := Text(Print(watermark), At(now + desired));
      }
      return Done;
    }
  }

  /** The arguments the script accepts, as numbers: a buffer of at most a year and a target that is a safe integer. */
  lemma AcceptedArguments(buffer: nat, at: nat)
    ensures Accepts(Print(buffer), Print(at)) <==> buffer <= 31536000000 && at + buffer <= 9007199254740991
  {
    PrintParses(buffer);
    PrintParses(at);
    hide Print, Value;
  }

  // ------------------------------------------------------------- transitions

  /** A key that has only ever been written by the script. */
  predicate Proper(key: Key) {
    key.Absent? || (key.Text? && SafeText(key.text))
  }

  lemma AdvanceValue(key: Key, now: int, at: nat, buffer: nat)
    requires at + buffer <= MAX_SAFE_INTEGER
    ensures var after := Advance(key, now, at, buffer);
            && after.Visible(now) && Proper(after)
            && Current(after, now) == Max(Current(key, now), at + buffer)
  {
    PrintParses(Max(Current(key, now), at + buffer));
  }

  /** While the old marker lives, neither its value nor its expiry instant goes back. */
  lemma AdvanceNeverRetreats(key: Key, now: int, at: nat, buffer: nat)
    requires at + buffer <= MAX_SAFE_INTEGER
    ensures var after := Advance(key, now, at, buffer);
            && Current(after, now) >= Current(key, now)
            && (key.Text? && key.Visible(now) ==> NoEarlier(key.expiry, after.expiry))
            && (key.Text? && key.Visible(now) && key.expiry.Never? ==> after.expiry.Never?)
            && NoEarlier(At(now + Retention(at + buffer, at)), after.expiry)
  {
    AdvanceValue(key, now, at, buffer);
  }

  /**
   * The EVAL retry of a command that already ran, reaching the server at a later time: the value
   * never moves, the expiry never goes back, and the key is untouched exactly when it is persistent
   * or already outlives the retention counted from the retry.
   */
  lemma RetryOnlyExtends(key: Key, now: int, later: int, at: nat, buffer: nat)
    requires at + buffer <= MAX_SAFE_INTEGER && now <= later
    requires Advance(key, now, at, buffer).Visible(later)
    ensures var once := Advance(key, now, at, buffer);
            var twice := Advance(once, later, at, buffer);
            && twice.text == once.text && NoEarlier(once.expiry, twice.expiry)
            && (twice == once <==>
                  once.expiry.Never? || once.expiry.time >= later + Retention(Current(once, now), at))
  {
    AdvanceValue(key, now, at, buffer);
    AdvanceValue(Advance(key, now, at, buffer), later, at, buffer);
  }

  // --------------------------------------------------------- runs of the script

  datatype Call = Call(now: int, at: nat, buffer: nat)
  {
    function Target(): nat { at + buffer }
  }

  predicate Acceptable(calls: seq<Call>) {
    && (forall i :: 0 <= i < |calls| ==> calls[i].Target() <= MAX_SAFE_INTEGER)
    && (forall i, j :: 0 <= i < j < |calls| ==> calls[i].now <= calls[j].now)
  }

  function RunCalls(key: Key, calls: seq<Call>): Key {
    if calls == [] then key
    else
      var c := calls[|calls| - 1];
      Advance(RunCalls(key, calls[..|calls| - 1]), c.now, c.at, c.buffer)
  }

  /** Every call after the first found the marker of the previous one still live. */
  predicate StaysLive(key: Key, calls: seq<Call>)
    requires Acceptable(calls)
  {
    forall i :: 1 <= i < |calls| ==> RunCalls(key, calls[..i]).Visible(calls[i].now)
  }

  /**
   * Over any run from any key, lapses included: until its retention ends, an accepted
   * invalidation's target stays below or at a live watermark.
   */
  lemma {:induction false} RetentionGuarantee(key: Key, calls: seq<Call>, i: nat, later: int)
    requires Acceptable(calls) && i < |calls|
    requires calls[|calls| - 1].now <= later < calls[i].now + Retention(calls[i].Target(), calls[i].at)
    ensures var after := RunCalls(key, calls);
            && after.Visible(later) && Proper(after) && Current(after, later) >= calls[i].Target()
            && NoEarlier(At(calls[i].now + Retention(calls[i].Target(), calls[i].at)), after.expiry)
  {
    hide Print, SafeText, Value, Retention, Extended;
    var n := |calls| - 1;
    var c := calls[n];
    AdvanceNeverRetreats(RunCalls(key, calls[..n]), c.now, c.at, c.buffer);
    AdvanceValue(RunCalls(key, calls[..n]), c.now, c.at, c.buffer);
    if i < n {
      RetentionGuarantee(key, calls[..n], i, c.now);
    }
  }

  function MaxTarget(calls: seq<Call>): nat {
    if calls == [] then 0 else Max(MaxTarget(calls[..|calls| - 1]), calls[|calls| - 1].Target())
  }

  /** While the marker lives, its value is the largest of what the first call met and every target. */
  lemma {:induction false} LiveValueIsMaxTarget(key: Key, calls: seq<Call>)
    requires calls != [] && Acceptable(calls) && StaysLive(key, calls)
    ensures var last := calls[|calls| - 1].now;
            && RunCalls(key, calls).Visible(last)
            && Proper(RunCalls(key, calls))
            && Current(RunCalls(key, calls), last) == Max(Current(key, calls[0].now), MaxTarget(calls))
  {
    hide Print, SafeText, Value, Retention, Extended;
    var n := |calls| - 1;
    var c := calls[n];
    var before := RunCalls(key, calls[..n]);
    AdvanceValue(before, c.now, c.at, c.buffer);
    if n > 0 {
      assert forall i :: 0 <= i <= n ==> calls[..n][..i] == calls[..i];
      LiveValueIsMaxTarget(key, calls[..n]);
    }
  }

  lemma {:induction false} MaxTargetBounds(calls: seq<Call>, k: nat)
    requires k < |calls|
    ensures MaxTarget(calls) >= calls[k].Target()
  {
    if k < |calls| - 1 {
      MaxTargetBounds(calls[..|calls| - 1], k);
    }
  }

  lemma {:induction false} MaxTargetAttained(calls: seq<Call>) returns (k: nat)
    requires calls != []
    ensures k < |calls| && MaxTarget(calls) == calls[k].Target()
  {
    k := |calls| - 1;
    if |calls| > 1 && calls[k].Target() < MaxTarget(calls[..k]) {
      k := MaxTargetAttained(calls[..k]);
    }
  }

  function Targets(calls: seq<Call>): set<nat> {
    set c | c in calls :: c.Target()
  }

  /** From any key, the value met and the set of targets decide the live watermark: order and repetition do not. */
  lemma OrderDoesNotMatter(key: Key, a: seq<Call>, b: seq<Call>)
    requires a != [] && b != []
    requires Acceptable(a) && StaysLive(key, a) && Acceptable(b) && StaysLive(key, b)
    requires Current(key, a[0].now) == Current(key, b[0].now) && Targets(a) == Targets(b)
    ensures Current(RunCalls(key, a), a[|a| - 1].now) == Current(RunCalls(key, b), b[|b| - 1].now)
  {
    LiveValueIsMaxTarget(key, a);
    LiveValueIsMaxTarget(key, b);
    TargetsBound(a, b);
    TargetsBound(b, a);
  }

  lemma TargetsBound(a: seq<Call>, b: seq<Call>)
    requires a != [] && b != []
    requires Targets(a) <= Targets(b)
    ensures MaxTarget(a) <= MaxTarget(b)
  {
    var k := MaxTargetAttained(a);
    assert a[k] in a;
    assert a[k].Target() in Targets(b);
    var c :| c in b && c.Target() == a[k].Target();
    var j :| 0 <= j < |b| && b[j] == c;
    MaxTargetBounds(b, j);
  }

  /** A marker that an extension to `time` would not move. */
  predicate Outlives(key: Key, now: int, time: int) {
    key.Text? && key.Visible(now) && (key.expiry.Never? || key.expiry.time >= time)
  }

  /** Both orders of two calls at one server time. */
  function InOrder(key: Key, first: Call, second: Call): Key {
    Advance(Advance(key, first.now, first.at, first.buffer), second.now, second.at, second.buffer)
  }

  predicate Persistent(key: Key) {
    key.Text? && key.expiry.Never?
  }

  /** The expiry an extension starts from. */
  function Held(key: Key, now: int): int {
    if key.Text? && key.Visible(now) && key.expiry.At? then key.expiry.time else now
  }

  lemma ExtendedIs(key: Key, now: int, watermark: int, at: int)
    ensures Extended(key, now, Retention(watermark, at)) ==
              if Persistent(key) then Never else At(Max(Held(key, now), now + Retention(watermark, at)))
  {
    assert Retention(watermark, at) > 0;
    hide Retention;
  }

  lemma InOrderIs(key: Key, first: Call, second: Call)
    requires first.now == second.now && first.Target() <= MAX_SAFE_INTEGER && second.Target() <= MAX_SAFE_INTEGER
    ensures var now, one := first.now, Max(Current(key, first.now), first.Target());
            var both := Max(one, second.Target());
            && InOrder(key, first, second).text == Print(both)
            && InOrder(key, first, second).expiry ==
                 if Persistent(key) then Never
                 else At(Max(Max(Held(key, now), now + Retention(one, first.at)), now + Retention(both, second.at)))
  {
    var now, one := first.now, Max(Current(key, first.now), first.Target());
    var both := Max(one, second.Target());
    var after := Advance(key, now, first.at, first.buffer);
    AdvanceValue(key, now, first.at, first.buffer);
    ExtendedIs(key, now, one, first.at);
    ExtendedIs(after, now, both, second.at);
    hide Print, SafeText, Current, Max, Retention, Extended;
    assert after == Text(Print(one), Extended(key, now, Retention(one, first.at)));
    assert Held(after, now) == if Persistent(key) then now else Max(Held(key, now), now + Retention(one, first.at));
  }

  /** Retention only: which order of two extensions reaches further. */
  lemma LongerRetention(held: int, now: int, current: nat, high: Call, low: Call)
    requires low.Target() <= high.Target()
    ensures var top, bottom := Max(current, high.Target()), Max(current, low.Target());
            var ahead := high.Target() - low.at + MAX_TRACKED_TTL_MS + WATERMARK_MARGIN_MS;
            Max(Max(held, now + Retention(top, high.at)), now + Retention(top, low.at))
            != Max(Max(held, now + Retention(bottom, low.at)), now + Retention(top, high.at)) <==>
              && high.Target() > low.Target() && high.Target() > current && high.at > low.at
              && ahead > MIN_WATERMARK_TTL_MS && held < now + ahead
  {
  }

  /**
   * Two invalidations at one server time, on any key, in both orders. The value is always the same.
   * The expiry differs exactly when the call with the larger target, above the live value too, was
   * stamped later, the target lies far enough ahead of the earlier stamp to outgrow the minimum
   * retention, and the key would not outlive the longer retention anyway.
   */
  lemma ExpiryDependsOnOrder(key: Key, high: Call, low: Call)
    requires high.now == low.now && low.Target() <= high.Target() <= MAX_SAFE_INTEGER
    ensures var now := high.now;
            var ahead := high.Target() - low.at + MAX_TRACKED_TTL_MS + WATERMARK_MARGIN_MS;
            && InOrder(key, high, low).text == InOrder(key, low, high).text
            && (InOrder(key, high, low).expiry != InOrder(key, low, high).expiry <==>
                  && high.Target() > low.Target() && high.Target() > Current(key, now) && high.at > low.at
                  && ahead > MIN_WATERMARK_TTL_MS && !Outlives(key, now, now + ahead))
  {
    hide InOrder, Advance, Print, Current, Retention, Max, Held, Outlives, Persistent;
    var now, current := high.now, Current(key, high.now);
    var ahead := high.Target() - low.at + MAX_TRACKED_TTL_MS + WATERMARK_MARGIN_MS;
    InOrderIs(key, high, low);
    InOrderIs(key, low, high);
    SameMaximum(current, high.Target(), low.Target());
    LongerRetention(Held(key, now), now, current, high, low);
    HeldOutlives(key, now, now + ahead);
  }

  lemma SameMaximum(current: int, high: int, low: int)
    requires low <= high
    ensures Max(Max(current, high), low) == Max(Max(current, low), high) == Max(current, high)
  {
  }

  lemma HeldOutlives(key: Key, now: int, time: int)
    ensures Persistent(key) ==> Outlives(key, now, time)
    ensures !Persistent(key) && time > now ==> (Outlives(key, now, time) <==> Held(key, now) >= time)
  {
  }

  /** One such pair: targets 0 and 5,000,000 on an absent key. */
  lemma ExpiryOrderWitness()
    ensures InOrder(Absent, Call(0, 0, 0), Call(0, 5000000, 0)).expiry == At(7200000)
    ensures InOrder(Absent, Call(0, 5000000, 0), Call(0, 0, 0)).expiry == At(8660000)
  {
    AdvanceValue(Absent, 0, 0, 0);
    AdvanceValue(Absent, 0, 5000000, 0);
  }
}
