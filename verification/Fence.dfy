/** Tracked invalidation as a protocol over server time: no stale frame is ever served. */
module Fence {
  import opened Base
  import opened Utf8
  import opened Decimals
  import opened Frames
  import opened Watermark

  type ValueKey = seq<byte>

  datatype Stored = Stored(bytes: seq<byte>, expiry: int)

  /** One entity on the server: its marker and every tracked value it guards. */
  datatype Server = Server(now: int, marker: Key, values: map<ValueKey, Stored>)

  datatype Event =
    | Tick(elapsed: nat)
    | Invalidate(at: nat, buffer: nat)
    | Write(key: ValueKey, frame: Frame, ttl: nat)
    | Remove(key: ValueKey)

  /** What clients may send: accepted script arguments, safe stamps, clamped tracked TTLs. */
  predicate Legal(e: Event) {
    match e
    case Invalidate(at, buffer) => buffer <= MAX_DURATION_MS && at + buffer <= MAX_SAFE_INTEGER
    case Write(_, frame, ttl) => frame.stamp <= MAX_SAFE_INTEGER && 1 <= ttl <= MAX_TRACKED_TTL_MS
    case _ => true
  }

  function Apply(s: Server, e: Event): Server
    requires Legal(e)
  {
    match e
    case Tick(elapsed) => s.(now := s.now + elapsed)
    case Invalidate(at, buffer) => s.(marker := Advance(s.marker, s.now, at, buffer))
    case Write(key, frame, ttl) =>
      s.(values := s.values[key := Stored(EncodeFrame(frame).value, s.now + ttl)])
    case Remove(key) => s.(values := s.values - {key})
  }

  predicate AllLegal(events: seq<Event>) {
    forall i :: 0 <= i < |events| ==> Legal(events[i])
  }

  function Run(start: int, events: seq<Event>): Server
    requires AllLegal(events)
  {
    if events == [] then Server(start, Absent, map[])
    else Apply(Run(start, events[..|events| - 1]), events[|events| - 1])
  }

  /** What one atomic MGET returns for a value and its marker. */
  function RawAt(s: Server, key: ValueKey): Option<seq<byte>> {
    if key in s.values && s.now < s.values[key].expiry then Some(s.values[key].bytes) else None
  }

  function MarkerAt(s: Server): Option<seq<byte>> {
    if s.marker.Text? && s.marker.Visible(s.now) then Some(s.marker.text) else None
  }

  function Read(s: Server, key: ValueKey): ReadResult {
    DecodeFrame(RawAt(s, key), true, MarkerAt(s))
  }

  predicate ServesStale(s: Server, key: ValueKey, watermark: nat) {
    Read(s, key).Hit? && Read(s, key).frame.stamp <= watermark
  }

  /** Server time at which event `i` runs. */
  function TimeAt(start: int, events: seq<Event>, i: nat): int
    requires AllLegal(events) && i <= |events|
  {
    Run(start, events[..i]).now
  }

  /** How far behind its own stamp a SET reaches the server. */
  function Delay(start: int, events: seq<Event>, w: nat): int
    requires AllLegal(events) && w < |events| && events[w].Write?
  {
    TimeAt(start, events, w) - events[w].frame.stamp
  }

  /** How far an invalidator's clock runs ahead of the server. */
  function Lead(start: int, events: seq<Event>, i: nat): int
    requires AllLegal(events) && i < |events| && events[i].Invalidate?
  {
    events[i].at - TimeAt(start, events, i)
  }

  /** Delay plus lead the retention arithmetic tolerates: one minute, more for a short buffer. */
  function Slack(buffer: nat): int {
    Max(WATERMARK_MARGIN_MS, MAX_TRACKED_TTL_MS - buffer)
  }

  /** How long after the target of invalidation `i` a write reaches the server. */
  function Lateness(start: int, events: seq<Event>, i: nat, w: nat): int
    requires AllLegal(events) && i < |events| && events[i].Invalidate? && w <= |events|
  {
    TimeAt(start, events, w) - (events[i].at + events[i].buffer)
  }

  /** Every write that invalidation `i` fences and that follows it arrives within the slack of its lead. */
  predicate WritesWithinSlack(start: int, events: seq<Event>, i: nat)
    requires AllLegal(events) && i < |events| && events[i].Invalidate?
  {
    forall w :: i < w < |events| && events[w].Write? && events[w].frame.stamp <= events[i].at + events[i].buffer
      ==> Lateness(start, events, i, w) + Lead(start, events, i) <= Slack(events[i].buffer)
  }

  /** The same, measured from each write's own stamp. */
  predicate DelaysWithinSlack(start: int, events: seq<Event>, i: nat)
    requires AllLegal(events) && i < |events| && events[i].Invalidate?
  {
    forall w :: i < w < |events| && events[w].Write? && events[w].frame.stamp <= events[i].at + events[i].buffer
      ==> Delay(start, events, w) + Lead(start, events, i) <= Slack(events[i].buffer)
  }

  // --------------------------------------------------------------- invariants

  /** Every stored frame stamped at or below `watermark` is gone by `limit`. */
  predicate ValuesGoneBy(s: Server, watermark: nat, limit: int) {
    forall key :: key in s.values ==>
      && Supported(s.values[key].bytes)
      && (FromBytes(s.values[key].bytes[1..9]) <= watermark ==> s.values[key].expiry <= limit)
  }

  /** Until `limit`, a live marker at or above `watermark` stands guard. */
  predicate Guarded(s: Server, watermark: nat, limit: int) {
    s.now < limit ==>
      && s.marker.Text? && SafeText(s.marker.text)
      && s.marker.Visible(s.now)
      && Current(s.marker, s.now) >= watermark
      && NoEarlier(At(limit), s.marker.expiry)
  }

  lemma GuardKept(s: Server, e: Event, watermark: nat, limit: int)
    requires Legal(e) && Guarded(s, watermark, limit)
    ensures Guarded(Apply(s, e), watermark, limit)
  {
    if e.Invalidate? {
      AdvanceValue(s.marker, s.now, e.at, e.buffer);
      AdvanceNeverRetreats(s.marker, s.now, e.at, e.buffer);
    }
  }

  /** When the guard that invalidation `i` set up may go. */
  function GuardEnd(start: int, events: seq<Event>, i: nat): int
    requires AllLegal(events) && i < |events| && events[i].Invalidate?
  {
    TimeAt(start, events, i) + Retention(events[i].at + events[i].buffer, events[i].at)
  }

  /** After invalidation `i`, over every continuation: the marker guards its target until its end. */
  lemma {:induction false} RunKeepsGuard(start: int, events: seq<Event>, i: nat, n: nat)
    requires AllLegal(events) && i < n <= |events| && events[i].Invalidate?
    ensures Guarded(Run(start, events[..n]), events[i].at + events[i].buffer, GuardEnd(start, events, i))
    decreases n
  {
    var e, before := events[n - 1], Run(start, events[..n - 1]);
    assert events[..n][..n - 1] == events[..n - 1];
    if n - 1 == i {
      AdvanceValue(before.marker, before.now, e.at, e.buffer);
      AdvanceNeverRetreats(before.marker, before.now, e.at, e.buffer);
    } else {
      RunKeepsGuard(start, events, i, n - 1);
      GuardKept(before, e, events[i].at + events[i].buffer, GuardEnd(start, events, i));
    }
  }

  lemma ValuesKept(s: Server, e: Event, watermark: nat, limit: int)
    requires Legal(e) && ValuesGoneBy(s, watermark, limit)
    requires e.Write? && e.frame.stamp <= watermark ==> s.now + e.ttl <= limit
    ensures ValuesGoneBy(Apply(s, e), watermark, limit)
  {
    if e.Write? {
      EncodedLayout(e.frame);
    }
  }

  /** Both invariants over every prefix, the guard from the invalidation onwards. */
  lemma {:induction false} RunKeepsFence(start: int, events: seq<Event>, i: nat, n: nat)
    requires AllLegal(events) && i < |events| && n <= |events| && events[i].Invalidate?
    requires forall w :: 0 <= w < n && events[w].Write? && events[w].frame.stamp <= events[i].at + events[i].buffer
               ==> TimeAt(start, events, w) + events[w].ttl <= GuardEnd(start, events, i)
    ensures ValuesGoneBy(Run(start, events[..n]), events[i].at + events[i].buffer, GuardEnd(start, events, i))
    ensures n > i ==> Guarded(Run(start, events[..n]), events[i].at + events[i].buffer, GuardEnd(start, events, i))
    decreases n
  {
    if n > i {
      RunKeepsGuard(start, events, i, n);
    }
    hide Guarded;
    if n > 0 {
      RunKeepsFence(start, events, i, n - 1);
      assert events[..n][..n - 1] == events[..n - 1];
      ValuesKept(Run(start, events[..n - 1]), events[n - 1], events[i].at + events[i].buffer,
                 GuardEnd(start, events, i));
    }
  }

  lemma {:induction false} TimeAdvances(start: int, events: seq<Event>, a: nat, b: nat)
    requires AllLegal(events) && a <= b <= |events|
    ensures TimeAt(start, events, a) <= TimeAt(start, events, b)
    decreases b
  {
    if a < b {
      TimeAdvances(start, events, a, b - 1);
      assert events[..b][..b - 1] == events[..b - 1];
    }
  }

  /** A fenced write is gone by the time the marker may go, whichever side of the invalidation it is on. */
  lemma FencedWriteExpires(start: int, events: seq<Event>, i: nat, w: nat)
    requires AllLegal(events) && i < |events| && events[i].Invalidate? && WritesWithinSlack(start, events, i)
    requires w < |events| && events[w].Write? && events[w].frame.stamp <= events[i].at + events[i].buffer
    ensures TimeAt(start, events, w) + events[w].ttl <= GuardEnd(start, events, i)
  {
    assert Legal(events[w]);
    if w <= i {
      TimeAdvances(start, events, w, i);
    } else {
      assert Lateness(start, events, i, w) + Lead(start, events, i) <= Slack(events[i].buffer);
    }
  }

  /**
   * Fence safety over every run. Take any invalidation in any run. If every later write stamped at
   * or below its target reaches the server within the slack of the invalidator's lead, then after
   * it no tracked read is ever served such a frame, also once the marker expired.
   */
  lemma FenceSafety(start: int, events: seq<Event>, i: nat, key: ValueKey)
    requires AllLegal(events) && i < |events| && events[i].Invalidate?
    requires WritesWithinSlack(start, events, i)
    ensures !ServesStale(Run(start, events), key, events[i].at + events[i].buffer)
  {
    var watermark := events[i].at + events[i].buffer;
    forall w | 0 <= w < |events| && events[w].Write? && events[w].frame.stamp <= watermark
      ensures TimeAt(start, events, w) + events[w].ttl <= GuardEnd(start, events, i)
    {
      FencedWriteExpires(start, events, i, w);
    }
    assert events[..|events|] == events;
    RunKeepsFence(start, events, i, |events|);
    GuardedReadIsFresh(Run(start, events), key, watermark, GuardEnd(start, events, i));
  }

  lemma GuardedReadIsFresh(s: Server, key: ValueKey, watermark: nat, limit: int)
    requires ValuesGoneBy(s, watermark, limit) && Guarded(s, watermark, limit)
    ensures !ServesStale(s, key, watermark)
  {
    TrackedHitIsUnfenced(RawAt(s, key), MarkerAt(s));
  }

  /** Bounding each write's stamp-to-arrival delay is enough. */
  lemma DelaysAreEnough(start: int, events: seq<Event>, i: nat)
    requires AllLegal(events) && i < |events| && events[i].Invalidate?
    requires DelaysWithinSlack(start, events, i)
    ensures WritesWithinSlack(start, events, i)
  {
    forall w | i < w < |events| && events[w].Write? && events[w].frame.stamp <= events[i].at + events[i].buffer
      ensures Lateness(start, events, i, w) + Lead(start, events, i) <= Slack(events[i].buffer)
    {
      assert Delay(start, events, w) + Lead(start, events, i) <= Slack(events[i].buffer);
    }
  }

  // ------------------------------------------------ what the writer's checks add

  /**
   * Write `w` is vouched for by a read that ran after invalidation `i`, before event `r` and before the
   * guard's end, if it is stamped above the live marker that read met.
   */
  predicate Vouched(start: int, events: seq<Event>, i: nat, w: nat, r: nat)
    requires AllLegal(events) && i < |events| && events[i].Invalidate? && w < |events| && events[w].Write?
  {
    && i < r <= w && TimeAt(start, events, r) < GuardEnd(start, events, i)
    && events[w].frame.stamp > Current(Run(start, events[..r]).marker, TimeAt(start, events, r))
  }

  lemma VouchedIsUnfenced(start: int, events: seq<Event>, i: nat, w: nat, r: nat)
    requires AllLegal(events) && i < |events| && events[i].Invalidate? && w < |events| && events[w].Write?
    requires Vouched(start, events, i, w, r)
    ensures events[w].frame.stamp > events[i].at + events[i].buffer
  {
    RunKeepsGuard(start, events, i, r);
  }

  /** Only writes that no read vouches for must arrive within the slack; origins[w] is where w's read ran. */
  predicate OthersWithinSlack(start: int, events: seq<Event>, i: nat, origins: seq<nat>)
    requires AllLegal(events) && i < |events| && events[i].Invalidate? && |origins| == |events|
  {
    forall w :: i < w < |events| && events[w].Write? && events[w].frame.stamp <= events[i].at + events[i].buffer
      && !Vouched(start, events, i, w, origins[w])
      ==> Lateness(start, events, i, w) + Lead(start, events, i) <= Slack(events[i].buffer)
  }

  /** Fence safety when only the writes whose read came before the invalidation, or too late, are bounded. */
  lemma FenceSafetyWithChecks(start: int, events: seq<Event>, i: nat, origins: seq<nat>, key: ValueKey)
    requires AllLegal(events) && i < |events| && events[i].Invalidate? && |origins| == |events|
    requires OthersWithinSlack(start, events, i, origins)
    ensures !ServesStale(Run(start, events), key, events[i].at + events[i].buffer)
  {
    forall w | i < w < |events| && events[w].Write? && events[w].frame.stamp <= events[i].at + events[i].buffer
      ensures Lateness(start, events, i, w) + Lead(start, events, i) <= Slack(events[i].buffer)
    {
      if Vouched(start, events, i, w, origins[w]) {
        VouchedIsUnfenced(start, events, i, w, origins[w]);
      }
    }
    FenceSafety(start, events, i, key);
  }

  /**
   * The slack is exact: one millisecond more, and some run serves a frame stamped at the
   * target of an invalidation it has already seen.
   */
  lemma SlackIsExact(at: nat, buffer: nat, lead: int, delay: int, key: ValueKey)
    returns (start: int, events: seq<Event>)
    requires buffer <= MAX_DURATION_MS && 0 < at + buffer <= MAX_SAFE_INTEGER
    requires delay + lead > Slack(buffer)
    ensures AllLegal(events) && |events| == 4
    ensures events[0] == Invalidate(at, buffer) && Lead(start, events, 0) == lead
    ensures events[2].Write? && events[2].frame.stamp == at + buffer
    ensures Delay(start, events, 2) == Lateness(start, events, 0, 2) == delay
    ensures ServesStale(Run(start, events), key, at + buffer)
  {
    hide DecodeFrame, EncodeFrame, StoredPayload, Run, Print;
    start := at - lead;
    var watermark := at + buffer;
    var limit := start + Retention(watermark, at);
    var sent := watermark + delay;
    var wait: nat := Max(0, limit - sent);
    var frame := Frame(watermark, true, []);
    var one := [Invalidate(at, buffer)];
    var two := one + [Tick(sent - start)];
    var three := two + [Write(key, frame, MAX_TRACKED_TTL_MS)];
    events := three + [Tick(wait)];
    assert [] + one == one && events[..0] == [] && events[..2] == two;
    RunEmpty(start);
    RunSnoc(start, [], one[0]);
    RunSnoc(start, one, two[1]);
    RunSnoc(start, two, three[2]);
    RunSnoc(start, three, events[3]);
    AdvanceValue(Absent, start, at, buffer);
    FrameRoundTrip(frame, None);
  }

  lemma RunEmpty(start: int)
    ensures Run(start, []) == Server(start, Absent, map[])
  {
  }

  lemma RunSnoc(start: int, events: seq<Event>, e: Event)
    requires AllLegal(events) && Legal(e)
    ensures AllLegal(events + [e]) && Run(start, events + [e]) == Apply(Run(start, events), e)
  {
    assert (events + [e])[..|events|] == events;
  }
}
