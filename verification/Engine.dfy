/**
 * The shared chain: local lookup, Redis read, source, refill, recovery. What the outside world
 * answers is one environment value per call; what the call leaves behind is two effect logs.
 */
module Engine {
  import opened Base
  import opened Utf8
  import opened Decimals
  import opened Frames
  import opened Envelope
  import Fence
  import Watermark

  // -------------------------------------------------------------------- values

  /** The operation's codec over the compression envelope; no threshold means no compression. */
  datatype Codec<!V> = Codec(
    zstd: Zstd, threshold: Option<nat>, limit: int, encode: V -> Option<Payload>, decode: Payload -> Option<V>)

  function StoredForm<V>(c: Codec<V>, v: V): Option<Payload> {
    var p := c.encode(v);
    if p.None? then None
    else if c.threshold.None? then Some(EscapeRaw(p.value))
    else Some(CompressPayload(c.zstd, p.value, c.threshold.value, c.limit).0)
  }

  function DecodeValue<V>(c: Codec<V>, f: Frame): Option<V>
    requires Lawful(c.zstd)
  {
    c.decode(DecompressPayload(c.zstd, Payload(f.binary, f.payload), c.limit).0)
  }

  /** Whatever is written for v, compressed or not, decodes from Redis as the codec's own payload. */
  lemma StoredFormReadsBack<V>(c: Codec<V>, v: V, stamp: nat, marker: Option<seq<byte>>, tracked: bool)
    requires Lawful(c.zstd) && c.encode(v).Some? && stamp <= MAX_SAFE_INTEGER
    requires tracked ==> !Fences(marker, stamp)
    ensures var s := StoredForm(c, v).value;
            var raw := EncodeFrame(Frame(stamp, s.binary, s.bytes));
            var result := DecodeFrame(raw, tracked, marker);
            && result.Hit? && result.frame.stamp == stamp
            && DecodeValue(c, result.frame) == c.decode(Normal(c.encode(v).value))
  {
    var p, s := c.encode(v).value, StoredForm(c, v).value;
    var f := Frame(stamp, s.binary, s.bytes);
    FrameRoundTrip(f, marker);
    hide Lawful, DecodeFrame, EncodeFrame, DecompressPayload, Fences;
    StoredFormDecompresses(c, v);
  }

  lemma StoredFormDecompresses<V>(c: Codec<V>, v: V)
    requires Lawful(c.zstd) && c.encode(v).Some?
    ensures var s := StoredForm(c, v).value;
            var stored := if s.binary then s.bytes else Repair(s.bytes);
            DecompressPayload(c.zstd, Payload(s.binary, stored), c.limit).0 == Normal(c.encode(v).value)
  {
    var p, s := c.encode(v).value, StoredForm(c, v).value;
    RepairFixesOnlyIllFormed(p.bytes);
    RawRoundTrip(c.zstd, p, c.limit);
    if c.threshold.Some? {
      CompressionRoundTrip(c.zstd, p, c.threshold.value, c.limit);
    }
    hide Lawful, Repair;
    if s.binary {
      assert Payload(s.binary, s.bytes) == s;
    }
  }

  // --------------------------------------------------------------- environment

  datatype Policy = Policy(
    local: bool, remoteConfigured: bool, remote: bool, tracked: bool, ttl: nat, maxAge: nat)

  datatype LocalAnswer<V> = LocalFault | LocalAbsent | LocalFound(value: V)

  /** Answers and wall-clock readings, in the order the chain may ask for them. */
  datatype Env<V> = Env(
    local: LocalAnswer<V>, readFails: bool, raw: Option<seq<byte>>, marker: Option<seq<byte>>, readWall: int,
    source: Option<V>, recoverable: bool, recoverWall: int, recheckWall: int,
    firstStamp: int, stamp: int, writeFails: bool)

  function ReadOf<V>(p: Policy, env: Env<V>): ReadResult {
    DecodeFrame(env.raw, p.tracked, env.marker)
  }

  datatype Remote<V> =
    | Served(value: V, frame: Frame)
    | Missed(fence: Option<nat>)
    | Retained(frame: Frame)
    | ReadError
    | DecodeError

  /** Where a value came from. */
  datatype Origin = FromLocal | FromRedis(frame: Frame) | FromSource | Recovered(frame: Frame)

  datatype Outcome<V> = Returned(value: V, origin: Origin) | Failed

  datatype Put<V> = Put(value: V, origin: Origin)

  datatype Write = Write(frame: Frame, ttl: nat)

  /** 0 <= age < ceiling at the reading, for a stamp that is a safe integer. */
  predicate Aged(f: Frame, wall: int, floor: int, ceiling: int) {
    f.stamp <= MAX_SAFE_INTEGER && floor <= wall - f.stamp < ceiling
  }

  function Ceiling(p: Policy): nat {
    if p.maxAge > 0 then p.maxAge else p.ttl
  }

  predicate Fresh(p: Policy, f: Frame, wall: int) {
    Aged(f, wall, 0, p.ttl) && Aged(f, wall, 0, Ceiling(p))
  }

  predicate RemoteOn(p: Policy) {
    p.remoteConfigured && p.remote
  }

  predicate ReadFailed<V>(p: Policy, env: Env<V>) {
    env.readFails || ReadOf(p, env).EncodingError?
  }

  /** Redis answered with a frame that is fresh and decodes. */
  predicate FreshHit<V>(c: Codec<V>, p: Policy, env: Env<V>)
    requires Lawful(c.zstd)
  {
    && !env.readFails && ReadOf(p, env).Hit? && Fresh(p, ReadOf(p, env).frame, env.readWall)
    && DecodeValue(c, ReadOf(p, env).frame).Some?
  }

  /** Redis answered with an expired frame that stays below the recovery ceiling at both later readings. */
  predicate RecoverableHit<V>(c: Codec<V>, p: Policy, env: Env<V>)
    requires Lawful(c.zstd)
  {
    && !env.readFails && ReadOf(p, env).Hit? && env.recoverable
    && Aged(ReadOf(p, env).frame, env.readWall, p.ttl, p.maxAge)
    && Aged(ReadOf(p, env).frame, env.recoverWall, 0, p.maxAge)
    && Aged(ReadOf(p, env).frame, env.recheckWall, 0, p.maxAge)
    && DecodeValue(c, ReadOf(p, env).frame).Some?
  }

  predicate LocalHit<V>(p: Policy, env: Env<V>) {
    p.local && env.local.LocalFound?
  }

  predicate Stampable(wall: int) {
    0 <= wall <= MAX_SAFE_INTEGER
  }

  /** The refill reaches Redis: encodable, stampable, and above the fence at both checks. */
  predicate Issues<V>(c: Codec<V>, p: Policy, env: Env<V>, v: V, fence: Option<nat>) {
    && StoredForm(c, v).Some? && Stampable(env.stamp)
    && (p.tracked && fence.Some? ==>
          Stampable(env.firstStamp) && env.firstStamp > fence.value && env.stamp > fence.value)
  }

  /** How long Redis keeps a refill: the recovery ceiling when set, at most an hour when tracked. */
  function WriteTtl(p: Policy): nat {
    if p.tracked && Ceiling(p) > MAX_TRACKED_TTL_MS then MAX_TRACKED_TTL_MS else Ceiling(p)
  }

  predicate PutOk(p: Policy, origin: Origin) {
    origin.FromRedis? || (origin.FromSource? && !(p.tracked && RemoteOn(p)))
  }

  predicate WriteOk(p: Policy, w: Write) {
    w.frame.stamp <= MAX_SAFE_INTEGER && w.ttl <= Ceiling(p) && (p.tracked ==> w.ttl <= MAX_TRACKED_TTL_MS)
  }

  // -------------------------------------------------------------------- the chain

  class Chain<!V> {
    const codec: Codec<V>
    const policy: Policy
    /** Values put in the local store and frames sent to Redis by calls of this chain. */
    var puts: seq<Put<V>>
    var writes: seq<Write>

    /** Over any number of calls: nothing recovered is published, and tracked values stay short-lived and Redis-read. */
    ghost predicate Valid()
      reads this
    {
      && (forall i :: 0 <= i < |puts| ==> PutOk(policy, puts[i].origin))
      && (forall i :: 0 <= i < |writes| ==> WriteOk(policy, writes[i]))
    }

    constructor (codec: Codec<V>, policy: Policy)
      ensures this.codec == codec && this.policy == policy && puts == [] && writes == [] && Valid()
    {
      this.codec, this.policy, puts, writes := codec, policy, [], [];
    }

    /** One serving read: each classification has its exact condition. */
    method ReadServing(env: Env<V>) returns (r: Remote<V>)
      requires Lawful(codec.zstd)
      ensures r.ReadError? <==> ReadFailed(policy, env)
      ensures r.Served? <==> FreshHit(codec, policy, env)
      ensures r.Served? ==> r.frame == ReadOf(policy, env).frame && DecodeValue(codec, r.frame) == Some(r.value)
      ensures r.Retained? <==>
                && !env.readFails && ReadOf(policy, env).Hit?
                && Aged(ReadOf(policy, env).frame, env.readWall, policy.ttl, Ceiling(policy))
      ensures r.Retained? ==> r.frame == ReadOf(policy, env).frame
      ensures r.DecodeError? <==>
                && !env.readFails && ReadOf(policy, env).Hit? && Fresh(policy, ReadOf(policy, env).frame, env.readWall)
                && DecodeValue(codec, ReadOf(policy, env).frame).None?
      ensures r.Missed? ==> r.fence == ReportedFence(policy, env)
    {
      if env.readFails {
        return ReadError;
      }
      var result := ReadOf(policy, env);
      match result
      case EncodingError => return ReadError;
      case Miss(_, observed) => return Missed(observed);
      case Hit(frame) =>
        var age := env.readWall - frame.stamp;
        if frame.stamp > MAX_SAFE_INTEGER || age < 0 {
          return Missed(None);
        }
        if age >= Ceiling(policy) {
          return Missed(None);
        }
        if age >= policy.ttl {
          return Retained(frame);
        }
        var value := DecodeValue(codec, frame);
        if value.None? {
          return DecodeError;
        }
        return Served(value.value, frame);
    }

    /** At most one frame goes out, exactly when the refill is allowed. */
    method PutRemote(v: V, fence: Option<nat>, env: Env<V>) returns (filled: bool)
      requires Valid()
      modifies this
      ensures Valid()
      ensures puts == old(puts)
      ensures writes == old(writes)
                        + if Issues(codec, policy, env, v, fence) then [RefillOf(codec, policy, env, v)] else []
      ensures filled <==> Issues(codec, policy, env, v, fence) && !env.writeFails
    {
      var bound := if policy.tracked then fence else None;
      if bound.Some? && (!Stampable(env.firstStamp) || env.firstStamp <= bound.value) {
        return false;
      }
      var payload := StoredForm(codec, v);
      if payload.None? || !Stampable(env.stamp) {
        return false;
      }
      if bound.Some? && env.stamp <= bound.value {
        return false;
      }
      var ttl := policy.ttl;
      if policy.maxAge > 0 {
        ttl := policy.maxAge;
      }
      if policy.tracked && ttl > MAX_TRACKED_TTL_MS {
        ttl := MAX_TRACKED_TTL_MS;
      }
      writes := writes + [Write(Frame(env.stamp, payload.value.binary, payload.value.bytes), ttl)];
      return !env.writeFails;
    }

    /** Serve a retained frame only below the ceiling, judged before and again after decoding. */
    method Recover(frame: Option<Frame>, env: Env<V>) returns (r: Option<V>)
      requires Lawful(codec.zstd)
      ensures r.Some? <==>
                && frame.Some? && DecodeValue(codec, frame.value).Some?
                && Aged(frame.value, env.recoverWall, 0, policy.maxAge)
                && Aged(frame.value, env.recheckWall, 0, policy.maxAge)
      ensures r.Some? ==> r == DecodeValue(codec, frame.value)
    {
      if frame.None? || !Aged(frame.value, env.recoverWall, 0, policy.maxAge) {
        return None;
      }
      var value := DecodeValue(codec, frame.value);
      if value.None? || !Aged(frame.value, env.recheckWall, 0, policy.maxAge) {
        return None;
      }
      return value;
    }

    /** The local store receives one value; a value it must not receive is not offered. */
    method PutLocal(v: V, origin: Origin)
      requires Valid() && PutOk(policy, origin)
      modifies this
      ensures Valid() && puts == old(puts) + [Put(v, origin)] && writes == old(writes)
    {
      puts := puts + [Put(v, origin)];
    }

    /** The chain from the Redis read onwards, with the same contract as the whole. */
    method ThroughRemote(env: Env<V>, localMiss: bool) returns (r: Outcome<V>)
      requires Valid() && Lawful(codec.zstd) && RemoteOn(policy)
      requires !LocalHit(policy, env) && localMiss == (policy.local && env.local.LocalAbsent?)
      modifies this
      ensures Valid() && Answered(codec, policy, env, r)
      ensures puts == old(puts) + if Stores(policy, env, r) then [Put(r.value, r.origin)] else []
      ensures writes == old(writes)
                        + if Refills(codec, policy, env, r) then [RefillOf(codec, policy, env, r.value)] else []
    {
      hide Valid, Lawful, DecodeFrame, DecodeValue, StoredForm, Issues, RefillOf;
      var remote := ReadServing(env);
      if remote.Served? {
        if localMiss {
          PutLocal(remote.value, FromRedis(remote.frame));
        }
        return Returned(remote.value, FromRedis(remote.frame));
      }
      if env.source.None? {
        if !remote.ReadError? && !remote.DecodeError? && policy.maxAge > 0 && env.recoverable {
          var value := Recover(if remote.Retained? then Some(remote.frame) else None, env);
          if value.Some? {
            return Returned(value.value, Recovered(remote.frame));
          }
        }
        return Failed;
      }
      var v := env.source.value;
      if !remote.ReadError? {
        var _ := PutRemote(v, if remote.Missed? then remote.fence else None, env);
      }
      if localMiss && !policy.tracked {
        PutLocal(v, FromSource);
      }
      return Returned(v, FromSource);
    }

    /**
     * One call, exactly. Redis serves what is fresh; recovery serves what stayed below its ceiling
     * and leaves no effects; the local store receives only the returned value, and for a tracked
     * key with remote serving on only one read from Redis; Redis receives only a source value,
     * above the fence the read reported.
     */
    method Shared(env: Env<V>) returns (r: Outcome<V>)
      requires Valid() && Lawful(codec.zstd)
      modifies this
      ensures Valid() && Answered(codec, policy, env, r)
      ensures puts == old(puts) + if Stores(policy, env, r) then [Put(r.value, r.origin)] else []
      ensures writes == old(writes)
                        + if Refills(codec, policy, env, r) then [RefillOf(codec, policy, env, r.value)] else []
    {
      var localMiss := false;
      if policy.local {
        match env.local
        case LocalFault =>
        case LocalFound(value) => return Returned(value, FromLocal);
        case LocalAbsent => localMiss := true;
      }
      hide Valid, Lawful, FreshHit, RecoverableHit, Issues, RefillOf;
      if policy.remoteConfigured && policy.remote {
        r := ThroughRemote(env, localMiss);
        return;
      }
      if env.source.None? {
        return Failed;
      }
      if localMiss {
        PutLocal(env.source.value, FromSource);
      }
      return Returned(env.source.value, FromSource);
    }
  }

  /** Which layer answers, each if and only if its condition, and what its answer guarantees. */
  predicate Answered<V(==)>(c: Codec<V>, p: Policy, env: Env<V>, r: Outcome<V>)
    requires Lawful(c.zstd)
  {
    && (r.Returned? ==> OriginOk(c, p, env, r.value, r.origin))
    && (r.Returned? && r.origin.FromLocal? <==> LocalHit(p, env))
    && (r.Returned? && r.origin.FromRedis? <==> !LocalHit(p, env) && RemoteOn(p) && FreshHit(c, p, env))
    && (r.Returned? && r.origin.FromSource? <==>
          env.source.Some? && !LocalHit(p, env) && !(RemoteOn(p) && FreshHit(c, p, env)))
    && (r.Returned? && r.origin.Recovered? <==>
          !LocalHit(p, env) && RemoteOn(p) && env.source.None? && RecoverableHit(c, p, env))
  }

  /** A local miss stores the returned value, but a tracked key's source value only while remote serving is off. */
  predicate Stores<V>(p: Policy, env: Env<V>, r: Outcome<V>) {
    p.local && env.local.LocalAbsent? && r.Returned? && PutOk(p, r.origin)
  }

  predicate Refills<V>(c: Codec<V>, p: Policy, env: Env<V>, r: Outcome<V>) {
    && RemoteOn(p) && !ReadFailed(p, env) && r.Returned? && r.origin.FromSource?
    && Issues(c, p, env, r.value, ReportedFence(p, env))
  }

  function RefillOf<V>(c: Codec<V>, p: Policy, env: Env<V>, v: V): Write
    requires StoredForm(c, v).Some? && Stampable(env.stamp)
  {
    Write(Frame(env.stamp, StoredForm(c, v).value.binary, StoredForm(c, v).value.bytes), WriteTtl(p))
  }

  /** The fence a read that missed reported; none when a frame was found. */
  function ReportedFence<V>(p: Policy, env: Env<V>): Option<nat> {
    if ReadOf(p, env).Miss? then ReadOf(p, env).observed else None
  }

  /** What each origin of a returned value guarantees. */
  predicate OriginOk<V(==)>(c: Codec<V>, p: Policy, env: Env<V>, v: V, origin: Origin)
    requires Lawful(c.zstd)
  {
    match origin
    case FromLocal => p.local && env.local == LocalFound(v)
    case FromSource => env.source == Some(v)
    case FromRedis(f) =>
      && p.remoteConfigured && p.remote && !env.readFails && ReadOf(p, env) == Hit(f)
      && 0 <= env.readWall - f.stamp < p.ttl && DecodeValue(c, f) == Some(v)
    case Recovered(f) =>
      && p.remoteConfigured && p.remote && !env.readFails && ReadOf(p, env) == Hit(f)
      && env.source.None? && env.recoverable && DecodeValue(c, f) == Some(v)
      && p.ttl <= env.readWall - f.stamp < p.maxAge
      && 0 <= env.recoverWall - f.stamp < p.maxAge && 0 <= env.recheckWall - f.stamp < p.maxAge
  }

  // ------------------------------------------------------------------ theorems

  /**
   * When a refill goes out, in the terms of one call: the value encodes, the write stamp is a safe
   * integer and, for a tracked key whose read reported a fence, both clock readings lie above it.
   */
  lemma RefillExactly<V>(c: Codec<V>, p: Policy, env: Env<V>, v: V, fence: Option<nat>)
    ensures c.encode(v).None? || env.stamp < 0 || env.stamp > 9007199254740991 ==> !Issues(c, p, env, v, fence)
    ensures c.encode(v).Some? && 0 <= env.stamp <= 9007199254740991 ==>
              && (!p.tracked || fence.None? ==> Issues(c, p, env, v, fence))
              && (p.tracked && fence.Some? ==>
                    (Issues(c, p, env, v, fence) <==>
                       fence.value < env.firstStamp <= 9007199254740991 && fence.value < env.stamp))
  {
  }

  /** How long a refill can be needed: until stale recovery gives up on it, or else until it expires. */
  function Needed(p: Policy): nat {
    if p.maxAge > 0 then p.maxAge else p.ttl
  }

  /**
   * Redis keeps a refill exactly as long as it can be needed, at most an hour when tracked: from the
   * write on, in any server state, the frame is there after every shorter wait and gone after every other.
   */
  lemma RefillKeptWhileNeeded<V>(
    c: Codec<V>, p: Policy, env: Env<V>, v: V, fence: Option<nat>, s: Fence.Server, key: Fence.ValueKey, wait: nat)
    requires Issues(c, p, env, v, fence) && p.ttl > 0
    ensures !p.tracked ==> RefillOf(c, p, env, v).ttl == Needed(p)
    ensures p.tracked ==>
              && Fence.Legal(RefillEvent(c, p, env, v, key))
              && var later := Fence.Apply(Fence.Apply(s, RefillEvent(c, p, env, v, key)), Fence.Tick(wait));
              && (wait < Needed(p) && wait < 3600000 ==>
                    Fence.RawAt(later, key) == EncodeFrame(RefillOf(c, p, env, v).frame))
              && (wait >= Needed(p) || wait >= 3600000 ==> Fence.RawAt(later, key) == None)
  {
    hide StoredForm, EncodeFrame;
    assert RefillOf(c, p, env, v).frame.stamp <= MAX_SAFE_INTEGER;
    EncodedSome(RefillOf(c, p, env, v).frame);
  }

  lemma EncodedSome(f: Frame)
    requires f.stamp <= MAX_SAFE_INTEGER
    ensures EncodeFrame(f).Some?
  {
  }

  /** The local store receives nothing unless it missed; then a Redis value, or a source value it may keep. */
  lemma StoresExactly<V>(p: Policy, env: Env<V>, r: Outcome<V>)
    requires r.Returned?
    ensures p.local && env.local.LocalAbsent? && r.origin.FromRedis? ==> Stores(p, env, r)
    ensures p.local && env.local.LocalAbsent? && r.origin.FromSource? ==>
              (Stores(p, env, r) <==> !p.tracked || !p.remoteConfigured || !p.remote)
    ensures !p.local || !env.local.LocalAbsent? || r.origin.FromLocal? || r.origin.Recovered? ==> !Stores(p, env, r)
  {
  }

  /** A refill is served back as the same value while fresh and not fenced. */
  lemma RefillIsServed<V>(c: Codec<V>, p: Policy, env: Env<V>, v: V, fence: Option<nat>, later: Env<V>)
    requires Lawful(c.zstd) && Issues(c, p, env, v, fence)
    requires c.decode(Normal(c.encode(v).value)) == Some(v)
    requires later.raw == EncodeFrame(RefillOf(c, p, env, v).frame) && !later.readFails
    requires p.tracked ==> !Fences(later.marker, env.stamp)
    requires 0 <= later.readWall - env.stamp < p.ttl && later.readWall - env.stamp < Ceiling(p)
    ensures FreshHit(c, p, later) && DecodeValue(c, ReadOf(p, later).frame) == Some(v)
  {
    hide Lawful, DecodeFrame, DecodeValue, EncodeFrame, Normal, Fences, EscapeRaw, CompressPayload;
    StoredFormReadsBack(c, v, env.stamp, later.marker, p.tracked);
    hide StoredForm;
  }

  /**
   * The chain on top of the protocol: whatever run the server went through, once it has processed an
   * invalidation whose later writes arrive within the slack, no tracked call returns or recovers a
   * Redis frame stamped at or below its target.
   */
  lemma ServedAboveInvalidation<V>(
    c: Codec<V>, p: Policy, env: Env<V>, v: V, origin: Origin,
    start: int, events: seq<Fence.Event>, i: nat, key: Fence.ValueKey)
    requires Lawful(c.zstd) && p.tracked && OriginOk(c, p, env, v, origin) && (origin.FromRedis? || origin.Recovered?)
    requires Fence.AllLegal(events) && i < |events| && events[i].Invalidate?
    requires Fence.WritesWithinSlack(start, events, i)
    requires env.raw == Fence.RawAt(Fence.Run(start, events), key)
    requires env.marker == Fence.MarkerAt(Fence.Run(start, events))
    ensures origin.frame.stamp > events[i].at + events[i].buffer
  {
    Fence.FenceSafety(start, events, i, key);
    assert ReadOf(p, env) == Fence.Read(Fence.Run(start, events), key) == Hit(origin.frame);
  }

  /** The watermark Redis held when the read ran. */
  function MarkerValue<V>(env: Env<V>): Option<nat> {
    if env.marker.Some? then ParseSafe(env.marker.value) else None
  }

  /** The frame read was stamped ahead of this client's clock. */
  predicate FutureDated<V>(p: Policy, env: Env<V>) {
    ReadOf(p, env).Hit? && ReadOf(p, env).frame.stamp > env.readWall
  }

  /** The call with its two write-clock readings replaced. */
  function Timed<V>(env: Env<V>, first: int, stamp: int): Env<V> {
    env.(firstStamp := first, stamp := stamp)
  }

  /** A refill goes out at these readings of a wall clock that has not stepped back since the read. */
  predicate RefilledAt<V>(c: Codec<V>, p: Policy, env: Env<V>, v: V, first: int, stamp: int) {
    env.readWall <= first <= stamp && Issues(c, p, Timed(env, first, stamp), v, ReportedFence(p, env))
  }

  /**
   * Exactly when every refill a tracked read can lead to is stamped above the watermark Redis held:
   * the frame found was not future-dated, or the client's clock had already passed the watermark.
   */
  lemma RefillAboveWatermark<V>(c: Codec<V>, p: Policy, env: Env<V>, v: V)
    requires p.tracked && !ReadFailed(p, env) && StoredForm(c, v).Some? && MarkerValue(env).Some?
    ensures (forall first, stamp :: RefilledAt(c, p, env, v, first, stamp) ==> stamp > MarkerValue(env).value)
            <==> !FutureDated(p, env) || env.readWall > MarkerValue(env).value
  {
    ParseIsValue(env.marker);
    ObservedIsMarker(env.raw, env.marker);
    hide DecodeFrame, Fences, ParseSafe, StoredForm, SafeText, Value;
    var now := Max(0, env.readWall);
    if FutureDated(p, env) && env.readWall <= MarkerValue(env).value {
      assert RefilledAt(c, p, env, v, now, now);
    }
  }

  lemma ParseIsValue(marker: Option<seq<byte>>)
    ensures marker.Some? && ParseSafe(marker.value).Some? ==>
              && SafeText(marker.value) && ParseSafe(marker.value).value == Value(marker.value)
              && Value(marker.value) <= MAX_SAFE_INTEGER
    ensures marker.Some? && ParseSafe(marker.value).Some? ==>
              forall stamp: nat :: !Fences(marker, stamp) ==> stamp > Value(marker.value)
  {
  }

  lemma ObservedIsMarker(raw: Option<seq<byte>>, marker: Option<seq<byte>>)
    ensures DecodeFrame(raw, true, marker).Miss? ==>
              DecodeFrame(raw, true, marker).observed == if marker.Some? then ParseSafe(marker.value) else None
    ensures DecodeFrame(raw, true, marker).Hit? ==> !Fences(marker, DecodeFrame(raw, true, marker).frame.stamp)
  {
    TrackedHitIsUnfenced(raw, marker);
  }

  /** A refill of a tracked key is a write the invalidation protocol allows. */
  lemma TrackedRefillIsLegal<V>(c: Codec<V>, p: Policy, env: Env<V>, v: V, fence: Option<nat>, key: Fence.ValueKey)
    requires Issues(c, p, env, v, fence) && p.tracked && p.ttl > 0
    ensures Fence.Legal(RefillEvent(c, p, env, v, key))
  {
  }

  /**
   * What the two fence checks give the protocol. A tracked call reads the server after invalidation i and
   * before its guard ends, and either the frame found is not future-dated or the client's clock has passed
   * the marker. Then whatever refill it sends, at any later event w, is legal, is vouched for by that read
   * and is stamped above i's target: it needs no bound on its arrival.
   */
  lemma RefillIsVouched<V>(
    c: Codec<V>, p: Policy, env: Env<V>, v: V, first: int, stamp: int,
    start: int, events: seq<Fence.Event>, i: nat, r: nat, w: nat, key: Fence.ValueKey)
    requires Fence.AllLegal(events) && i < r <= w < |events| && events[i].Invalidate?
    requires Fence.TimeAt(start, events, r) < Fence.GuardEnd(start, events, i)
    requires p.tracked && p.ttl > 0 && !ReadFailed(p, env) && RefilledAt(c, p, env, v, first, stamp)
    requires env.marker == Fence.MarkerAt(Fence.Run(start, events[..r]))
    requires !FutureDated(p, env) || (MarkerValue(env).Some? ==> env.readWall > MarkerValue(env).value)
    ensures Fence.Legal(RefillEvent(c, p, Timed(env, first, stamp), v, key))
    ensures events[w] == RefillEvent(c, p, Timed(env, first, stamp), v, key) ==> Fence.Vouched(start, events, i, w, r)
    ensures stamp > events[i].at + events[i].buffer
  {
    var server := Fence.Run(start, events[..r]);
    TrackedRefillIsLegal(c, p, Timed(env, first, stamp), v, ReportedFence(p, env), key);
    Fence.RunKeepsGuard(start, events, i, r);
    ParseIsValue(env.marker);
    RefillAboveWatermark(c, p, env, v);
    hide DecodeFrame, Fences, StoredForm, Issues, FutureDated;
    assert MarkerValue(env) == Some(Watermark.Current(server.marker, server.now));
    assert RefilledAt(c, p, env, v, first, stamp);
  }

  function RefillEvent<V>(c: Codec<V>, p: Policy, env: Env<V>, v: V, key: Fence.ValueKey): Fence.Event
    requires StoredForm(c, v).Some? && Stampable(env.stamp)
  {
    Fence.Write(key, RefillOf(c, p, env, v).frame, RefillOf(c, p, env, v).ttl)
  }

  /**
   * Finding: every future-dated frame loses its fence. The refill then goes out whatever the
   * watermark, so it lands below it exactly when the write stamp does.
   */
  lemma FutureFrameDropsFence<V>(c: Codec<V>, p: Policy, env: Env<V>, v: V)
    requires p.tracked && !env.readFails && FutureDated(p, env)
    ensures ReportedFence(p, env) == None
    ensures Issues(c, p, env, v, ReportedFence(p, env)) <==> StoredForm(c, v).Some? && Stampable(env.stamp)
  {
  }

  /** A read that finds a frame one millisecond ahead of the clock, stamped just above watermark w. */
  function SkewedRead<V>(v: V, w: nat): Env<V>
    requires w < MAX_SAFE_INTEGER
  {
    Env(LocalAbsent, false, EncodeFrame(Frame(w + 1, true, [])), Some(Print(w)), w, Some(v), false, w, w, w, w, false)
  }

  /**
   * Such a read refills at the watermark itself, for every watermark: the written frame is fenced
   * from the start and no read ever serves it.
   */
  lemma SkewedReadRefillsFenced<V>(c: Codec<V>, p: Policy, v: V, w: nat)
    requires p.tracked && StoredForm(c, v).Some? && w < MAX_SAFE_INTEGER
    ensures var env := SkewedRead(v, w);
            && FutureDated(p, env) && MarkerValue(env) == Some(w)
            && Issues(c, p, env, v, ReportedFence(p, env))
            && RefillOf(c, p, env, v).frame.stamp == w
            && DecodeFrame(EncodeFrame(RefillOf(c, p, env, v).frame), true, env.marker).Miss?
  {
    var env := SkewedRead(v, w);
    PrintParses(w);
    ParseIsValue(env.marker);
    FrameRoundTrip(Frame(w + 1, true, []), env.marker);
    FrameRoundTrip(Frame(w, StoredForm(c, v).value.binary, StoredForm(c, v).value.bytes), env.marker);
    hide DecodeFrame, EncodeFrame, ParseSafe, Print, SafeText, StoredForm;
  }
}
