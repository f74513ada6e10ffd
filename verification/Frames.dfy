/** Version-1 value frames: the writer, the Go and the Python decoder. */
module Frames {
  import opened Base
  import opened Utf8
  import opened Decimals

  datatype Frame = Frame(stamp: nat, binary: bool, payload: seq<byte>)

  datatype MissReason = ValueAbsent | Unclassified | WatermarkFenced

  datatype ReadResult =
    | Miss(reason: MissReason, observed: Option<nat>)
    | Hit(frame: Frame)
    | EncodingError

  // ------------------------------------------------------------------- stamps

  function ToBytes(n: nat, width: nat): (s: seq<byte>)
    ensures |s| == width
  {
    if width == 0 then [] else ToBytes(n / 256, width - 1) + [n % 256]
  }

  function FromBytes(s: seq<byte>): nat {
    if s == [] then 0 else FromBytes(s[..|s| - 1]) * 256 + s[|s| - 1]
  }

  function Pow256(n: nat): nat {
    if n == 0 then 1 else 256 * Pow256(n - 1)
  }

  lemma {:induction false} StampRoundTrip(n: nat, width: nat)
    requires n < Pow256(width)
    ensures FromBytes(ToBytes(n, width)) == n
  {
    if width > 0 {
      StampRoundTrip(n / 256, width - 1);
      assert ToBytes(n, width)[..width - 1] == ToBytes(n / 256, width - 1);
    }
  }

  lemma SafeStampFits(n: nat)
    requires n <= MAX_SAFE_INTEGER
    ensures FromBytes(ToBytes(n, 8)) == n
  {
    assert Pow256(4) == 4294967296;
    assert Pow256(8) == 18446744073709551616;
    StampRoundTrip(n, 8);
  }

  // ------------------------------------------------------------------- writer

  /** The stored payload: binary bytes verbatim, text repaired. */
  function StoredPayload(f: Frame): seq<byte> {
    if f.binary then f.payload else Repair(f.payload)
  }

  /** One complete frame; a stamp outside the safe integers is refused. */
  function EncodeFrame(f: Frame): Option<seq<byte>> {
    if f.stamp > MAX_SAFE_INTEGER then None
    else Some([1] + ToBytes(f.stamp, 8) + [if f.binary then 1 else 0] + StoredPayload(f))
  }

  // ----------------------------------------------------------------- decoders

  /** Go: one classification for tracked and untracked reads. */
  function DecodeFrame(raw: Option<seq<byte>>, tracked: bool, marker: Option<seq<byte>>): ReadResult {
    var fence := if tracked && marker.Some? then ParseSafe(marker.value) else None;
    var validMarker := !tracked || marker.None? || fence.Some?;
    if raw.None? then Miss(ValueAbsent, fence)
    else if |raw.value| < 10 || raw.value[0] != 1 then Miss(Unclassified, fence)
    else
      var stamp := FromBytes(raw.value[1..9]);
      if tracked && (!validMarker || stamp == 0) then Miss(Unclassified, fence)
      else if tracked && fence.Some? && stamp <= fence.value then Miss(WatermarkFenced, fence)
      else if raw.value[9] > 1 then EncodingError
      else
        var payload := raw.value[10..];
        Hit(Frame(stamp, raw.value[9] == 1, if raw.value[9] == 0 then Repair(payload) else payload))
  }

  predicate Supported(raw: seq<byte>) {
    |raw| >= 10 && raw[0] == 1
  }

  function PythonFrame(raw: seq<byte>): ReadResult
    requires Supported(raw)
  {
    var tag := raw[9];
    if tag == 0 then Hit(Frame(FromBytes(raw[1..9]), false, Repair(raw[10..])))
    else if tag == 1 then Hit(Frame(FromBytes(raw[1..9]), true, raw[10..]))
    else EncodingError
  }

  /** Python: untracked reads. */
  function PythonRead(raw: Option<seq<byte>>): ReadResult {
    if raw.None? then Miss(ValueAbsent, None)
    else if !Supported(raw.value) then Miss(Unclassified, None)
    else PythonFrame(raw.value)
  }

  /** Python: tracked reads, with its own watermark parse. */
  function PythonTrackedRead(raw: Option<seq<byte>>, marker: Option<seq<byte>>): ReadResult {
    var watermark := if marker.None? then None else BoundedWatermark(marker.value);
    if raw.None? then Miss(ValueAbsent, watermark)
    else if !Supported(raw.value) then Miss(Unclassified, watermark)
    else if marker.Some? && watermark.None? then Miss(Unclassified, None)
    else
      var stamp := FromBytes(raw.value[1..9]);
      if stamp == 0 then Miss(Unclassified, watermark)
      else if watermark.Some? && stamp <= watermark.value then Miss(WatermarkFenced, watermark)
      else PythonFrame(raw.value)
  }

  /** The two ports classify every value and marker alike. */
  lemma DecodersAgree(raw: Option<seq<byte>>, marker: Option<seq<byte>>)
    ensures DecodeFrame(raw, true, marker) == PythonTrackedRead(raw, marker)
    ensures DecodeFrame(raw, false, marker) == PythonRead(raw)
  {
    if marker.Some? {
      BoundsAgree(marker.value);
    }
  }

  // --------------------------------------------------------------- properties

  /** The fence a tracked read applies; nothing when the marker is absent. */
  predicate Fences(marker: Option<seq<byte>>, stamp: nat) {
    || stamp == 0
    || (marker.Some? && (!SafeText(marker.value) || stamp <= Value(marker.value)))
  }

  /** Any bytes at all: a tracked hit carries a stamp above every fence it was read with. */
  lemma TrackedHitIsUnfenced(raw: Option<seq<byte>>, marker: Option<seq<byte>>)
    ensures DecodeFrame(raw, true, marker).Hit? <==>
              && raw.Some? && Supported(raw.value) && raw.value[9] <= 1
              && !Fences(marker, FromBytes(raw.value[1..9]))
    ensures DecodeFrame(raw, true, marker).Hit? ==>
              DecodeFrame(raw, true, marker).frame.stamp == FromBytes(raw.value[1..9])
    ensures marker.Some? && !SafeText(marker.value) ==> DecodeFrame(raw, true, marker).Miss?
  {
  }

  function Octet(b: byte): nat { b }

  /** Eight bytes, most significant first. */
  function BigEndian(s: seq<byte>): nat
    requires |s| == 8
  {
    Octet(s[0]) * 0x100000000000000 + Octet(s[1]) * 0x1000000000000 + Octet(s[2]) * 0x10000000000
    + Octet(s[3]) * 0x100000000 + Octet(s[4]) * 0x1000000 + Octet(s[5]) * 0x10000 + Octet(s[6]) * 0x100 + Octet(s[7])
  }

  lemma StampIsBigEndian(s: seq<byte>)
    requires |s| == 8
    ensures FromBytes(s) == BigEndian(s)
  {
    assert FromBytes(s[..0]) == 0;
    StampStep(s, 0);
    StampStep(s, 1);
    StampStep(s, 2);
    StampStep(s, 3);
    StampStep(s, 4);
    StampStep(s, 5);
    StampStep(s, 6);
    StampStep(s, 7);
    assert s[..8] == s;
    hide FromBytes;
  }

  lemma StampStep(s: seq<byte>, k: nat)
    requires k < |s|
    ensures FromBytes(s[..k + 1]) == FromBytes(s[..k]) * 256 + Octet(s[k])
  {
    assert s[..k + 1][..k] == s[..k];
  }

  /**
   * What a tracked read makes of any value and marker: each classification by the bytes alone, with the
   * parsed marker reported by every miss.
   */
  lemma TrackedClassification(raw: Option<seq<byte>>, marker: Option<seq<byte>>)
    ensures var r := DecodeFrame(raw, true, marker);
            var fence := if marker.Some? && SafeText(marker.value) then Some(Value(marker.value)) else None;
            && (raw.None? ==> r == Miss(ValueAbsent, fence))
            && (raw.Some? && (|raw.value| < 10 || raw.value[0] != 1) ==> r == Miss(Unclassified, fence))
            && (raw.Some? && |raw.value| >= 10 && raw.value[0] == 1 ==>
                  var stamp, tag, payload := BigEndian(raw.value[1..9]), raw.value[9], raw.value[10..];
                  && (stamp == 0 || (marker.Some? && fence.None?) ==> r == Miss(Unclassified, fence))
                  && (fence.Some? && 0 < stamp <= fence.value ==> r == Miss(WatermarkFenced, fence))
                  && (stamp > 0 && (marker.None? || (fence.Some? && stamp > fence.value)) ==>
                        && (tag == 0 ==> r == Hit(Frame(stamp, false, Repair(payload))))
                        && (tag == 1 ==> r == Hit(Frame(stamp, true, payload)))
                        && (tag > 1 ==> r == EncodingError)))
  {
    if raw.Some? && |raw.value| >= 10 {
      StampIsBigEndian(raw.value[1..9]);
    }
    hide FromBytes, BigEndian, Repair, Value, SafeText;
  }

  /** An untracked read looks at no marker and no fence. */
  lemma UntrackedClassification(raw: Option<seq<byte>>, marker: Option<seq<byte>>)
    ensures var r := DecodeFrame(raw, false, marker);
            && (raw.None? ==> r == Miss(ValueAbsent, None))
            && (raw.Some? && (|raw.value| < 10 || raw.value[0] != 1) ==> r == Miss(Unclassified, None))
            && (raw.Some? && |raw.value| >= 10 && raw.value[0] == 1 ==>
                  var stamp, tag, payload := BigEndian(raw.value[1..9]), raw.value[9], raw.value[10..];
                  && (tag == 0 ==> r == Hit(Frame(stamp, false, Repair(payload))))
                  && (tag == 1 ==> r == Hit(Frame(stamp, true, payload)))
                  && (tag > 1 ==> r == EncodingError))
  {
    if raw.Some? && |raw.value| >= 10 {
      StampIsBigEndian(raw.value[1..9]);
    }
    hide FromBytes, BigEndian, Repair;
  }

  lemma EncodedLayout(f: Frame)
    requires f.stamp <= MAX_SAFE_INTEGER
    ensures var raw := EncodeFrame(f).value;
            && Supported(raw) && raw[0] == 1 && FromBytes(raw[1..9]) == BigEndian(raw[1..9]) == f.stamp
            && raw[9] == (if f.binary then 1 else 0) && raw[10..] == StoredPayload(f)
  {
    var raw := EncodeFrame(f).value;
    var stamp := ToBytes(f.stamp, 8);
    SafeStampFits(f.stamp);
    assert raw[1..9] == stamp;
    StampIsBigEndian(raw[1..9]);
    assert raw[10..] == StoredPayload(f);
  }

  /**
   * A written frame reads back as itself, with text repaired once. Tracked, it is a hit
   * exactly when its stamp is positive and above any watermark; otherwise it is the miss
   * that names the reason and reports the fence.
   */
  lemma FrameRoundTrip(f: Frame, marker: Option<seq<byte>>)
    requires f.stamp <= MAX_SAFE_INTEGER
    ensures var raw := EncodeFrame(f);
            var stored := f.(payload := StoredPayload(f));
            && raw.Some?
            && DecodeFrame(raw, false, marker) == Hit(stored)
            && DecodeFrame(raw, true, marker) ==
                 (if !Fences(marker, f.stamp) then Hit(stored)
                  else if f.stamp == 0 || !SafeText(marker.value)
                  then Miss(Unclassified, if marker.Some? then ParseSafe(marker.value) else None)
                  else Miss(WatermarkFenced, Some(Value(marker.value))))
    ensures f.binary || WellFormed(f.payload) ==> StoredPayload(f) == f.payload
  {
    EncodedLayout(f);
    RepairFixesOnlyIllFormed(f.payload);
  }
}
