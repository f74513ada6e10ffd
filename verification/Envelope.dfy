/** The compression envelope around stored payloads, over any zstd codec. */
module Envelope {
  import opened Base
  import opened Utf8

  // --------------------------------------------------------- first zstd frame

  /** What the frame header says: its own length, skippable content, trailing checksum. */
  datatype Header = Header(size: nat, skippable: bool, skip: nat, checksum: bool)

  /** A data block of section 3.1.1.2 of RFC 8878; kind 1 stores one byte to repeat. */
  datatype Block = Block(last: bool, kind: nat, size: nat, content: seq<byte>)

  predicate ValidBlock(b: Block) {
    b.kind < 3 && b.size < 0x200000 && |b.content| == if b.kind == 1 then 1 else b.size
  }

  function BlockWord(b: Block): nat {
    (if b.last then 1 else 0) + 2 * b.kind + 8 * b.size
  }

  function EncodeBlock(b: Block): seq<byte>
    requires ValidBlock(b)
  {
    var v := BlockWord(b);
    [v % 256, (v / 256) % 256, v / 65536] + b.content
  }

  /** Blocks of one frame: only the final one is marked last. */
  predicate BlockList(bs: seq<Block>) {
    bs != [] && ValidBlock(bs[0]) && bs[0].last == (|bs| == 1) && (|bs| > 1 ==> BlockList(bs[1..]))
  }

  function EncodeBlocks(bs: seq<Block>): seq<byte>
    requires BlockList(bs)
  {
    EncodeBlock(bs[0]) + if |bs| == 1 then [] else EncodeBlocks(bs[1..])
  }

  /** f is exactly one frame under header h. */
  ghost predicate IsFrame(h: Header, f: seq<byte>) {
    && |f| >= h.size
    && (h.skippable ==> |f| == h.size + h.skip)
    && (!h.skippable ==> exists bs, check :: IsBody(h, f[h.size..], bs, check))
  }

  predicate IsBody(h: Header, rest: seq<byte>, bs: seq<Block>, check: seq<byte>) {
    BlockList(bs) && |check| == (if h.checksum then 4 else 0) && rest == EncodeBlocks(bs) + check
  }

  function Octet(b: byte): nat { b }

  /** The little-endian block header at offset at, and its fields. */
  function Word(body: seq<byte>, at: nat): nat
    requires at + 3 <= |body|
  {
    Octet(body[at]) + 256 * Octet(body[at + 1]) + 65536 * Octet(body[at + 2])
  }

  predicate LastBlock(word: nat) { word % 2 != 0 }

  function BlockKind(word: nat): nat { (word / 2) % 4 }

  function ContentSize(word: nat): nat {
    if BlockKind(word) == 1 then 1 else word / 8
  }

  /** The offset after the last block, walking block headers from end. */
  function BlocksEnd(body: seq<byte>, end: nat): (r: Option<nat>)
    requires end <= |body|
    ensures r.Some? ==> end < r.value <= |body|
    decreases |body| - end
  {
    if |body| - end < 3 then None
    else
      var word := Word(body, end);
      if BlockKind(word) == 3 || |body| - (end + 3) < ContentSize(word) then None
      else if LastBlock(word) then Some(end + 3 + ContentSize(word))
      else BlocksEnd(body, end + 3 + ContentSize(word))
  }

  function FirstFrame(h: Header, body: seq<byte>): Option<seq<byte>>
    requires h.size <= |body|
  {
    if h.skippable then
      if h.skip > |body| - h.size then None else Some(body[..h.size + h.skip])
    else
      var end := BlocksEnd(body, h.size);
      var check := if h.checksum then 4 else 0;
      if end.None? || |body| - end.value < check then None else Some(body[..end.value + check])
  }

  method FirstZstdFrame(header: Option<Header>, body: seq<byte>) returns (r: Option<seq<byte>>)
    requires header.Some? ==> header.value.size <= |body|
    ensures r == if header.None? then None else FirstFrame(header.value, body)
  {
    if header.None? {
      return None;
    }
    hide Word, LastBlock, BlockKind, ContentSize;
    var h := header.value;
    var end := h.size;
    if h.skippable {
      if h.skip > |body| - end {
        return None;
      }
      return Some(body[..end + h.skip]);
    }
    while true
      invariant h.size <= end <= |body|
      invariant BlocksEnd(body, h.size) == BlocksEnd(body, end)
      decreases |body| - end
    {
      if |body| - end < 3 {
        return None;
      }
      var word := Word(body, end);
      ghost var start := end;
      end := end + 3;
      if BlockKind(word) == 3 {
        return None;
      }
      var size := ContentSize(word);
      if |body| - end < size {
        return None;
      }
      end := end + size;
      if LastBlock(word) {
        assert BlocksEnd(body, start) == Some(end);
        break;
      }
    }
    if h.checksum {
      if |body| - end < 4 {
        return None;
      }
      end := end + 4;
    }
    return Some(body[..end]);
  }

  // ------------------------------------------------- the walk finds the frame

  lemma PackedFields(last: nat, kind: nat, size: nat)
    requires last < 2 && kind < 4 && size < 0x200000
    ensures var v := last + 2 * kind + 8 * size;
            v % 2 == last && v / 2 == kind + 4 * size && v / 8 == size && v < 0x1000000
  {
  }

  lemma LowBits(kind: nat, size: nat)
    requires kind < 4
    ensures (kind + 4 * size) % 4 == kind
  {
  }

  lemma WordFields(b: Block)
    requires ValidBlock(b)
    ensures LastBlock(BlockWord(b)) == b.last && BlockKind(BlockWord(b)) == b.kind < 3
    ensures ContentSize(BlockWord(b)) == |b.content| && BlockWord(b) < 0x1000000
  {
    PackedFields(if b.last then 1 else 0, b.kind, b.size);
    LowBits(b.kind, b.size);
  }

  lemma WordOfBytes(v: nat)
    requires v < 0x1000000
    ensures v % 256 + 256 * ((v / 256) % 256) + 65536 * (v / 65536) == v
  {
    assert v / 65536 == (v / 256) / 256;
  }

  /** Every block a 24-bit header describes is a valid block that encodes back to the same bytes. */
  lemma DecodedBlock(body: seq<byte>, at: nat) returns (b: Block)
    requires at + 3 <= |body| && BlockKind(Word(body, at)) < 3
    requires at + 3 + ContentSize(Word(body, at)) <= |body|
    ensures ValidBlock(b) && BlockWord(b) == Word(body, at)
    ensures EncodeBlock(b) == body[at..at + 3 + ContentSize(Word(body, at))]
  {
    var word := Word(body, at);
    b := Block(LastBlock(word), BlockKind(word), word / 8, body[at + 3..at + 3 + ContentSize(word)]);
    assert word == word % 2 + 2 * (word / 2) && word / 2 == (word / 2) % 4 + 4 * (word / 8);
    BytesOfWord(Octet(body[at]), Octet(body[at + 1]), Octet(body[at + 2]));
  }

  lemma BytesOfWord(x: nat, y: nat, z: nat)
    requires x < 256 && y < 256 && z < 256
    ensures var v := x + 256 * y + 65536 * z;
            v % 256 == x && (v / 256) % 256 == y && v / 65536 == z
  {
    var v := x + 256 * y + 65536 * z;
    assert v / 256 == y + 256 * z;
  }

  /** code stands in body at offset at. */
  predicate StandsAt(body: seq<byte>, at: nat, code: seq<byte>) {
    at + |code| <= |body| && body[at..at + |code|] == code
  }

  lemma StandsSplit(body: seq<byte>, at: nat, a: seq<byte>, b: seq<byte>)
    requires StandsAt(body, at, a + b)
    ensures StandsAt(body, at, a) && StandsAt(body, at + |a|, b)
  {
    var both := body[at..at + |a + b|];
    assert both[..|a|] == a && both[|a|..] == b;
  }

  lemma EncodedWord(body: seq<byte>, at: nat, b: Block)
    requires ValidBlock(b) && StandsAt(body, at, EncodeBlock(b))
    ensures |EncodeBlock(b)| == 3 + |b.content| && Word(body, at) == BlockWord(b)
  {
    WordFields(b);
    WordOfBytes(BlockWord(b));
    var code := EncodeBlock(b);
    var here := body[at..at + |code|];
    assert here[0] == body[at] && here[1] == body[at + 1] && here[2] == body[at + 2];
  }

  lemma BlocksStep(body: seq<byte>, end: nat)
    requires end + 3 <= |body| && BlockKind(Word(body, end)) < 3
    requires end + 3 + ContentSize(Word(body, end)) <= |body|
    ensures var next := end + 3 + ContentSize(Word(body, end));
            BlocksEnd(body, end) == if LastBlock(Word(body, end)) then Some(next) else BlocksEnd(body, next)
  {
    hide Word, LastBlock, BlockKind, ContentSize;
  }

  /** The step of the walk over one encoded block. */
  lemma WalkOne(body: seq<byte>, at: nat, b: Block)
    requires ValidBlock(b) && at + 3 + |b.content| <= |body| && Word(body, at) == BlockWord(b)
    ensures var next := at + 3 + |b.content|;
            BlocksEnd(body, at) == if b.last then Some(next) else BlocksEnd(body, next)
  {
    hide *;
    WordFields(b);
    BlocksStep(body, at);
  }

  lemma {:induction false} WalkFindsEnd(body: seq<byte>, at: nat, bs: seq<Block>)
    requires BlockList(bs) && StandsAt(body, at, EncodeBlocks(bs))
    ensures BlocksEnd(body, at) == Some(at + |EncodeBlocks(bs)|)
    decreases |bs|
  {
    hide *;
    BlockListParts(bs);
    var tail := if |bs| == 1 then [] else EncodeBlocks(bs[1..]);
    var first := EncodeBlock(bs[0]);
    StandsSplit(body, at, first, tail);
    EncodedWord(body, at, bs[0]);
    StandsWithin(body, at, first);
    WalkOne(body, at, bs[0]);
    if |bs| > 1 {
      WalkFindsEnd(body, at + |first|, bs[1..]);
    }
  }

  lemma BlockListParts(bs: seq<Block>)
    requires BlockList(bs)
    ensures bs != [] && ValidBlock(bs[0]) && bs[0].last == (|bs| == 1) && (|bs| > 1 ==> BlockList(bs[1..]))
    ensures EncodeBlocks(bs) == EncodeBlock(bs[0]) + if |bs| == 1 then [] else EncodeBlocks(bs[1..])
  {
    hide EncodeBlock, ValidBlock;
  }

  lemma StandsWithin(body: seq<byte>, at: nat, code: seq<byte>)
    requires StandsAt(body, at, code)
    ensures at + |code| <= |body|
  {
  }

  lemma {:induction false} WalkReadsBlocks(body: seq<byte>, end: nat) returns (bs: seq<Block>)
    requires end <= |body| && BlocksEnd(body, end).Some?
    ensures BlockList(bs) && body[end..BlocksEnd(body, end).value] == EncodeBlocks(bs)
    decreases |body| - end
  {
    var word := Word(body, end);
    var next := end + 3 + ContentSize(word);
    var b := DecodedBlock(body, end);
    WordFields(b);
    assert LastBlock(word) ==> BlocksEnd(body, end) == Some(next);
    assert !LastBlock(word) ==> BlocksEnd(body, end) == BlocksEnd(body, next);
    hide Word, BlocksEnd, LastBlock, BlockKind, ContentSize, BlockWord;
    if LastBlock(word) {
      bs := [b];
    } else {
      var rest := WalkReadsBlocks(body, next);
      bs := [b] + rest;
      assert bs[1..] == rest;
      assert body[end..BlocksEnd(body, end).value] == body[end..next] + body[next..BlocksEnd(body, end).value];
    }
  }

  lemma SplitAtFrame(body: seq<byte>, f: seq<byte>, start: nat)
    requires f <= body && start <= |f|
    ensures StandsAt(body, start, f[start..]) && f == body[..|f|]
  {
    assert body == f + body[|f|..];
    assert body[start..|f|] == f[start..];
  }

  lemma FrameFound(h: Header, body: seq<byte>, f: seq<byte>)
    requires h.size <= |body| && f <= body && IsFrame(h, f)
    ensures FirstFrame(h, body) == Some(f)
  {
    hide BlocksEnd, BlockList;
    assert f == body[..|f|];
    if !h.skippable {
      var bs, check :| IsBody(h, f[h.size..], bs, check);
      SplitAtFrame(body, f, h.size);
      StandsSplit(body, h.size, EncodeBlocks(bs), check);
      WalkFindsEnd(body, h.size, bs);
    }
  }

  lemma FoundIsFrame(h: Header, body: seq<byte>, f: seq<byte>)
    requires h.size <= |body| && FirstFrame(h, body) == Some(f)
    ensures f <= body && IsFrame(h, f)
  {
    if !h.skippable {
      var end := BlocksEnd(body, h.size).value;
      var bs := WalkReadsBlocks(body, h.size);
      hide BlocksEnd;
      var check := body[end..|f|];
      assert f[h.size..] == body[h.size..end] + check;
      assert IsBody(h, f[h.size..], bs, check);
    }
  }

  /** The walk returns f exactly when f is a prefix of the body and one whole frame; trailers are ignored. */
  lemma FirstFrameExact(h: Header, body: seq<byte>, f: seq<byte>)
    requires h.size <= |body|
    ensures FirstFrame(h, body) == Some(f) <==> f <= body && IsFrame(h, f)
  {
    hide FirstFrame, IsFrame;
    if FirstFrame(h, body) == Some(f) {
      FoundIsFrame(h, body, f);
    } else if f <= body && IsFrame(h, f) {
      FrameFound(h, body, f);
    }
  }

  // ------------------------------------------------------------- the envelope

  datatype Payload = Payload(binary: bool, bytes: seq<byte>)

  /** Bytes the streaming decoder yields before it ends or fails; sized marks a size refusal. */
  datatype Inflated = Inflated(bytes: seq<byte>, failed: bool, sized: bool)

  /** The codec library: header parser, one-shot encoder, streaming decoder. */
  datatype Zstd = Zstd(
    header: seq<byte> -> Option<Header>, deflate: seq<byte> -> seq<byte>, inflate: seq<byte> -> Inflated)

  /**
   * What is relied on: the parsed header lies within the input and is not changed by bytes that
   * follow it and, for every nonempty input, the encoder emits one frame and the decoder inverts
   * it. An encoder may emit nothing for the empty input.
   */
  ghost predicate Lawful(z: Zstd) {
    && (forall b :: z.header(b).Some? ==> z.header(b).value.size <= |b|)
    && (forall b, t :: z.header(b).Some? ==> z.header(b + t) == z.header(b))
    && (forall x :: x != [] ==> z.header(z.deflate(x)).Some? && IsFrame(z.header(z.deflate(x)).value, z.deflate(x)))
    && (forall x :: x != [] ==> z.inflate(z.deflate(x)) == Inflated(x, false, false))
  }

  datatype WriteOutcome = BelowThreshold | WriteOverLimit | NotSmaller | Compressed

  datatype ReadOutcome = Passthrough | Decompressed | FallbackRaw | ReadOverLimit

  function EscapeRaw(p: Payload): Payload {
    if p.binary && p.bytes != [] && p.bytes[0] <= 2 then Payload(true, [0] + p.bytes) else p
  }

  /** Text is stored with invalid UTF-8 replaced; binary is stored as is. */
  function Normal(p: Payload): Payload {
    if p.binary then p else Payload(false, Repair(p.bytes))
  }

  function CompressPayload(z: Zstd, p: Payload, threshold: nat, limit: int): (Payload, WriteOutcome) {
    var q := Normal(p);
    var raw := EscapeRaw(q);
    if |q.bytes| < threshold then (raw, BelowThreshold)
    else if |q.bytes| > limit then (raw, WriteOverLimit)
    else
      var compressed := z.deflate(q.bytes);
      if |compressed| + 1 >= |raw.bytes| then (raw, NotSmaller)
      else (Payload(true, [if q.binary then 2 else 1] + compressed), Compressed)
  }

  function DecompressPayload(z: Zstd, p: Payload, limit: int): (Payload, ReadOutcome)
    requires Lawful(z)
  {
    if !p.binary || p.bytes == [] then (p, Passthrough)
    else if p.bytes[0] == 0 then
      (if |p.bytes| > 1 && p.bytes[1] <= 2 then Payload(true, p.bytes[1..]) else p, Passthrough)
    else if p.bytes[0] > 2 then (p, Passthrough)
    else if limit < 0 then (p, ReadOverLimit)
    else
      var body := p.bytes[1..];
      var h := z.header(body);
      var frame := if h.None? then None else FirstFrame(h.value, body);
      if frame.None? then (p, FallbackRaw)
      else
        var out := z.inflate(frame.value);
        if |out.bytes| > limit then (p, ReadOverLimit)
        else if out.failed then (p, if out.sized then ReadOverLimit else FallbackRaw)
        else if p.bytes[0] == 1 then (Payload(false, Repair(out.bytes)), Decompressed)
        else (Payload(true, out.bytes), Decompressed)
  }

  /** Raw payloads are never taken for compressed ones: escaping is undone exactly, whatever the limit. */
  lemma RawRoundTrip(z: Zstd, p: Payload, limit: int)
    requires Lawful(z)
    ensures DecompressPayload(z, EscapeRaw(p), limit) == (p, Passthrough)
  {
    hide Lawful;
    if p.binary && p.bytes != [] && p.bytes[0] <= 2 {
      assert ([0] + p.bytes)[1..] == p.bytes;
    }
  }

  lemma CodecFacts(z: Zstd, x: seq<byte>, trailer: seq<byte>)
    requires Lawful(z) && x != []
    ensures var body := z.deflate(x) + trailer;
            && z.header(body).Some? && z.header(body).value.size <= |body|
            && FirstFrame(z.header(body).value, body) == Some(z.deflate(x))
            && z.inflate(z.deflate(x)) == Inflated(x, false, false)
  {
    var body := z.deflate(x) + trailer;
    var h := z.header(z.deflate(x));
    assert h.Some? && IsFrame(h.value, z.deflate(x));
    assert z.header(body) == h;
    assert h.value.size <= |z.deflate(x)|;
    hide Lawful, IsFrame, FirstFrame;
    FirstFrameExact(h.value, body, z.deflate(x));
  }

  /** A compressed body decodes to the compressed bytes whatever trailer follows the frame. */
  lemma CompressedBody(z: Zstd, x: seq<byte>, trailer: seq<byte>, marker: byte, limit: int)
    requires Lawful(z) && 1 <= marker <= 2 && 0 < |x| <= limit
    ensures DecompressPayload(z, Payload(true, [marker] + (z.deflate(x) + trailer)), limit)
            == (if marker == 1 then Payload(false, Repair(x)) else Payload(true, x), Decompressed)
  {
    hide Lawful, FirstFrame, Repair;
    CodecFacts(z, x, trailer);
    var body := z.deflate(x) + trailer;
    var stored := [marker] + body;
    assert stored[0] == marker && stored[1..] == body;
  }

  /** What is written reads back as the payload, for every threshold and every limit, negative ones included. */
  lemma CompressionRoundTrip(z: Zstd, p: Payload, threshold: nat, limit: int)
    requires Lawful(z)
    ensures var w := CompressPayload(z, p, threshold, limit);
            DecompressPayload(z, w.0, limit)
            == (Normal(p), if w.1.Compressed? then Decompressed else Passthrough)
    ensures p.binary || WellFormed(p.bytes) ==> Normal(p) == p
  {
    if WellFormed(p.bytes) {
      RepairIdentity(p.bytes);
    }
    var w := CompressPayload(z, p, threshold, limit);
    var q := Normal(p);
    RawRoundTrip(z, q, limit);
    if w.1.Compressed? {
      var marker := if q.binary then 2 else 1;
      CompressedBody(z, q.bytes, [], marker, limit);
      assert z.deflate(q.bytes) + [] == z.deflate(q.bytes);
      if !q.binary {
        RepairFixesOnlyIllFormed(p.bytes);
      }
    }
  }

  /** The envelope never costs space over the escaped raw form, and compresses only when it saves some. */
  lemma NeverLongerThanRaw(z: Zstd, p: Payload, threshold: nat, limit: int)
    ensures var w := CompressPayload(z, p, threshold, limit);
            var raw := EscapeRaw(Normal(p));
            && |w.0.bytes| <= |raw.bytes| <= |Normal(p).bytes| + 1
            && (w.1.Compressed? <==> |w.0.bytes| < |raw.bytes|)
            && (!w.1.Compressed? ==> w.0 == raw)
  {
  }

  /** Only binary payloads whose first byte could be taken for a marker are escaped, by one zero byte. */
  lemma EscapedOnlyWhenAmbiguous(p: Payload)
    ensures p.binary && p.bytes != [] && p.bytes[0] in [0, 1, 2] ==> EscapeRaw(p) == Payload(true, [0] + p.bytes)
    ensures !p.binary || p.bytes == [] || p.bytes[0] !in [0, 1, 2] ==> EscapeRaw(p) == p
  {
  }

  /** Which payloads are compressed: those within threshold and limit that the encoder makes smaller by two bytes. */
  lemma CompressedExactly(z: Zstd, p: Payload, threshold: nat, limit: int)
    ensures var w, q := CompressPayload(z, p, threshold, limit), Normal(p);
            && (w.1.BelowThreshold? <==> |q.bytes| < threshold)
            && (w.1.WriteOverLimit? <==> |q.bytes| >= threshold && |q.bytes| > limit)
            && (w.1.Compressed? <==>
                  && threshold <= |q.bytes| <= limit
                  && |z.deflate(q.bytes)| + 1 < |EscapeRaw(q).bytes|)
            && (w.1.Compressed? ==> w.0 == Payload(true, [if p.binary then 2 else 1] + z.deflate(q.bytes)))
  {
  }

  /**
   * Which stored payloads are decompressed: a marked one whose first frame the decoder reads to its end
   * within the limit. Every other marked payload is returned as it is, named over limit exactly when the
   * limit is negative, the output exceeds it or the decoder refused the size.
   */
  lemma DecompressedExactly(z: Zstd, p: Payload, limit: int)
    requires Lawful(z) && p.binary && p.bytes != [] && 1 <= p.bytes[0] <= 2
    ensures var r, body := DecompressPayload(z, p, limit), p.bytes[1..];
            var f := if z.header(body).Some? then FirstFrame(z.header(body).value, body) else None;
            && (r.1.Decompressed? <==>
                  limit >= 0 && f.Some? && !z.inflate(f.value).failed && |z.inflate(f.value).bytes| <= limit)
            && (r.1.ReadOverLimit? <==>
                  || limit < 0
                  || (f.Some? && |z.inflate(f.value).bytes| > limit)
                  || (f.Some? && z.inflate(f.value).failed && z.inflate(f.value).sized))
            && (r.1.FallbackRaw? <==> !r.1.Decompressed? && !r.1.ReadOverLimit?)
            && (!r.1.Decompressed? ==> r.0 == p)
  {
    hide FirstFrame, Repair;
  }

  /** Block headers as section 3.1.1.2 of RFC 8878 spells them: 24 bits, least significant byte first. */
  lemma BlockHeaderBytes()
    ensures EncodeBlock(Block(true, 0, 0, []))[..3] == [1, 0, 0]
    ensures forall b: byte :: EncodeBlock(Block(false, 1, 0x12345, [b])) == [0x2A, 0x1A, 0x09, b]
  {
  }

  // ------------------------------------------------------ the laws can be met

  /** One raw block per byte behind a one-byte header. */
  function ByteBlocks(x: seq<byte>): (bs: seq<Block>)
    requires x != []
    ensures BlockList(bs) && |bs| == |x|
  {
    if |x| == 1 then [Block(true, 0, 1, x)]
    else [Block(false, 0, 1, x[..1])] + ByteBlocks(x[1..])
  }

  lemma {:induction false} ByteBlocksLayout(x: seq<byte>, i: nat)
    requires i < |x|
    ensures |EncodeBlocks(ByteBlocks(x))| == 4 * |x| && EncodeBlocks(ByteBlocks(x))[4 * i + 3] == x[i]
    decreases |x|
  {
    var bs := ByteBlocks(x);
    var head := EncodeBlock(bs[0]);
    assert |head| == 4 && head[3] == x[0];
    if |x| > 1 {
      ByteBlocksLayout(x[1..], if i == 0 then 0 else i - 1);
      assert bs[1..] == ByteBlocks(x[1..]);
      assert EncodeBlocks(bs) == head + EncodeBlocks(bs[1..]);
    }
  }

  function StoredHeader(b: seq<byte>): Option<Header> {
    if b == [] then None else Some(Header(1, false, 0, false))
  }

  function StoredDeflate(x: seq<byte>): seq<byte> {
    if x == [] then [] else [0] + EncodeBlocks(ByteBlocks(x))
  }

  function StoredInflate(f: seq<byte>): Inflated {
    if f == [] then Inflated([], true, false)
    else Inflated(seq((|f| - 1) / 4, i requires 0 <= i < (|f| - 1) / 4 => f[4 * i + 4]), false, false)
  }

  function StoredCodec(): Zstd {
    Zstd(StoredHeader, StoredDeflate, StoredInflate)
  }

  /** A codec that stores its input, and nothing for the empty input, meets the laws. */
  lemma StoredCodecIsLawful()
    ensures Lawful(StoredCodec()) && StoredCodec().deflate([]) == []
  {
    forall x: seq<byte> | x != []
      ensures IsFrame(Header(1, false, 0, false), StoredDeflate(x))
      ensures StoredInflate(StoredDeflate(x)) == Inflated(x, false, false)
    {
      StoredRoundTrip(x);
    }
  }

  lemma StoredRoundTrip(x: seq<byte>)
    requires x != []
    ensures IsFrame(Header(1, false, 0, false), StoredDeflate(x))
    ensures StoredInflate(StoredDeflate(x)) == Inflated(x, false, false)
  {
    hide EncodeBlocks, ByteBlocks, BlockList;
    var code := EncodeBlocks(ByteBlocks(x));
    assert StoredDeflate(x)[1..] == code + [];
    assert IsBody(Header(1, false, 0, false), StoredDeflate(x)[1..], ByteBlocks(x), []);
    hide IsFrame, IsBody;
    ByteBlocksLayout(x, 0);
    forall i | 0 <= i < |x| ensures code[4 * i + 3] == x[i] {
      ByteBlocksLayout(x, i);
    }
    EveryFourth(code, x);
  }

  lemma EveryFourth(code: seq<byte>, x: seq<byte>)
    requires |code| == 4 * |x| && forall i :: 0 <= i < |x| ==> code[4 * i + 3] == x[i]
    ensures StoredInflate([0] + code) == Inflated(x, false, false)
  {
    assert StoredInflate([0] + code).bytes == x;
  }
}
