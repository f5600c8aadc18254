/**
 Framing of the MySQL client/server protocol: payloads are cut into packets of at
 most MAX_PACKET_SIZE bytes behind four-byte headers. The writer places each
 header into the buffer that holds the payload, over bytes already sent.
 */
module Packets {
  import opened Buffer
  import opened Bytes
  import opened Wrappers
  import opened Sequences

  // --- the format -------------------------------------------------------------

  /** Three bytes of length, least significant first, and the sequence number. */
  function Header(size: nat, sequence: byte): (h: seq<byte>)
    ensures |h| == 4
  {
    [size % 256, (size / 256) % 256, (size / 65536) % 256, sequence]
  }

  /** `int(uint32(data[0]) | uint32(data[1])<<8 | uint32(data[2])<<16)`. */
  function PacketLength(h: seq<byte>): nat
    requires |h| >= 3
  {
    var low: int, middle: int, high: int := h[0], h[1], h[2];
    low + 256 * middle + 65536 * high
  }

  function Increment(sequence: byte): byte { (sequence + 1) % 256 }

  /** The bytes that stand for a payload. */
  function Frames(payload: seq<byte>, sequence: byte): seq<byte>
    decreases |payload|
  {
    if |payload| < MAX_PACKET_SIZE then Header(|payload|, sequence) + payload
    else Header(MAX_PACKET_SIZE, sequence) + payload[..MAX_PACKET_SIZE]
         + Frames(payload[MAX_PACKET_SIZE..], Increment(sequence))
  }

  /** The sequence number after a payload of that many bytes. */
  function SequenceAfter(size: nat, sequence: byte): byte {
    if size < MAX_PACKET_SIZE then Increment(sequence)
    else SequenceAfter(size - MAX_PACKET_SIZE, Increment(sequence))
  }

  datatype ReadResult =
    | Payload(data: seq<byte>, rest: seq<byte>, sequence: byte)
    | BadConn
    | PktSyncMul
    | PktSync

  /**
   What reading a stream yields, after the packets collected so far. The driver
   rejects empty packets; the protocol has them, behind a payload that fills its
   packets exactly.
   */
  function Unframe(stream: seq<byte>, sequence: byte, collected: seq<byte>, rejectEmpty: bool): ReadResult
    decreases |stream|
  {
    if |stream| < 4 then BadConn
    else
      var pktLen := PacketLength(stream);
      if pktLen < 1 && rejectEmpty then BadConn
      else if stream[3] > sequence then PktSyncMul
      else if stream[3] < sequence then PktSync
      else if |stream| < 4 + pktLen then BadConn
      else
        var data := collected + stream[4..4 + pktLen];
        if pktLen < MAX_PACKET_SIZE then Payload(data, stream[4 + pktLen..], Increment(sequence))
        else Unframe(stream[4 + pktLen..], Increment(sequence), data, rejectEmpty)
  }

  lemma HeaderLength(size: nat, sequence: byte, tail: seq<byte>)
    requires size <= MAX_PACKET_SIZE
    ensures PacketLength(Header(size, sequence) + tail) == size
  {
    var h := Header(size, sequence);
    assert (h + tail)[0] == h[0] && (h + tail)[1] == h[1] && (h + tail)[2] == h[2];
  }

  lemma UnframeAt(stream: seq<byte>, sequence: byte, chunk: seq<byte>, rest: seq<byte>, collected: seq<byte>,
                  rejectEmpty: bool)
    requires |stream| == 4 + |chunk| + |rest|
    requires PacketLength(stream) == |chunk| && stream[3] == sequence
    requires stream[4..4 + |chunk|] == chunk && stream[4 + |chunk|..] == rest
    ensures Unframe(stream, sequence, collected, rejectEmpty)
         == if |chunk| == 0 && rejectEmpty then BadConn
            else if |chunk| < MAX_PACKET_SIZE then Payload(collected + chunk, rest, Increment(sequence))
            else Unframe(rest, Increment(sequence), collected + chunk, rejectEmpty)
  {
    var pktLen := PacketLength(stream);
    assert stream[4..4 + pktLen] == chunk && stream[4 + pktLen..] == rest;
  }

  /** Reading one packet in front of a stream. */
  lemma UnframeOne(chunk: seq<byte>, sequence: byte, rest: seq<byte>, collected: seq<byte>, rejectEmpty: bool)
    requires |chunk| <= MAX_PACKET_SIZE
    ensures Unframe((Header(|chunk|, sequence) + chunk) + rest, sequence, collected, rejectEmpty)
         == if |chunk| == 0 && rejectEmpty then BadConn
            else if |chunk| < MAX_PACKET_SIZE then Payload(collected + chunk, rest, Increment(sequence))
            else Unframe(rest, Increment(sequence), collected + chunk, rejectEmpty)
  {
    var h := Header(|chunk|, sequence);
    var stream := (h + chunk) + rest;
    assert stream[3] == sequence;
    assert stream[4..4 + |chunk|] == chunk;
    assert stream[4 + |chunk|..] == rest;
    assert PacketLength(stream) == |chunk| by {
      Joined(h, chunk, rest);
      HeaderLength(|chunk|, sequence, chunk + rest);
    }
    UnframeAt(stream, sequence, chunk, rest, collected, rejectEmpty);
  }

  /** The first packet of a stream, which the driver rejects when it is empty. */
  function FirstPacket(stream: seq<byte>, sequence: byte): ReadResult {
    if |stream| < 4 then BadConn
    else
      var head, rest := stream[..4], stream[4..];
      var pktLen := PacketLength(head);
      if pktLen < 1 then BadConn
      else if head[3] != sequence then (if head[3] > sequence then PktSyncMul else PktSync)
      else if |rest| < pktLen then BadConn
      else Payload(rest[..pktLen], rest[pktLen..], Increment(sequence))
  }

  /** A stream is read packet by packet. */
  lemma UnframeFirst(stream: seq<byte>, sequence: byte, collected: seq<byte>)
    ensures var first := FirstPacket(stream, sequence);
            Unframe(stream, sequence, collected, true)
            == if !first.Payload? then first
               else if |first.data| < MAX_PACKET_SIZE then first.(data := collected + first.data)
               else Unframe(first.rest, first.sequence, collected + first.data, true)
  {
    if |stream| >= 4 {
      var head, pktLen, rest := stream[..4], PacketLength(stream), stream[4..];
      assert PacketLength(head) == pktLen && head[3] == stream[3];
      if pktLen <= |rest| {
        assert stream[4..4 + pktLen] == rest[..pktLen];
        assert stream[4 + pktLen..] == rest[pktLen..];
      }
    }
  }

  lemma CutOff(payload: seq<byte>, size: nat, collected: seq<byte>)
    requires size <= |payload|
    ensures (collected + payload[..size]) + payload[size..] == collected + payload
  {
  }

  lemma ResidueOfRest(size: nat)
    requires size >= MAX_PACKET_SIZE
    ensures size % MAX_PACKET_SIZE == (size - MAX_PACKET_SIZE) % MAX_PACKET_SIZE
    ensures size / MAX_PACKET_SIZE == (size - MAX_PACKET_SIZE) / MAX_PACKET_SIZE + 1
  {
  }

  lemma FullPacketRead(payload: seq<byte>, sequence: byte, rest: seq<byte>, collected: seq<byte>, rejectEmpty: bool)
    requires |payload| >= MAX_PACKET_SIZE
    ensures Unframe(Frames(payload, sequence) + rest, sequence, collected, rejectEmpty)
         == Unframe(Frames(payload[MAX_PACKET_SIZE..], Increment(sequence)) + rest, Increment(sequence),
                    collected + payload[..MAX_PACKET_SIZE], rejectEmpty)
  {
    var first, frames := payload[..MAX_PACKET_SIZE], Frames(payload[MAX_PACKET_SIZE..], Increment(sequence));
    Joined(Header(MAX_PACKET_SIZE, sequence) + first, frames, rest);
    UnframeOne(first, sequence, frames + rest, collected, rejectEmpty);
  }

  /** Whether reading the frames of a payload fails. */
  predicate Lost(size: nat, rejectEmpty: bool) { rejectEmpty && size % MAX_PACKET_SIZE == 0 }

  /**
   Reading what was written yields the payload. The driver's own reader is the
   exception: it fails exactly when the length is a multiple of the packet size,
   since such a payload ends with an empty packet.
   */
  lemma {:induction false} FramesRoundTrip(payload: seq<byte>, sequence: byte, rest: seq<byte>, collected: seq<byte>,
                                           rejectEmpty: bool)
    ensures Unframe(Frames(payload, sequence) + rest, sequence, collected, rejectEmpty)
         == if Lost(|payload|, rejectEmpty) then BadConn
            else Payload(collected + payload, rest, SequenceAfter(|payload|, sequence))
    decreases |payload|
  {
    if |payload| < MAX_PACKET_SIZE {
      UnframeOne(payload, sequence, rest, collected, rejectEmpty);
    } else {
      var first, tail := payload[..MAX_PACKET_SIZE], payload[MAX_PACKET_SIZE..];
      FullPacketRead(payload, sequence, rest, collected, rejectEmpty);
      FramesRoundTrip(tail, Increment(sequence), rest, collected + first, rejectEmpty);
      CutOff(payload, MAX_PACKET_SIZE, collected);
      ResidueOfRest(|payload|);
    }
  }

  // --- the bytes on the wire -----------------------------------------------------

  /** A packet at a place of a byte stream: its length, least significant byte first, its number, its data. */
  predicate PacketAt(bytes: seq<byte>, at: nat, data: seq<byte>, number: int) {
    && at + 4 + |data| <= |bytes|
    && (var b0: int, b1: int, b2: int := bytes[at], bytes[at + 1], bytes[at + 2];
        b0 + 256 * b1 + 65536 * b2 == |data|)
    && bytes[at + 3] == number
    && bytes[at + 4..at + 4 + |data|] == data
  }

  /** The part of a payload that packet k carries. */
  function Chunk(payload: seq<byte>, k: nat): seq<byte>
    requires k * MAX_PACKET_SIZE <= |payload|
  {
    if (k + 1) * MAX_PACKET_SIZE <= |payload| then payload[k * MAX_PACKET_SIZE..(k + 1) * MAX_PACKET_SIZE]
    else payload[k * MAX_PACKET_SIZE..]
  }

  /**
   What the protocol asks for: full packets and one shorter one, each behind four
   bytes, numbered from `sequence` modulo 256.
   */
  ghost predicate Layout(bytes: seq<byte>, payload: seq<byte>, sequence: byte) {
    && |bytes| == |payload| + 4 * (|payload| / MAX_PACKET_SIZE + 1)
    && forall k: nat :: k <= |payload| / MAX_PACKET_SIZE ==>
         PacketAt(bytes, k * (4 + MAX_PACKET_SIZE), Chunk(payload, k), (sequence + k) % 256)
  }

  lemma HeaderBytes(h0: int, h1: int, h2: int, size: nat)
    requires size <= MAX_PACKET_SIZE && 0 <= h0 < 256 && 0 <= h1 < 256 && 0 <= h2 < 256
    ensures h0 + 256 * h1 + 65536 * h2 == size
       <==> h0 == size % 256 && h1 == (size / 256) % 256 && h2 == (size / 65536) % 256
  {
  }

  /** A packet alone is its header and its data. */
  lemma PacketIs(bytes: seq<byte>, data: seq<byte>, sequence: byte)
    requires |data| <= MAX_PACKET_SIZE && |bytes| == 4 + |data|
    ensures PacketAt(bytes, 0, data, sequence) <==> bytes == Header(|data|, sequence) + data
  {
    HeaderBytes(bytes[0], bytes[1], bytes[2], |data|);
    var h := Header(|data|, sequence);
    if PacketAt(bytes, 0, data, sequence) {
      assert bytes == bytes[..4] + bytes[4..];
      assert bytes[..4] == h && bytes[4..] == data;
    }
    if bytes == h + data {
      assert bytes[4..4 + |data|] == data;
    }
  }

  lemma PacketShifted(front: seq<byte>, bytes: seq<byte>, at: nat, data: seq<byte>, number: int)
    ensures PacketAt(front + bytes, |front| + at, data, number) <==> PacketAt(bytes, at, data, number)
  {
    if at + 4 + |data| <= |bytes| {
      assert (front + bytes)[|front| + at + 4..|front| + at + 4 + |data|] == bytes[at + 4..at + 4 + |data|];
    }
  }

  lemma PacketInFront(bytes: seq<byte>, rest: seq<byte>, data: seq<byte>, number: int)
    requires |bytes| == 4 + |data|
    ensures PacketAt(bytes + rest, 0, data, number) <==> PacketAt(bytes, 0, data, number)
  {
    assert (bytes + rest)[4..4 + |data|] == bytes[4..4 + |data|];
  }

  lemma ChunkOfRest(payload: seq<byte>, k: nat)
    requires 1 <= k && k * MAX_PACKET_SIZE <= |payload|
    ensures Chunk(payload[MAX_PACKET_SIZE..], k - 1) == Chunk(payload, k)
  {
  }

  /** Behind the first packet the layout is that of the rest. */
  lemma LayoutOfRest(front: seq<byte>, bytes: seq<byte>, payload: seq<byte>, sequence: byte)
    requires |payload| >= MAX_PACKET_SIZE && |front| == 4 + MAX_PACKET_SIZE
    requires Layout(front + bytes, payload, sequence)
    ensures PacketAt(front, 0, payload[..MAX_PACKET_SIZE], sequence)
    ensures Layout(bytes, payload[MAX_PACKET_SIZE..], Increment(sequence))
  {
    var tail := payload[MAX_PACKET_SIZE..];
    ResidueOfRest(|payload|);
    PacketInFront(front, bytes, payload[..MAX_PACKET_SIZE], sequence);
    assert PacketAt(front + bytes, 0 * (4 + MAX_PACKET_SIZE), Chunk(payload, 0), (sequence + 0) % 256);
    forall k: nat | k <= |tail| / MAX_PACKET_SIZE
      ensures PacketAt(bytes, k * (4 + MAX_PACKET_SIZE), Chunk(tail, k), (Increment(sequence) + k) % 256)
    {
      PacketOf(front + bytes, payload, sequence, k + 1);
      ShiftedPacket(front, bytes, payload, sequence, k);
    }
  }

  lemma LayoutInFront(front: seq<byte>, bytes: seq<byte>, payload: seq<byte>, sequence: byte)
    requires |payload| >= MAX_PACKET_SIZE && |front| == 4 + MAX_PACKET_SIZE
    requires PacketAt(front, 0, payload[..MAX_PACKET_SIZE], sequence)
    requires Layout(bytes, payload[MAX_PACKET_SIZE..], Increment(sequence))
    ensures Layout(front + bytes, payload, sequence)
  {
    ResidueOfRest(|payload|);
    PacketInFront(front, bytes, payload[..MAX_PACKET_SIZE], sequence);
    forall k: nat | k <= |payload| / MAX_PACKET_SIZE
      ensures PacketAt(front + bytes, k * (4 + MAX_PACKET_SIZE), Chunk(payload, k), (sequence + k) % 256)
    {
      if k > 0 {
        PacketOf(bytes, payload[MAX_PACKET_SIZE..], Increment(sequence), k - 1);
        PacketBehind(front, bytes, payload, sequence, k, k - 1);
      } else {
        assert Chunk(payload, 0) == payload[..MAX_PACKET_SIZE];
      }
    }
  }

  lemma PacketOf(bytes: seq<byte>, payload: seq<byte>, sequence: byte, k: nat)
    requires Layout(bytes, payload, sequence) && k <= |payload| / MAX_PACKET_SIZE
    ensures PacketAt(bytes, k * (4 + MAX_PACKET_SIZE), Chunk(payload, k), (sequence + k) % 256)
  {
  }

  lemma ShiftedPacket(front: seq<byte>, bytes: seq<byte>, payload: seq<byte>, sequence: byte, k: nat)
    requires |front| == 4 + MAX_PACKET_SIZE && (k + 1) * MAX_PACKET_SIZE <= |payload|
    ensures PacketAt(front + bytes, (k + 1) * (4 + MAX_PACKET_SIZE), Chunk(payload, k + 1), (sequence + (k + 1)) % 256)
       <==> PacketAt(bytes, k * (4 + MAX_PACKET_SIZE), Chunk(payload[MAX_PACKET_SIZE..], k),
                     (Increment(sequence) + k) % 256)
  {
    ChunkOfRest(payload, k + 1);
    assert (sequence + (k + 1)) % 256 == (Increment(sequence) + k) % 256;
    PacketShifted(front, bytes, k * (4 + MAX_PACKET_SIZE), Chunk(payload, k + 1), (sequence + (k + 1)) % 256);
  }

  lemma PacketBehind(front: seq<byte>, bytes: seq<byte>, payload: seq<byte>, sequence: byte, k: nat, j: nat)
    requires |front| == 4 + MAX_PACKET_SIZE && k == j + 1 && k * MAX_PACKET_SIZE <= |payload|
    requires PacketAt(bytes, j * (4 + MAX_PACKET_SIZE), Chunk(payload[MAX_PACKET_SIZE..], j),
                      (Increment(sequence) + j) % 256)
    ensures PacketAt(front + bytes, k * (4 + MAX_PACKET_SIZE), Chunk(payload, k), (sequence + k) % 256)
  {
    ShiftedPacket(front, bytes, payload, sequence, j);
  }

  lemma {:induction false} FramesHaveLayout(payload: seq<byte>, sequence: byte)
    ensures Layout(Frames(payload, sequence), payload, sequence)
    decreases |payload|
  {
    if |payload| < MAX_PACKET_SIZE {
      LastLayout(Frames(payload, sequence), payload, sequence);
    } else {
      var tail := payload[MAX_PACKET_SIZE..];
      var front := Header(MAX_PACKET_SIZE, sequence) + payload[..MAX_PACKET_SIZE];
      FramesHaveLayout(tail, Increment(sequence));
      PacketIs(front, payload[..MAX_PACKET_SIZE], sequence);
      LayoutInFront(front, Frames(tail, Increment(sequence)), payload, sequence);
    }
  }

  /** Only the frames have it. */
  lemma {:induction false} LayoutIsFrames(bytes: seq<byte>, payload: seq<byte>, sequence: byte)
    requires Layout(bytes, payload, sequence)
    ensures bytes == Frames(payload, sequence)
    decreases |payload|
  {
    if |payload| < MAX_PACKET_SIZE {
      LastLayout(bytes, payload, sequence);
    } else {
      ResidueOfRest(|payload|);
      var front, rest := bytes[..4 + MAX_PACKET_SIZE], bytes[4 + MAX_PACKET_SIZE..];
      assert bytes == front + rest;
      LayoutOfRest(front, rest, payload, sequence);
      PacketIs(front, payload[..MAX_PACKET_SIZE], sequence);
      LayoutIsFrames(rest, payload[MAX_PACKET_SIZE..], Increment(sequence));
    }
  }

  /** The frames are exactly the bytes that the protocol asks for. */
  lemma FramesAreLayout(bytes: seq<byte>, payload: seq<byte>, sequence: byte)
    ensures Layout(bytes, payload, sequence) <==> bytes == Frames(payload, sequence)
  {
    FramesHaveLayout(payload, sequence);
    if Layout(bytes, payload, sequence) { LayoutIsFrames(bytes, payload, sequence); }
  }

  lemma LastLayout(bytes: seq<byte>, payload: seq<byte>, sequence: byte)
    requires |payload| < MAX_PACKET_SIZE
    ensures Layout(bytes, payload, sequence) <==> bytes == Header(|payload|, sequence) + payload
  {
    assert Chunk(payload, 0) == payload;
    assert Layout(bytes, payload, sequence) ==>
             PacketAt(bytes, 0 * (4 + MAX_PACKET_SIZE), Chunk(payload, 0), (sequence + 0) % 256);
    if |bytes| == 4 + |payload| { PacketIs(bytes, payload, sequence); }
  }

  /** What is read was framed: the packets taken are those of the payload, and nothing else is. */
  lemma {:induction false} ReadIsFramed(stream: seq<byte>, sequence: byte, collected: seq<byte>)
    returns (payload: seq<byte>)
    requires Unframe(stream, sequence, collected, true).Payload?
    ensures var r := Unframe(stream, sequence, collected, true);
            && r.data == collected + payload && |payload| % MAX_PACKET_SIZE != 0
            && stream == Frames(payload, sequence) + r.rest && r.sequence == SequenceAfter(|payload|, sequence)
    decreases |stream|
  {
    var r := Unframe(stream, sequence, collected, true);
    var first := FirstPacket(stream, sequence);
    UnframeFirst(stream, sequence, collected);
    FirstIsFramed(stream, sequence);
    if |first.data| < MAX_PACKET_SIZE {
      payload := first.data;
    } else {
      var more := ReadIsFramed(first.rest, first.sequence, collected + first.data);
      payload := first.data + more;
      Joined(collected, first.data, more);
      ResidueOfRest(|payload|);
      assert payload[..MAX_PACKET_SIZE] == first.data && payload[MAX_PACKET_SIZE..] == more;
      Joined(Header(MAX_PACKET_SIZE, sequence) + first.data, Frames(more, first.sequence), r.rest);
    }
  }

  /** A payload was taken off a stream: the bytes gone have its layout, and it does not fill its packets. */
  ghost predicate TakenOff(stream: seq<byte>, payload: seq<byte>, rest: seq<byte>, sequence: byte, next: byte) {
    var n := |payload| + 4 * (|payload| / MAX_PACKET_SIZE + 1);
    && |payload| % MAX_PACKET_SIZE != 0 && n <= |stream|
    && Layout(stream[..n], payload, sequence) && rest == stream[n..]
    && next == (sequence + |payload| / MAX_PACKET_SIZE + 1) % 256
  }

  lemma ReadTakesOff(stream: seq<byte>, sequence: byte)
    ensures var r := Unframe(stream, sequence, [], true);
            r.Payload? ==> TakenOff(stream, r.data, r.rest, sequence, r.sequence)
  {
    if Unframe(stream, sequence, [], true).Payload? {
      var r := Unframe(stream, sequence, [], true);
      var payload := ReadIsFramed(stream, sequence, []);
      assert [] + payload == payload;
      FramesTakenOff(payload, sequence, r.rest);
    }
  }

  lemma FramesTakenOff(payload: seq<byte>, sequence: byte, rest: seq<byte>)
    requires |payload| % MAX_PACKET_SIZE != 0
    ensures TakenOff(Frames(payload, sequence) + rest, payload, rest, sequence, SequenceAfter(|payload|, sequence))
  {
    FramesInFront(payload, sequence, rest);
  }

  lemma FramesInFront(payload: seq<byte>, sequence: byte, rest: seq<byte>)
    ensures var stream := Frames(payload, sequence) + rest;
            var n := |payload| + 4 * (|payload| / MAX_PACKET_SIZE + 1);
            n <= |stream| && Layout(stream[..n], payload, sequence) && rest == stream[n..]
    ensures SequenceAfter(|payload|, sequence) == (sequence + |payload| / MAX_PACKET_SIZE + 1) % 256
  {
    var frames := Frames(payload, sequence);
    FramesHaveLayout(payload, sequence);
    SequenceCounts(|payload|, sequence);
    assert (frames + rest)[..|frames|] == frames;
  }

  /** Reading bytes of that layout yields the payload, with the exception of `FramesRoundTrip`. */
  lemma LayoutRoundTrip(bytes: seq<byte>, payload: seq<byte>, sequence: byte, rest: seq<byte>, rejectEmpty: bool)
    requires Layout(bytes, payload, sequence)
    ensures Unframe(bytes + rest, sequence, [], rejectEmpty)
         == if rejectEmpty && |payload| % MAX_PACKET_SIZE == 0 then BadConn
            else Payload(payload, rest, (sequence + |payload| / MAX_PACKET_SIZE + 1) % 256)
  {
    LayoutIsFrames(bytes, payload, sequence);
    FramesRoundTrip(payload, sequence, rest, [], rejectEmpty);
    SequenceCounts(|payload|, sequence);
    assert [] + payload == payload;
  }

  lemma FirstIsFramed(stream: seq<byte>, sequence: byte)
    requires FirstPacket(stream, sequence).Payload?
    ensures var first := FirstPacket(stream, sequence);
            && 0 < |first.data| <= MAX_PACKET_SIZE && first.sequence == Increment(sequence)
            && stream == (Header(|first.data|, sequence) + first.data) + first.rest
  {
    var first := FirstPacket(stream, sequence);
    var n := 4 + |first.data|;
    var front := stream[..n];
    assert stream == front + stream[n..];
    assert front[4..] == first.data && stream[n..] == first.rest;
    PacketIs(front, first.data, sequence);
  }

  lemma NextResidue(sequence: int, packets: nat)
    ensures ((sequence + 1) % 256 + packets + 1) % 256 == (sequence + (packets + 1) + 1) % 256
  {
  }

  /** The sequence number counts the packets modulo 256. */
  lemma {:induction false} SequenceCounts(size: nat, sequence: byte)
    ensures SequenceAfter(size, sequence) == (sequence + (size / MAX_PACKET_SIZE) + 1) % 256
    decreases size
  {
    if size >= MAX_PACKET_SIZE {
      SequenceCounts(size - MAX_PACKET_SIZE, Increment(sequence));
      ResidueOfRest(size);
      NextResidue(sequence, (size - MAX_PACKET_SIZE) / MAX_PACKET_SIZE);
    }
  }

  /** A header written in front of a chunk leaves the chunk and what follows. */
  lemma HeaderInPlace(before: seq<byte>, after: seq<byte>, cur: nat, end: nat, size: nat, h: seq<byte>)
    requires |before| == |after| && cur + 4 + size <= end <= |before| && |h| == 4
    requires after[cur..cur + 4] == h
    requires forall i :: 0 <= i < |before| && !(cur <= i < cur + 4) ==> after[i] == before[i]
    ensures after[cur..cur + 4 + size] == h + before[cur + 4..end][..size]
    ensures after[cur + size + 4..end] == before[cur + 4..end][size..]
  {
    assert after[cur + 4..end] == before[cur + 4..end];
    assert after[cur..cur + 4 + size] == after[cur..cur + 4] + after[cur + 4..cur + 4 + size];
    assert after[cur + 4..cur + 4 + size] == before[cur + 4..end][..size];
  }

  lemma SlicePrefix(bytes: seq<byte>, from: nat, size: nat, n: nat)
    requires from + size <= |bytes| && n <= size
    ensures bytes[from..from + size][..n] == bytes[from..from + n]
  {
  }

  /** The frames of a payload start with its first packet. */
  lemma FirstFrame(payload: seq<byte>, sequence: byte)
    ensures var size := if |payload| >= MAX_PACKET_SIZE then MAX_PACKET_SIZE else |payload|;
            Frames(payload, sequence)
            == (Header(size, sequence) + payload[..size])
               + if size < MAX_PACKET_SIZE then [] else Frames(payload[size..], Increment(sequence))
  {
    if |payload| < MAX_PACKET_SIZE {
      assert payload[..|payload|] == payload;
    }
  }

  /** Some of the bytes followed what was sent before, and nothing else. */
  predicate SentPartly(before: seq<byte>, now: seq<byte>, bytes: seq<byte>) {
    |before| <= |now| && now <= before + bytes
  }

  lemma WithinTotal(sent: seq<byte>, now: seq<byte>, part: seq<byte>, rest: seq<byte>)
    requires now <= sent + part
    ensures now <= (sent + part) + rest
  {
  }

  lemma WrittenLayout(before: seq<byte>, now: seq<byte>, payload: seq<byte>, sequence: byte)
    requires now == before + Frames(payload, sequence)
    ensures before <= now && Layout(now[|before|..], payload, sequence)
    ensures SequenceAfter(|payload|, sequence) == (sequence + |payload| / MAX_PACKET_SIZE + 1) % 256
  {
    FramesHaveLayout(payload, sequence);
    SequenceCounts(|payload|, sequence);
    assert now[|before|..] == Frames(payload, sequence);
  }

  // --- the connection ---------------------------------------------------------

  datatype WriteError = Written | PktTooLarge | WriteBadConn
  datatype ReadError = ReadOk | ReadBadConn | ReadSyncMul | ReadSync

  /** A read that answers as expected; an unreliable reader may break the connection instead. */
  predicate Reads(err: ReadError, expected: ReadResult, data: seq<byte>, rest: seq<byte>, sequence: byte,
                  reliable: bool)
  {
    match err
    case ReadOk => expected == Payload(data, rest, sequence)
    case ReadSyncMul => expected == PktSyncMul
    case ReadSync => expected == PktSync
    case ReadBadConn => reliable ==> expected == BadConn
  }

  /**
   What the next packet of a stream comes to: it is taken, with its number, or the
   number is another one, or there is no whole packet with data. An unreliable
   reader may break the connection anyway.
   */
  predicate TookFirst(err: ReadError, stream: seq<byte>, sequence: byte, data: seq<byte>, rest: seq<byte>,
                      next: byte, reliable: bool)
  {
    match err
    case ReadOk =>
      data != [] && PacketAt(stream, 0, data, sequence) && rest == stream[4 + |data|..] && next == (sequence + 1) % 256
    case ReadSyncMul => |stream| >= 4 && stream[..3] != [0, 0, 0] && stream[3] > sequence
    case ReadSync => |stream| >= 4 && stream[..3] != [0, 0, 0] && stream[3] < sequence
    case ReadBadConn =>
      reliable && |stream| >= 4 && stream[..3] != [0, 0, 0] ==>
        var b0: int, b1: int, b2: int := stream[0], stream[1], stream[2];
        stream[3] == sequence && |stream| < 4 + b0 + 256 * b1 + 65536 * b2
  }

  lemma HeadLength(stream: seq<byte>)
    requires |stream| >= 4
    ensures stream[..3] == [0, 0, 0] <==> PacketLength(stream[..4]) == 0
    ensures var b0: int, b1: int, b2: int := stream[0], stream[1], stream[2];
            PacketLength(stream[..4]) == b0 + 256 * b1 + 65536 * b2
  {
  }

  lemma BodyTaken(stream: seq<byte>, pktLen: nat)
    requires 4 + pktLen <= |stream|
    requires var b0: int, b1: int, b2: int := stream[0], stream[1], stream[2]; pktLen == b0 + 256 * b1 + 65536 * b2
    ensures PacketAt(stream, 0, stream[4..][..pktLen], stream[3]) && stream[4..][pktLen..] == stream[4 + pktLen..]
  {
    assert stream[4..][..pktLen] == stream[4..4 + pktLen];
  }

  lemma FirstTaken(err: ReadError, stream: seq<byte>, sequence: byte, data: seq<byte>, rest: seq<byte>,
                   next: byte, reliable: bool)
    requires TookFirst(err, stream, sequence, data, rest, next, reliable)
    ensures Reads(err, FirstPacket(stream, sequence), data, rest, next, reliable)
  {
    if |stream| >= 4 {
      var head := stream[..4];
      assert stream[..3] == [0, 0, 0] <==> PacketLength(head) == 0;
      if err == ReadOk {
        assert stream[4..][..|data|] == stream[4..4 + |data|];
        assert stream[4..][|data|..] == stream[4 + |data|..];
      }
    }
  }

  /** A round of reading, whatever was collected before. */
  lemma RoundTaken(err: ReadError, stream: seq<byte>, sequence: byte, data: seq<byte>, rest: seq<byte>, next: byte,
                   reliable: bool, collected: seq<byte>)
    requires TookFirst(err, stream, sequence, data, rest, next, reliable)
    ensures err == ReadOk ==>
              && |rest| < |stream|
              && Unframe(stream, sequence, collected, true)
                 == if |data| < MAX_PACKET_SIZE then Payload(collected + data, rest, next)
                    else Unframe(rest, next, collected + data, true)
    ensures err != ReadOk ==> Reads(err, Unframe(stream, sequence, collected, true), [], rest, next, reliable)
  {
    FirstTaken(err, stream, sequence, data, rest, next, reliable);
    UnframeFirst(stream, sequence, collected);
  }

  lemma ReadOkTakesOff(err: ReadError, expected: ReadResult, stream: seq<byte>, sequence: byte, payload: seq<byte>,
                       rest: seq<byte>, next: byte, reliable: bool)
    requires Reads(err, expected, payload, rest, next, reliable)
    requires expected.Payload? ==> TakenOff(stream, expected.data, expected.rest, sequence, expected.sequence)
    ensures err == ReadOk ==> TakenOff(stream, payload, rest, sequence, next)
  {
  }

  class Conn {
    const buf: ReadBuffer
    var sequence: byte
    var maxPacketAllowed: int
    var wire: seq<byte>
    var writes: nat
    var closed: bool
    /** The k-th write to the network takes this many bytes at most, and may report an error. */
    const accepts: nat -> nat
    const breaks: nat -> bool

    constructor (buf: ReadBuffer, maxPacketAllowed: int, accepts: nat -> nat, breaks: nat -> bool)
      ensures this.buf == buf && sequence == 0 && wire == [] && this.maxPacketAllowed == maxPacketAllowed && !closed
    {
      this.buf, this.maxPacketAllowed, this.accepts, this.breaks := buf, maxPacketAllowed, accepts, breaks;
      sequence, wire, writes, closed := 0, [], 0, false;
    }

    ghost predicate Healthy() { forall k :: !breaks(k) && accepts(k) >= 4 + MAX_PACKET_SIZE }

    /** `net.Conn.Write`: all bytes, or a prefix of them. */
    method NetWrite(data: array<byte>, off: nat, size: nat) returns (n: nat, ok: bool)
      requires off + size <= data.Length && size <= 4 + MAX_PACKET_SIZE
      modifies this`wire, this`writes
      ensures n <= size && wire == old(wire) + data[off..off + n]
      ensures Healthy() ==> ok && n == size
    {
      n := if accepts(writes) < size then accepts(writes) else size;
      ok := !breaks(writes);
      writes := writes + 1;
      wire := wire + data[off..off + n];
    }

    /** The header of the next packet, in place. */
    method PutHeader(data: array<byte>, cur: nat, pktLen: nat) returns (size: nat)
      requires cur + 4 <= data.Length
      modifies data
      ensures size == if pktLen >= MAX_PACKET_SIZE then MAX_PACKET_SIZE else pktLen
      ensures data[cur..cur + 4] == Header(size, sequence)
      ensures var b0: int, b1: int, b2: int := data[cur], data[cur + 1], data[cur + 2];
              b0 + 256 * b1 + 65536 * b2 == size && data[cur + 3] == sequence
      ensures forall i :: 0 <= i < data.Length && !(cur <= i < cur + 4) ==> data[i] == old(data[i])
    {
      if pktLen >= MAX_PACKET_SIZE {
        data[cur], data[cur + 1], data[cur + 2] := 0xff, 0xff, 0xff;
        size := MAX_PACKET_SIZE;
      } else {
        data[cur], data[cur + 1], data[cur + 2] := pktLen % 256, (pktLen / 256) % 256, (pktLen / 65536) % 256;
        size := pktLen;
      }
      data[cur + 3] := sequence;
    }

    /** One round of `writePacket`: the next packet of data[cur..end] is put together in place and sent. */
    method SendPacket(data: array<byte>, cur: nat, end: nat) returns (size: nat, ok: bool)
      requires cur + 4 <= end <= data.Length
      modifies data, this`sequence, this`wire, this`writes
      ensures var pktLen := end - cur - 4; size == if pktLen >= MAX_PACKET_SIZE then MAX_PACKET_SIZE else pktLen
      ensures forall i :: 0 <= i < data.Length && !(cur <= i < cur + 4) ==> data[i] == old(data[i])
      ensures data[cur + size + 4..end] == old(data[cur + 4..end])[size..]
      ensures var packet := Header(size, old(sequence)) + old(data[cur + 4..end])[..size];
              if ok then wire == old(wire) + packet && sequence == Increment(old(sequence))
              else SentPartly(old(wire), wire, packet) && sequence == old(sequence)
      ensures ok ==> |wire| == |old(wire)| + 4 + size
                     && PacketAt(wire, |old(wire)|, old(data[cur + 4..end])[..size], old(sequence))
      ensures Healthy() ==> ok
    {
      ghost var bytes, left := data[..], data[cur + 4..end];
      assert left == bytes[cur + 4..end];
      size := PutHeader(data, cur, end - cur - 4);
      ghost var now, packet := data[..], Header(size, sequence) + left[..size];
      assert data[cur..cur + 4] == now[cur..cur + 4];
      HeaderInPlace(bytes, now, cur, end, size, Header(size, sequence));
      assert data[cur + size + 4..end] == now[cur + size + 4..end];
      var n, written := NetWrite(data, cur, 4 + size);
      SlicePrefix(now, cur, 4 + size, n);
      assert data[cur..cur + n] == now[cur..cur + n];
      ok := written && n == 4 + size;
      if ok {
        PacketIs(packet, left[..size], sequence);
        PacketShifted(old(wire), packet, 0, left[..size], sequence);
        sequence := Increment(sequence);
      }
    }

    /** The loop of `writePacket`: packet by packet, each header in place. */
    method SendFrames(data: array<byte>, off: nat, end: nat) returns (ok: bool)
      requires off + 4 <= end <= data.Length
      modifies data, this`sequence, this`wire, this`writes
      ensures ok ==> wire == old(wire) + Frames(old(data[off + 4..end]), old(sequence))
      ensures ok ==> sequence == SequenceAfter(end - off - 4, old(sequence))
      ensures Healthy() ==> ok
      ensures !ok ==> SentPartly(old(wire), wire, Frames(old(data[off + 4..end]), old(sequence)))
      ensures forall i :: 0 <= i < data.Length && !(off <= i < end) ==> data[i] == old(data[i])
    {
      var cur := off;
      ghost var left := data[off + 4..end];
      ghost var total := wire + Frames(left, sequence);
      while true
        invariant off <= cur && cur + 4 <= end
        invariant forall i :: 0 <= i < data.Length && !(off <= i < end) ==> data[i] == old(data[i])
        invariant |old(wire)| <= |wire|
        invariant data[cur + 4..end] == left && wire + Frames(left, sequence) == total
        invariant SequenceAfter(|left|, sequence) == SequenceAfter(end - off - 4, old(sequence))
        decreases end - cur
      {
        ghost var sent, number := wire, sequence;
        FirstFrame(left, number);
        var size;
        size, ok := SendPacket(data, cur, end);
        ghost var packet := Header(size, number) + left[..size];
        ghost var rest := if size < MAX_PACKET_SIZE then [] else Frames(left[size..], Increment(number));
        Joined(sent, packet, rest);
        if !ok {
          WithinTotal(sent, wire, packet, rest);
          return;
        }
        if size != MAX_PACKET_SIZE { return; }
        cur, left := cur + size, left[size..];
      }
    }

    /**
     `writePacket` on the slice data[off..off+len], whose first four bytes are room
     for the header. The payload reaches the wire as the protocol asks, though every
     further header is written over the end of the chunk before it; bytes outside
     the slice stay.
     */
    method WritePacket(data: array<byte>, off: nat, len: nat) returns (err: WriteError)
      requires len >= 4 && off + len <= data.Length
      modifies data, this`sequence, this`wire, this`writes
      ensures err == PktTooLarge <==> len - 4 > maxPacketAllowed
      ensures err == PktTooLarge ==> wire == old(wire) && data[..] == old(data[..]) && sequence == old(sequence)
      ensures err == Written ==>
                old(wire) <= wire && Layout(wire[|old(wire)|..], old(data[off + 4..off + len]), old(sequence))
      ensures err == Written ==> sequence == (old(sequence) + (len - 4) / MAX_PACKET_SIZE + 1) % 256
      ensures err == Written ==> wire == old(wire) + Frames(old(data[off + 4..off + len]), old(sequence))
      ensures Healthy() ==> err != WriteBadConn
      ensures err == WriteBadConn ==> SentPartly(old(wire), wire, Frames(old(data[off + 4..off + len]), old(sequence)))
      ensures forall i :: 0 <= i < data.Length && !(off <= i < off + len) ==> data[i] == old(data[i])
    {
      if len - 4 > maxPacketAllowed { return PktTooLarge; }
      ghost var payload := data[off + 4..off + len];
      var ok := SendFrames(data, off, off + len);
      if !ok { return WriteBadConn; }
      WrittenLayout(old(wire), wire, payload, old(sequence));
      err := Written;
    }

    /** `readNext`, or the end of the connection. */
    method ReadOrClose(need: nat) returns (ok: bool, bytes: seq<byte>, at: nat)
      requires buf.Valid()
      modifies this`closed, buf, buf.buf, buf.rd
      ensures buf.Valid() && (buf.buf == old(buf.buf) || fresh(buf.buf))
      ensures closed <==> old(closed) || !ok
      ensures ok ==> need <= |old(buf.Unread())|
                     && bytes == old(buf.Unread())[..need] && buf.Unread() == old(buf.Unread())[need..]
      ensures ok ==> at + need <= buf.buf.Length && buf.buf[at..at + need] == bytes
      ensures !ok && buf.rd.Reliable() ==> |old(buf.Unread())| < need
    {
      var err;
      err, at := buf.ReadNext(need);
      ok := err == NoError;
      if ok {
        bytes := buf.buf[at..at + need];
      } else {
        closed, bytes := true, [];
      }
    }

    /** The header of the next packet, with what can be wrong about it. */
    method ReadHead() returns (err: ReadError, pktLen: nat)
      requires buf.Valid()
      modifies this`sequence, this`closed, buf, buf.buf, buf.rd
      ensures buf.Valid() && (buf.buf == old(buf.buf) || fresh(buf.buf))
      ensures var stream := old(buf.Unread());
              && (err == ReadOk ==>
                    && |stream| >= 4 && stream[3] == old(sequence) && sequence == (old(sequence) + 1) % 256
                    && buf.Unread() == stream[4..] && pktLen > 0
                    && var b0: int, b1: int, b2: int := stream[0], stream[1], stream[2];
                       pktLen == b0 + 256 * b1 + 65536 * b2)
              && (err == ReadSyncMul ==> |stream| >= 4 && stream[..3] != [0, 0, 0] && stream[3] > old(sequence))
              && (err == ReadSync ==> |stream| >= 4 && stream[..3] != [0, 0, 0] && stream[3] < old(sequence))
              && (err == ReadBadConn && buf.rd.Reliable() ==> |stream| < 4 || stream[..3] == [0, 0, 0])
      ensures err == ReadSyncMul || err == ReadSync ==> sequence == old(sequence)
      ensures closed <==> old(closed) || err == ReadBadConn
    {
      ghost var stream := buf.Unread();
      pktLen := 0;
      var ok, head, at := ReadOrClose(4);
      if !ok { return ReadBadConn, 0; }
      HeadLength(stream);
      pktLen := PacketLength(head);
      if pktLen < 1 {
        closed := true;
        return ReadBadConn, 0;
      }
      if head[3] != sequence {
        return if head[3] > sequence then ReadSyncMul else ReadSync, 0;
      }
      sequence := Increment(sequence);
      err := ReadOk;
    }

    /** One round of `readPacket`; the data stays in the read buffer. */
    method ReadOne() returns (err: ReadError, data: seq<byte>, at: nat)
      requires buf.Valid()
      modifies this`sequence, this`closed, buf, buf.buf, buf.rd
      ensures buf.Valid() && (buf.buf == old(buf.buf) || fresh(buf.buf))
      ensures TookFirst(err, old(buf.Unread()), old(sequence), data, buf.Unread(), sequence, buf.rd.Reliable())
      ensures closed <==> old(closed) || err == ReadBadConn
      ensures err == ReadOk ==> data != [] && at + |data| <= buf.buf.Length && buf.buf[at..at + |data|] == data
    {
      var pktLen;
      err, pktLen := ReadHead();
      if err != ReadOk { return err, [], 0; }
      ghost var stream := old(buf.Unread());
      var ok;
      ok, data, at := ReadOrClose(pktLen);
      if ok {
        BodyTaken(stream, pktLen);
      } else {
        err := ReadBadConn;
      }
    }

    /** One round, for a reader that has collected some packets and still expects something. */
    method ReadRound(ghost collected: seq<byte>, ghost expected: ReadResult)
        returns (err: ReadError, data: seq<byte>, at: nat)
      requires buf.Valid() && Unframe(buf.Unread(), sequence, collected, true) == expected
      modifies this`sequence, this`closed, buf, buf.buf, buf.rd
      ensures buf.Valid() && (buf.buf == old(buf.buf) || fresh(buf.buf))
      ensures err == ReadOk && |data| < MAX_PACKET_SIZE ==>
                expected == Payload(collected + data, buf.Unread(), sequence)
      ensures err == ReadOk && |data| >= MAX_PACKET_SIZE ==>
                && |buf.Unread()| < |old(buf.Unread())|
                && Unframe(buf.Unread(), sequence, collected + data, true) == expected
      ensures err != ReadOk ==> Reads(err, expected, [], buf.Unread(), sequence, buf.rd.Reliable())
      ensures closed <==> old(closed) || err == ReadBadConn
      ensures err == ReadOk ==> at + |data| <= buf.buf.Length && buf.buf[at..at + |data|] == data
    {
      ghost var stream, number := buf.Unread(), sequence;
      err, data, at := ReadOne();
      RoundTaken(err, stream, number, data, buf.Unread(), sequence, buf.rd.Reliable(), collected);
    }

    /** The loop of `readPacket`. */
    method CollectPackets() returns (err: ReadError, payload: seq<byte>, shared: Option<nat>)
      requires buf.Valid()
      modifies this`sequence, this`closed, buf, buf.buf, buf.rd
      ensures buf.Valid()
      ensures Reads(err, Unframe(old(buf.Unread()), old(sequence), [], true), payload, buf.Unread(), sequence,
                    buf.rd.Reliable())
      ensures closed <==> old(closed) || err == ReadBadConn
      ensures err == ReadOk ==> (shared.Some? <==> |payload| < MAX_PACKET_SIZE)
      ensures shared.Some? ==> var at := shared.value;
                               at + |payload| <= buf.buf.Length && buf.buf[at..at + |payload|] == payload
    {
      payload := [];
      ghost var expected := Unframe(buf.Unread(), sequence, [], true);
      while true
        invariant buf.Valid() && (buf.buf == old(buf.buf) || fresh(buf.buf))
        invariant closed == old(closed) && (payload == [] || |payload| >= MAX_PACKET_SIZE)
        invariant Unframe(buf.Unread(), sequence, payload, true) == expected
        decreases |buf.Unread()|
      {
        var data, at;
        err, data, at := ReadRound(payload, expected);
        if err != ReadOk { return err, [], None; }
        var last := |data| < MAX_PACKET_SIZE;
        if last && payload == [] {
          assert [] + data == data;
          return ReadOk, data, Some(at);
        }
        payload := payload + data;
        if last { return ReadOk, payload, None; }
      }
    }

    /**
     `readPacket`. Whatever pieces the network delivers, the result is what the
     unread bytes stand for; the packets read are consumed and nothing else. The
     payload of a single packet is not copied: it lies in the read buffer.
     */
    method ReadPacket() returns (err: ReadError, payload: seq<byte>, shared: Option<nat>)
      requires buf.Valid()
      modifies this`sequence, this`closed, buf, buf.buf, buf.rd
      ensures buf.Valid()
      ensures err == ReadOk ==> TakenOff(old(buf.Unread()), payload, buf.Unread(), old(sequence), sequence)
      ensures Reads(err, Unframe(old(buf.Unread()), old(sequence), [], true), payload, buf.Unread(), sequence,
                    buf.rd.Reliable())
      ensures closed <==> old(closed) || err == ReadBadConn
      ensures err == ReadOk ==> (shared.Some? <==> |payload| < MAX_PACKET_SIZE)
      ensures shared.Some? ==> var at := shared.value;
                               at + |payload| <= buf.buf.Length && buf.buf[at..at + |payload|] == payload
    {
      ghost var stream, number := buf.Unread(), sequence;
      ghost var expected := Unframe(stream, number, [], true);
      ReadTakesOff(stream, number);
      err, payload, shared := CollectPackets();
      ReadOkTakesOff(err, expected, stream, number, payload, buf.Unread(), sequence, buf.rd.Reliable());
    }
  }
}
