/**
 The walk over a PNG's chunks that rejects animated images, and the chunk layout it walks
 (sections 3.1 and 3.2 of RFC 2083).
 */
module ChatImage {

  type Byte = b: int | 0 <= b < 256

  const SIGNATURE: seq<Byte> := [137, 80, 78, 71, 13, 10, 26, 10]

  /** acTL */
  const ANIMATION_CONTROL: seq<Byte> := [97, 99, 84, 76]

  function ReadUInt32BE(buffer: seq<Byte>, offset: nat): nat
    requires offset + 4 <= |buffer|
  {
    var b0: int, b1: int, b2: int, b3: int :=
      buffer[offset], buffer[offset + 1], buffer[offset + 2], buffer[offset + 3];
    b0 * 0x100_0000 + b1 * 0x1_0000 + b2 * 0x100 + b3
  }

  /** Decoding as ASCII looks at the low seven bits of each byte only. */
  function Ascii(bytes: seq<Byte>): (r: seq<Byte>)
    ensures |r| == |bytes| && forall i :: 0 <= i < |r| ==> r[i] == bytes[i] % 128
  {
    if bytes == [] then [] else [bytes[0] % 128] + Ascii(bytes[1..])
  }

  predicate IsAnimationControl(input: seq<Byte>, offset: nat)
    requires offset + 8 <= |input|
  {
    Ascii(input[offset + 4..offset + 8]) == ANIMATION_CONTROL
  }

  /** The offsets the walk stops at, and whether it rejects the image. */
  datatype Walked = Walked(stops: seq<nat>, rejected: bool)

  function Walk(input: seq<Byte>, offset: nat): Walked
    decreases |input| - offset
  {
    if offset + 12 > |input| then Walked([], false)
    else if IsAnimationControl(input, offset) then Walked([offset], true)
    else
      var rest := Walk(input, offset + ReadUInt32BE(input, offset) + 12);
      Walked([offset] + rest.stops, rest.rejected)
  }

  /** The loop, on any buffer: it terminates and reads nothing outside the buffer. */
  method WalkChunks(input: seq<Byte>) returns (rejected: bool, ghost stops: seq<nat>)
    ensures Walked(stops, rejected) == Walk(input, 8)
    ensures rejected <==> Walk(input, 8).rejected
  {
    hide Walk, IsAnimationControl, ReadUInt32BE;
    var offset := 8;
    stops := [];
    while offset + 12 <= |input|
      invariant Walk(input, 8) == Walked(stops + Walk(input, offset).stops, Walk(input, offset).rejected)
      decreases |input| - offset
    {
      var length := ReadUInt32BE(input, offset);
      WalkStep(input, offset);
      ghost var rest := Walk(input, offset + length + 12);
      assert stops + ([offset] + rest.stops) == (stops + [offset]) + rest.stops;
      stops := stops + [offset];
      if IsAnimationControl(input, offset) {
        return true, stops;
      }
      offset := offset + length + 12;
    }
    WalkStep(input, offset);
    assert stops + [] == stops;
    return false, stops;
  }

  /** One round of the loop. */
  lemma WalkStep(input: seq<Byte>, offset: nat)
    ensures Walk(input, offset) ==
              if offset + 12 > |input| then Walked([], false)
              else if IsAnimationControl(input, offset) then Walked([offset], true)
              else var rest := Walk(input, offset + ReadUInt32BE(input, offset) + 12);
                   Walked([offset] + rest.stops, rest.rejected)
  {
  }

  // ----- The encoding -----

  datatype Chunk = Chunk(kind: seq<Byte>, data: seq<Byte>, crc: seq<Byte>)

  predicate IsLetter(b: Byte) {
    65 <= b <= 90 || 97 <= b <= 122
  }

  /** Four ASCII letters of type, less than 2^31 bytes of data, four bytes of CRC. */
  ghost predicate WellFormed(c: Chunk) {
    && |c.kind| == 4 && (forall i :: 0 <= i < 4 ==> IsLetter(c.kind[i]))
    && |c.data| < 0x8000_0000 && |c.crc| == 4
  }

  function UInt32BE(n: nat): (r: seq<Byte>)
    requires n < 0x1_0000_0000
    ensures |r| == 4
  {
    [n / 0x100_0000, n / 0x1_0000 % 0x100, n / 0x100 % 0x100, n % 0x100]
  }

  lemma ReadsBack(n: nat)
    requires n < 0x1_0000_0000
    ensures ReadUInt32BE(UInt32BE(n), 0) == n
  {
    var a := n / 0x100;
    var b := a / 0x100;
    assert b == n / 0x1_0000 && b / 0x100 == n / 0x100_0000;
  }

  function EncodeChunk(c: Chunk): seq<Byte>
    requires |c.data| < 0x8000_0000
  {
    UInt32BE(|c.data|) + c.kind + c.data + c.crc
  }

  ghost predicate AllWellFormed(chunks: seq<Chunk>) {
    forall i :: 0 <= i < |chunks| ==> WellFormed(chunks[i])
  }

  function EncodeChunks(chunks: seq<Chunk>): seq<Byte>
    requires AllWellFormed(chunks)
  {
    if chunks == [] then [] else EncodeChunk(chunks[0]) + EncodeChunks(chunks[1..])
  }

  /** Where each chunk begins, when the first begins at the offset. */
  function Boundaries(chunks: seq<Chunk>, offset: nat): seq<nat> {
    if chunks == [] then [] else [offset] + Boundaries(chunks[1..], offset + |chunks[0].data| + 12)
  }

  predicate Animated(c: Chunk) {
    c.kind == ANIMATION_CONTROL
  }

  /** The chunks up to and including the first animation control chunk. */
  function UpToAnimation(chunks: seq<Chunk>): seq<Chunk> {
    if chunks == [] then []
    else if Animated(chunks[0]) then [chunks[0]]
    else [chunks[0]] + UpToAnimation(chunks[1..])
  }

  /** At an encoded chunk the walk reads that chunk's length and type. */
  lemma ReadsChunk(prefix: seq<Byte>, c: Chunk, suffix: seq<Byte>)
    requires WellFormed(c)
    ensures var input := prefix + EncodeChunk(c) + suffix;
            && |prefix| + 12 <= |input|
            && ReadUInt32BE(input, |prefix|) == |c.data|
            && (IsAnimationControl(input, |prefix|) <==> Animated(c))
            && |prefix + EncodeChunk(c)| == |prefix| + |c.data| + 12
  {
    var input := prefix + EncodeChunk(c) + suffix;
    var length := UInt32BE(|c.data|);
    assert forall i :: 0 <= i < 4 ==> input[|prefix| + i] == length[i];
    ReadsBack(|c.data|);
    assert input[|prefix| + 4..|prefix| + 8] == c.kind;
    var ascii := Ascii(c.kind);
    assert forall i :: 0 <= i < 4 ==> IsLetter(c.kind[i]) && ascii[i] == c.kind[i];
    assert ascii == c.kind;
  }

  /** At an encoded chunk the walk stops, and goes on behind the chunk unless it is an animation control. */
  lemma WalkOneChunk(prefix: seq<Byte>, c: Chunk, suffix: seq<Byte>)
    requires WellFormed(c)
    ensures var input := prefix + EncodeChunk(c) + suffix;
            var rest := Walk(input, |prefix| + |c.data| + 12);
            Walk(input, |prefix|) ==
              if Animated(c) then Walked([|prefix|], true) else Walked([|prefix|] + rest.stops, rest.rejected)
  {
    hide Walk, IsAnimationControl, ReadUInt32BE, EncodeChunk, Animated;
    ReadsChunk(prefix, c, suffix);
    WalkStep(prefix + EncodeChunk(c) + suffix, |prefix|);
  }

  lemma {:induction false} WalkFollowsEncoding(prefix: seq<Byte>, chunks: seq<Chunk>, tail: seq<Byte>)
    requires AllWellFormed(chunks) && |tail| < 12
    ensures Walk(prefix + EncodeChunks(chunks) + tail, |prefix|)
         == Walked(Boundaries(UpToAnimation(chunks), |prefix|), exists c :: c in chunks && Animated(c))
    decreases |chunks|
  {
    hide Walk, EncodeChunk, Animated;
    if chunks == [] {
      WalkStep(prefix + EncodeChunks(chunks) + tail, |prefix|);
    } else {
      var head, rest := chunks[0], chunks[1..];
      assert chunks == [head] + rest;
      var encoded, after := EncodeChunk(head), EncodeChunks(rest);
      assert |encoded| == |head.data| + 12 by { ReadsChunk([], head, []); }
      assert prefix + (encoded + after) + tail == prefix + encoded + (after + tail);
      assert (prefix + encoded) + after + tail == prefix + encoded + (after + tail);
      WalkOneChunk(prefix, head, after + tail);
      if !Animated(head) {
        WalkFollowsEncoding(prefix + encoded, rest, tail);
        assert (exists c :: c in chunks && Animated(c)) <==> exists c :: c in rest && Animated(c);
      }
    }
  }

  /**
   On a PNG signature followed by well-formed chunks (and less than a chunk of anything else) the walk
   stops on exactly the chunk boundaries, up to the first acTL chunk, and rejects exactly when some
   chunk has that type.
   */
  lemma WalkRejectsExactlyAnimated(chunks: seq<Chunk>, tail: seq<Byte>)
    requires AllWellFormed(chunks) && |tail| < 12
    ensures var w := Walk(SIGNATURE + EncodeChunks(chunks) + tail, 8);
            && (w.rejected <==> exists c :: c in chunks && Animated(c))
            && w.stops == Boundaries(UpToAnimation(chunks), 8)
            && (!w.rejected ==> w.stops == Boundaries(chunks, 8))
  {
    WalkFollowsEncoding(SIGNATURE, chunks, tail);
    if forall c :: c in chunks ==> !Animated(c) {
      NothingAnimated(chunks);
    }
  }

  lemma {:induction false} NothingAnimated(chunks: seq<Chunk>)
    requires forall c :: c in chunks ==> !Animated(c)
    ensures UpToAnimation(chunks) == chunks
  {
    if chunks != [] {
      NothingAnimated(chunks[1..]);
    }
  }
}
