/**
 The encrypted container "VG01": four magic bytes, a four-byte nonce prefix, then
 frames of nonce (12) | ciphertext length (4, big endian) | ciphertext, one for each
 chunk of at most 1 MiB of plaintext.
 */
module Crypto {
  import opened Common

  const MAGIC: seq<byte> := [86, 71, 48, 49]
  const CHUNK: nat := 1048576
  const OVERHEAD: nat := 16
  const KEY_SIZE: nat := 32

  /** An AEAD under a fixed key. */
  datatype Aead = Aead(Seal: (Bytes, Bytes) -> Bytes, Open: (Bytes, Bytes) -> Option<Bytes>)

  ghost predicate AeadLaw(a: Aead) {
    forall nonce, pt :: |a.Seal(nonce, pt)| == |pt| + OVERHEAD && a.Open(nonce, a.Seal(nonce, pt)) == Some(pt)
  }

  datatype Result = Ok(plaintext: Bytes) | BadKey | NotOurs | TruncatedHeader | TruncatedFrameHeader
                  | CorruptLength | TruncatedBody | NotAuthentic

  // ----- Big-endian numbers -----

  function BigEndian(n: nat, width: nat): (b: Bytes)
    ensures |b| == width
  {
    if width == 0 then [] else BigEndian(n / 256, width - 1) + [n % 256]
  }

  function Number(b: Bytes): nat {
    if b == [] then 0 else Number(b[..|b| - 1]) * 256 + b[|b| - 1]
  }

  function Pow256(w: nat): nat {
    if w == 0 then 1 else 256 * Pow256(w - 1)
  }

  /** Writing a number and reading it back keeps what fits in the width. */
  lemma {:induction false} BigEndianRoundTrip(n: nat, width: nat)
    requires n < Pow256(width)
    ensures Number(BigEndian(n, width)) == n
  {
    if width > 0 {
      BigEndianRoundTrip(n / 256, width - 1);
      assert BigEndian(n, width)[..width - 1] == BigEndian(n / 256, width - 1);
    }
  }

  // ----- The format -----

  /** The nonce of chunk `counter`: the counter is an unsigned 64-bit number. */
  function NonceFor(prefix: Bytes, counter: nat): Bytes
    requires |prefix| == 4
  {
    prefix + BigEndian(counter % 0x1_0000_0000_0000_0000, 8)
  }

  function Frame(a: Aead, prefix: Bytes, counter: nat, chunk: Bytes): Bytes
    requires |prefix| == 4
  {
    var nonce := NonceFor(prefix, counter);
    var ct := a.Seal(nonce, chunk);
    nonce + BigEndian(|ct| % 0x1_0000_0000, 4) + ct
  }

  /** The chunks of a plaintext: all but the last are full, none is empty. */
  function Chunks(pt: Bytes): seq<Bytes> {
    if pt == [] then [] else if |pt| <= CHUNK then [pt] else [pt[..CHUNK]] + Chunks(pt[CHUNK..])
  }

  function Frames(a: Aead, prefix: Bytes, counter: nat, chunks: seq<Bytes>): Bytes
    requires |prefix| == 4
    decreases |chunks|
  {
    if chunks == [] then [] else Frame(a, prefix, counter, chunks[0]) + Frames(a, prefix, counter + 1, chunks[1..])
  }

  function Container(a: Aead, prefix: Bytes, pt: Bytes): Bytes
    requires |prefix| == 4
  {
    MAGIC + prefix + Frames(a, prefix, 0, Chunks(pt))
  }

  /** Reading frames up to a clean end, appending to what was written so far. */
  function ReadFrames(a: Aead, src: Bytes, written: Bytes): Result
    decreases |src|
  {
    if src == [] then Ok(written)
    else if |src| < 16 then TruncatedFrameHeader
    else
      var n := Number(src[12..16]);
      if n == 0 || n > CHUNK + OVERHEAD + 16 then CorruptLength
      else if |src| < 16 + n then TruncatedBody
      else
        var pt := a.Open(src[..12], src[16..16 + n]);
        if pt.None? then NotAuthentic else ReadFrames(a, src[16 + n..], written + pt.value)
  }

  function ReadContainer(a: Aead, file: Bytes): Result {
    if |file| < 4 || file[..4] != MAGIC then NotOurs
    else if |file| < 8 then TruncatedHeader
    else ReadFrames(a, file[8..], [])
  }

  // ----- Writing -----

  lemma ChunksStep(pt: Bytes, i: nat)
    requires i < |pt|
    ensures var n := if |pt| - i < CHUNK then |pt| - i else CHUNK;
            Chunks(pt[i..]) == [pt[i..i + n]] + Chunks(pt[i + n..])
  {
    var n := if |pt| - i < CHUNK then |pt| - i else CHUNK;
    assert pt[i..][..n] == pt[i..i + n];
    assert pt[i..][n..] == pt[i + n..];
    if |pt| - i <= CHUNK {
      assert pt[i..i + n] == pt[i..] && pt[i + n..] == [];
    }
  }

  /** What is written together with the frames still to come is the container. */
  ghost predicate EncryptedUpTo(a: Aead, prefix: Bytes, src: Bytes, pos: nat, counter: nat, out: Bytes)
    requires |prefix| == 4 && pos <= |src|
  {
    out + Frames(a, prefix, counter, Chunks(src[pos..])) == Container(a, prefix, src)
  }

  lemma NextChunk(a: Aead, prefix: Bytes, counter: nat, out: Bytes, src: Bytes, i: nat)
    requires |prefix| == 4 && i < |src| && EncryptedUpTo(a, prefix, src, i, counter, out)
    ensures var n := if |src| - i < CHUNK then |src| - i else CHUNK;
            EncryptedUpTo(a, prefix, src, i + n, counter + 1, out + Frame(a, prefix, counter, src[i..i + n]))
  {
    var n := if |src| - i < CHUNK then |src| - i else CHUNK;
    ChunksStep(src, i);
    assert Chunks(src[i..])[1..] == Chunks(src[i + n..]);
    Assoc(out, Frame(a, prefix, counter, src[i..i + n]), Frames(a, prefix, counter + 1, Chunks(src[i + n..])));
  }

  /** EncryptFile: fill a buffer, seal it, append the frame, until a short read. */
  method EncryptFile(a: Aead, key: Bytes, prefix: Bytes, src: Bytes) returns (dst: Option<Bytes>)
    requires |prefix| == 4
    ensures dst == if |key| == KEY_SIZE then Some(Container(a, prefix, src)) else None
  {
    if |key| != KEY_SIZE {
      return None;
    }
    var out := MAGIC + prefix;
    var buf := new byte[CHUNK](_ => 0);
    var pos, counter := 0, 0;
    var ended := false;
    assert src[0..] == src;
    while !ended
      invariant 0 <= pos <= |src| && (ended ==> pos == |src|)
      invariant EncryptedUpTo(a, prefix, src, pos, counter, out)
      decreases |src| - pos, !ended
    {
      var n := ReadFull(src, pos, buf);
      ended := n < CHUNK;
      if n > 0 {
        NextChunk(a, prefix, counter, out, src, pos);
        out := out + Frame(a, prefix, counter, buf[..n]);
        counter := counter + 1;
        pos := pos + n;
      }
    }
    AllEncrypted(a, prefix, src, pos, counter, out);
    return Some(out);
  }

  lemma AllEncrypted(a: Aead, prefix: Bytes, src: Bytes, pos: nat, counter: nat, out: Bytes)
    requires |prefix| == 4 && pos == |src| && EncryptedUpTo(a, prefix, src, pos, counter, out)
    ensures out == Container(a, prefix, src)
  {
    assert src[pos..] == [] && out + [] == out;
  }

  /** Fill the buffer from position `pos`, as far as the source goes. */
  method ReadFull(src: Bytes, pos: nat, buf: array<byte>) returns (n: nat)
    requires pos <= |src|
    modifies buf
    ensures n == if |src| - pos < buf.Length then |src| - pos else buf.Length
    ensures buf[..n] == src[pos..pos + n]
  {
    n := 0;
    while n < buf.Length && pos + n < |src|
      invariant 0 <= n <= buf.Length && pos + n <= |src|
      invariant buf[..n] == src[pos..pos + n]
    {
      buf[n] := src[pos + n];
      n := n + 1;
    }
  }

  /** DecryptFile: a cursor over the source, frame after frame; the output survives
      only a clean end. */
  method DecryptFile(a: Aead, key: Bytes, src: Bytes) returns (r: Result)
    ensures r == if |key| == KEY_SIZE then ReadContainer(a, src) else BadKey
  {
    if |key| != KEY_SIZE {
      return BadKey;
    }
    if |src| < 4 || src[..4] != MAGIC {
      return NotOurs;
    }
    if |src| < 8 {
      return TruncatedHeader;
    }
    var pos := 8;
    var dst: Bytes := [];
    while pos < |src|
      invariant 8 <= pos <= |src|
      invariant ReadFrames(a, src[pos..], dst) == ReadContainer(a, src)
      decreases |src| - pos
    {
      ghost var rest := src[pos..];
      if |src| - pos < 16 {
        return TruncatedFrameHeader;
      }
      assert src[pos + 12..pos + 16] == rest[12..16] && src[pos..pos + 12] == rest[..12];
      var n := Number(src[pos + 12..pos + 16]);
      if n == 0 || n > CHUNK + OVERHEAD + 16 {
        return CorruptLength;
      }
      if |src| - pos < 16 + n {
        return TruncatedBody;
      }
      assert src[pos + 16..pos + 16 + n] == rest[16..16 + n] && src[pos + 16 + n..] == rest[16 + n..];
      var pt := a.Open(src[pos..pos + 12], src[pos + 16..pos + 16 + n]);
      if pt.None? {
        return NotAuthentic;
      }
      dst := dst + pt.value;
      pos := pos + 16 + n;
    }
    assert src[pos..] == [];
    return Ok(dst);
  }

  // ----- Chunks -----

  function Join(chunks: seq<Bytes>): Bytes {
    if chunks == [] then [] else chunks[0] + Join(chunks[1..])
  }

  ghost predicate GoodChunks(chunks: seq<Bytes>) {
    forall i :: 0 <= i < |chunks| ==> 0 < |chunks[i]| <= CHUNK
  }

  lemma {:induction false} ChunksJoin(pt: Bytes)
    ensures Join(Chunks(pt)) == pt && GoodChunks(Chunks(pt))
    ensures |Chunks(pt)| == (|pt| + CHUNK - 1) / CHUNK
    ensures forall i :: 0 <= i < |Chunks(pt)| - 1 ==> |Chunks(pt)[i]| == CHUNK
    decreases |pt|
  {
    if pt == [] {
    } else if |pt| <= CHUNK {
      assert Join([pt]) == pt + Join([]);
    } else {
      ChunksJoin(pt[CHUNK..]);
      var chunks := Chunks(pt);
      assert chunks[1..] == Chunks(pt[CHUNK..]);
      assert pt == pt[..CHUNK] + pt[CHUNK..];
    }
  }

  // ----- Where everything stands -----

  /** A container byte for byte: "VG01", the prefix, then the frames. */
  lemma ContainerLayout(a: Aead, prefix: Bytes, pt: Bytes)
    requires |prefix| == 4
    ensures var file := Container(a, prefix, pt);
            && |file| >= 8 && file[..4] == [86, 71, 48, 49] && file[4..8] == prefix
            && file[8..] == Frames(a, prefix, 0, Chunks(pt))
  {
    var file := Container(a, prefix, pt);
    assert file[..4] == MAGIC && file[4..8] == prefix;
  }

  /** A frame byte for byte: the prefix, the chunk's number in eight bytes, the length of the
      ciphertext in four, and the chunk sealed under the first twelve bytes. */
  lemma FrameLayout(a: Aead, prefix: Bytes, counter: nat, chunk: Bytes)
    requires AeadLaw(a) && |prefix| == 4 && 0 < |chunk| <= 1048576 && counter < 0x1_0000_0000_0000_0000
    ensures var f := Frame(a, prefix, counter, chunk);
            && |f| == |chunk| + 32 && f[..4] == prefix && Number(f[4..12]) == counter
            && Number(f[12..16]) == |chunk| + 16 && f[16..] == a.Seal(f[..12], chunk)
  {
    var nonce := NonceFor(prefix, counter);
    FrameIsRead(a, prefix, counter, chunk, [], []);
    NonceLayout(prefix, counter);
    FrameParts(nonce, BigEndian(|a.Seal(nonce, chunk)| % 0x1_0000_0000, 4), a.Seal(nonce, chunk));
    assert nonce[..4] == Frame(a, prefix, counter, chunk)[..12][..4];
    assert nonce[4..] == Frame(a, prefix, counter, chunk)[..12][4..];
  }

  lemma NonceLayout(prefix: Bytes, counter: nat)
    requires |prefix| == 4 && counter < 0x1_0000_0000_0000_0000
    ensures NonceFor(prefix, counter)[..4] == prefix && Number(NonceFor(prefix, counter)[4..]) == counter
  {
    EightBytes();
    BigEndianRoundTrip(counter, 8);
    Remainder(counter, 0x1_0000_0000_0000_0000);
    assert NonceFor(prefix, counter)[4..] == BigEndian(counter, 8);
  }

  lemma Remainder(n: nat, m: nat)
    requires n < m
    ensures n % m == n
  {
  }

  lemma FrameParts(nonce: Bytes, length: Bytes, ct: Bytes)
    requires |nonce| == 12 && |length| == 4
    ensures (nonce + length + ct)[..12] == nonce && (nonce + length + ct)[16..] == ct
    ensures (nonce + length + ct)[..4] == nonce[..4] && (nonce + length + ct)[4..12] == nonce[4..]
  {
  }

  /** A number of two bytes or more starts with its high byte. */
  lemma BigEndianExample()
    ensures Number([1, 2]) == 258 && BigEndian(258, 2) == [1, 2]
  {
    assert [1, 2][..1] == [1] && [1][..0] == [];
    assert Number([1]) == 1;
    assert BigEndian(1, 1) == [1] && BigEndian(1, 1) + [2] == [1, 2];
  }

  /** Every chunk but the last has 1 MiB, the last has at least one byte, and together they
      are the plaintext. */
  lemma ChunkSizes(pt: Bytes)
    ensures Join(Chunks(pt)) == pt
    ensures forall i :: 0 <= i < |Chunks(pt)| ==>
              0 < |Chunks(pt)[i]| <= 1048576 && (i < |Chunks(pt)| - 1 ==> |Chunks(pt)[i]| == 1048576)
  {
    ChunksJoin(pt);
  }

  // ----- Reading what was written -----

  /** One written frame is read whole: its length passes the bound and its chunk opens. */
  lemma FrameIsRead(a: Aead, prefix: Bytes, counter: nat, chunk: Bytes, rest: Bytes, written: Bytes)
    requires AeadLaw(a) && |prefix| == 4 && 0 < |chunk| <= CHUNK
    ensures |Frame(a, prefix, counter, chunk)| == |chunk| + 32
    ensures Number(Frame(a, prefix, counter, chunk)[12..16]) == |chunk| + OVERHEAD <= CHUNK + OVERHEAD + 16
    ensures ReadFrames(a, Frame(a, prefix, counter, chunk) + rest, written) == ReadFrames(a, rest, written + chunk)
  {
    var nonce := NonceFor(prefix, counter);
    var ct := a.Seal(nonce, chunk);
    var n := |chunk| + OVERHEAD;
    var src := Frame(a, prefix, counter, chunk) + rest;
    assert a.Open(nonce, ct) == Some(chunk);
    assert Pow256(4) == 0x1_0000_0000;
    BigEndianRoundTrip(n, 4);
    assert Frame(a, prefix, counter, chunk)[12..16] == BigEndian(n, 4);
    assert src[12..16] == BigEndian(n, 4);
    assert src[..12] == nonce;
    assert src[16..16 + n] == ct;
    assert src[16 + n..] == rest;
  }

  lemma {:induction false} FramesLength(a: Aead, prefix: Bytes, counter: nat, chunks: seq<Bytes>)
    requires AeadLaw(a) && |prefix| == 4 && GoodChunks(chunks)
    ensures |Frames(a, prefix, counter, chunks)| == |Join(chunks)| + 32 * |chunks|
    decreases |chunks|
  {
    if chunks != [] {
      FrameIsRead(a, prefix, counter, chunks[0], [], []);
      FramesLength(a, prefix, counter + 1, chunks[1..]);
    }
  }

  lemma {:induction false} FramesAreRead(a: Aead, prefix: Bytes, counter: nat, chunks: seq<Bytes>, written: Bytes)
    requires AeadLaw(a) && |prefix| == 4 && GoodChunks(chunks)
    ensures ReadFrames(a, Frames(a, prefix, counter, chunks), written) == Ok(written + Join(chunks))
    decreases |chunks|
  {
    if chunks == [] {
      assert written + [] == written;
    } else {
      var tail := Frames(a, prefix, counter + 1, chunks[1..]);
      calc {
        ReadFrames(a, Frames(a, prefix, counter, chunks), written);
        { FrameIsRead(a, prefix, counter, chunks[0], tail, written); }
        ReadFrames(a, tail, written + chunks[0]);
        { FramesAreRead(a, prefix, counter + 1, chunks[1..], written + chunks[0]); }
        Ok(written + chunks[0] + Join(chunks[1..]));
        { Assoc(written, chunks[0], Join(chunks[1..])); }
        Ok(written + Join(chunks));
      }
    }
  }

  /** Decryption undoes encryption for every plaintext, the empty one and whole
      multiples of a chunk included, and the file has the stated length. */
  lemma DecryptUndoesEncrypt(a: Aead, prefix: Bytes, pt: Bytes)
    requires AeadLaw(a) && |prefix| == 4
    ensures ReadContainer(a, Container(a, prefix, pt)) == Ok(pt)
    ensures |Container(a, prefix, pt)| == 8 + |pt| + 32 * ((|pt| + 1048575) / 1048576)
  {
    ChunksJoin(pt);
    FramesLength(a, prefix, 0, Chunks(pt));
    FramesAreRead(a, prefix, 0, Chunks(pt), []);
    ContainerParts(a, prefix, pt);
    assert [] + pt == pt;
  }

  lemma ContainerParts(a: Aead, prefix: Bytes, pt: Bytes)
    requires |prefix| == 4
    ensures Container(a, prefix, pt)[..4] == MAGIC && Container(a, prefix, pt)[8..] == Frames(a, prefix, 0, Chunks(pt))
  {
  }

  lemma EightBytes()
    ensures Pow256(8) == 0x1_0000_0000_0000_0000
  {
    assert Pow256(4) == 0x1_0000_0000;
    assert Pow256(5) == 0x100_0000_0000;
    assert Pow256(6) == 0x1_0000_0000_0000;
    assert Pow256(7) == 0x100_0000_0000_0000;
  }

  /** Two chunks of one file have the same nonce exactly when their numbers differ by
      a multiple of 2^64; below that many chunks all nonces differ. */
  lemma NoncesDiffer(prefix: Bytes, i: nat, j: nat)
    requires |prefix| == 4
    ensures NonceFor(prefix, i) == NonceFor(prefix, j)
            <==> i % 0x1_0000_0000_0000_0000 == j % 0x1_0000_0000_0000_0000
    ensures i < j < 0x1_0000_0000_0000_0000 ==> NonceFor(prefix, i) != NonceFor(prefix, j)
  {
    var m := 0x1_0000_0000_0000_0000;
    EightBytes();
    BigEndianRoundTrip(i % m, 8);
    BigEndianRoundTrip(j % m, 8);
    assert NonceFor(prefix, i)[4..] == BigEndian(i % m, 8);
    assert NonceFor(prefix, j)[4..] == BigEndian(j % m, 8);
  }

  // ----- Truncated files -----

  /** Where frame k of a chunk list starts, counted from the first frame. */
  function Boundary(chunks: seq<Bytes>, k: nat): nat
    requires k <= |chunks|
  {
    if k == 0 then 0 else |chunks[0]| + 32 + Boundary(chunks[1..], k - 1)
  }

  ghost predicate OnBoundary(chunks: seq<Bytes>, cut: nat) {
    exists k :: 0 <= k <= |chunks| && cut == Boundary(chunks, k)
  }

  /** A cut past the first frame: what is read is the first chunk and the rest of the cut. */
  lemma CutBeyondFrame(a: Aead, prefix: Bytes, counter: nat, chunks: seq<Bytes>, cut: nat, written: Bytes)
    requires AeadLaw(a) && |prefix| == 4 && GoodChunks(chunks) && chunks != []
    requires |Frame(a, prefix, counter, chunks[0])| <= cut <= |Frames(a, prefix, counter, chunks)|
    ensures var c := cut - |Frame(a, prefix, counter, chunks[0])|;
            && |Frame(a, prefix, counter, chunks[0])| == |chunks[0]| + 32
            && c <= |Frames(a, prefix, counter + 1, chunks[1..])|
            && ReadFrames(a, Frames(a, prefix, counter, chunks)[..cut], written)
               == ReadFrames(a, Frames(a, prefix, counter + 1, chunks[1..])[..c], written + chunks[0])
  {
    var head, tail := Frame(a, prefix, counter, chunks[0]), Frames(a, prefix, counter + 1, chunks[1..]);
    FrameIsRead(a, prefix, counter, chunks[0], tail[..cut - |head|], written);
    assert (head + tail)[..cut] == head + tail[..cut - |head|];
  }

  lemma JoinShift(chunks: seq<Bytes>, k: nat, written: Bytes)
    requires 0 < k <= |chunks|
    ensures written + Join(chunks[..k]) == written + chunks[0] + Join(chunks[1..][..k - 1])
  {
    assert chunks[..k][1..] == chunks[1..][..k - 1];
    Assoc(written, chunks[0], Join(chunks[1..][..k - 1]));
  }

  /** What cut leaves of the frames, against the chunks it leaves whole. */
  ghost predicate CutReads(a: Aead, prefix: Bytes, counter: nat, chunks: seq<Bytes>, cut: nat, written: Bytes)
    requires |prefix| == 4 && cut <= |Frames(a, prefix, counter, chunks)|
  {
    var read := ReadFrames(a, Frames(a, prefix, counter, chunks)[..cut], written);
    && (read.Ok? <==> OnBoundary(chunks, cut))
    && forall k :: 0 <= k <= |chunks| && cut == Boundary(chunks, k) ==> read == Ok(written + Join(chunks[..k]))
  }

  /** A cut through the frames is an error unless it falls between two of them. */
  lemma {:induction false} CutFrames(a: Aead, prefix: Bytes, counter: nat, chunks: seq<Bytes>, cut: nat, written: Bytes)
    requires AeadLaw(a) && |prefix| == 4 && GoodChunks(chunks)
    requires cut <= |Frames(a, prefix, counter, chunks)|
    ensures CutReads(a, prefix, counter, chunks, cut, written)
    decreases |chunks|
  {
    if chunks == [] {
      assert cut == 0 == Boundary(chunks, 0);
      assert written + Join(chunks[..0]) == written;
    } else {
      var head := Frame(a, prefix, counter, chunks[0]);
      FrameIsRead(a, prefix, counter, chunks[0], [], written);
      if cut < |head| {
        CutBeforeFrame(a, prefix, counter, chunks, cut, written);
      } else {
        var c := cut - |head|;
        CutBeyondFrame(a, prefix, counter, chunks, cut, written);
        CutFrames(a, prefix, counter + 1, chunks[1..], c, written + chunks[0]);
        BoundaryShift(chunks, c);
        forall k | 0 <= k <= |chunks| && cut == Boundary(chunks, k)
          ensures ReadFrames(a, Frames(a, prefix, counter, chunks)[..cut], written) == Ok(written + Join(chunks[..k]))
        {
          assert k > 0 && c == Boundary(chunks[1..], k - 1);
          JoinShift(chunks, k, written);
        }
      }
    }
  }

  lemma CutBeforeFrame(a: Aead, prefix: Bytes, counter: nat, chunks: seq<Bytes>, cut: nat, written: Bytes)
    requires AeadLaw(a) && |prefix| == 4 && GoodChunks(chunks) && chunks != []
    requires cut < |Frame(a, prefix, counter, chunks[0])| == |chunks[0]| + 32
    requires cut <= |Frames(a, prefix, counter, chunks)|
    ensures CutReads(a, prefix, counter, chunks, cut, written)
  {
    CutInsideFrame(a, prefix, counter, chunks[0], cut, written);
    assert Frames(a, prefix, counter, chunks)[..cut] == Frame(a, prefix, counter, chunks[0])[..cut];
    assert cut == 0 ==> cut == Boundary(chunks, 0);
    assert forall k :: 0 < k <= |chunks| ==> Boundary(chunks, k) >= |chunks[0]| + 32;
    assert written + Join(chunks[..0]) == written;
  }

  lemma BoundaryShift(chunks: seq<Bytes>, c: nat)
    requires chunks != []
    ensures OnBoundary(chunks, |chunks[0]| + 32 + c) <==> OnBoundary(chunks[1..], c)
  {
    if k :| 0 <= k <= |chunks[1..]| && c == Boundary(chunks[1..], k) {
      assert |chunks[0]| + 32 + c == Boundary(chunks, k + 1);
    }
    if k :| 0 <= k <= |chunks| && |chunks[0]| + 32 + c == Boundary(chunks, k) {
      assert c == Boundary(chunks[1..], k - 1);
    }
  }

  lemma CutInsideFrame(a: Aead, prefix: Bytes, counter: nat, chunk: Bytes, cut: nat, written: Bytes)
    requires AeadLaw(a) && |prefix| == 4 && 0 < |chunk| <= CHUNK
    requires cut < |Frame(a, prefix, counter, chunk)|
    ensures ReadFrames(a, Frame(a, prefix, counter, chunk)[..cut], written)
            == if cut == 0 then Ok(written) else if cut < 16 then TruncatedFrameHeader else TruncatedBody
  {
    var frame := Frame(a, prefix, counter, chunk);
    FrameIsRead(a, prefix, counter, chunk, [], written);
    if cut >= 16 {
      assert frame[..cut][12..16] == frame[12..16];
    }
  }

  /** A file cut short is accepted exactly when the cut falls on a frame boundary at
      or after byte 8; what comes out is then the whole chunks before the cut. */
  lemma TruncationIsDetectedUnlessOnBoundary(a: Aead, prefix: Bytes, pt: Bytes, cut: nat)
    requires AeadLaw(a) && |prefix| == 4
    requires cut <= |Container(a, prefix, pt)|
    ensures ReadContainer(a, Container(a, prefix, pt)[..cut]).Ok? <==> cut >= 8 && OnBoundary(Chunks(pt), cut - 8)
    ensures forall k :: 0 <= k <= |Chunks(pt)| && cut == 8 + Boundary(Chunks(pt), k) ==>
              && ReadContainer(a, Container(a, prefix, pt)[..cut]) == Ok(Join(Chunks(pt)[..k]))
              && Join(Chunks(pt)[..k]) == pt[..if k * CHUNK < |pt| then k * CHUNK else |pt|]
  {
    var file, chunks := Container(a, prefix, pt), Chunks(pt);
    ChunksJoin(pt);
    ContainerParts(a, prefix, pt);
    if cut >= 8 {
      CutFrames(a, prefix, 0, chunks, cut - 8, []);
      assert file[..cut][..4] == file[..4];
      assert file[..cut][8..] == file[8..][..cut - 8];
      forall k | 0 <= k <= |chunks| && cut == 8 + Boundary(chunks, k)
        ensures ReadContainer(a, file[..cut]) == Ok(Join(chunks[..k]))
                && Join(chunks[..k]) == pt[..if k * CHUNK < |pt| then k * CHUNK else |pt|]
      {
        assert [] + Join(chunks[..k]) == Join(chunks[..k]);
        LeadingChunks(pt, k);
      }
    }
  }

  lemma {:induction false} LeadingChunks(pt: Bytes, k: nat)
    requires k <= |Chunks(pt)|
    ensures Join(Chunks(pt)[..k]) == pt[..if k * CHUNK < |pt| then k * CHUNK else |pt|]
    decreases |pt|
  {
    var chunks := Chunks(pt);
    if k > 0 {
      if |pt| <= CHUNK {
        assert chunks[..1] == [pt];
        assert Join([pt]) == pt + Join([pt][1..]);
      } else {
        LeadingChunks(pt[CHUNK..], k - 1);
        assert chunks[..k][1..] == Chunks(pt[CHUNK..])[..k - 1];
        assert chunks[..k][0] == pt[..CHUNK];
      }
    }
  }

  // ----- Which files are accepted -----

  /** One frame as the reader judges it, whoever wrote it: its length field covers it,
      is within bounds, and its ciphertext opens under the nonce it carries. */
  predicate Opens(a: Aead, f: Bytes) {
    |f| > 16 && Number(f[12..16]) == |f| - 16 <= CHUNK + OVERHEAD + 16 && a.Open(f[..12], f[16..]).Some?
  }

  predicate AllOpen(a: Aead, frames: seq<Bytes>) {
    forall i :: 0 <= i < |frames| ==> Opens(a, frames[i])
  }

  function Opened(a: Aead, frames: seq<Bytes>): Bytes
    requires AllOpen(a, frames)
  {
    if frames == [] then [] else a.Open(frames[0][..12], frames[0][16..]).value + Opened(a, frames[1..])
  }

  lemma OneFrameOpens(a: Aead, f: Bytes, rest: Bytes, written: Bytes)
    requires Opens(a, f)
    ensures ReadFrames(a, f + rest, written) == ReadFrames(a, rest, written + a.Open(f[..12], f[16..]).value)
  {
    var src, n := f + rest, |f| - 16;
    assert src[12..16] == f[12..16] && src[..12] == f[..12];
    assert src[16..16 + n] == f[16..] && src[16 + n..] == rest;
  }

  lemma {:induction false} FramesOpen(a: Aead, frames: seq<Bytes>, written: Bytes)
    requires AllOpen(a, frames)
    ensures ReadFrames(a, Join(frames), written) == Ok(written + Opened(a, frames))
    decreases |frames|
  {
    if frames == [] {
      assert written + [] == written;
    } else {
      var pt := a.Open(frames[0][..12], frames[0][16..]).value;
      OneFrameOpens(a, frames[0], Join(frames[1..]), written);
      FramesOpen(a, frames[1..], written + pt);
      Assoc(written, pt, Opened(a, frames[1..]));
    }
  }

  lemma {:induction false} AcceptedIsFrames(a: Aead, src: Bytes, written: Bytes) returns (frames: seq<Bytes>)
    requires ReadFrames(a, src, written).Ok?
    ensures AllOpen(a, frames) && src == Join(frames)
    decreases |src|
  {
    frames := [];
    if src != [] {
      var n := Number(src[12..16]);
      var f, rest := src[..16 + n], src[16 + n..];
      assert f[12..16] == src[12..16] && f[..12] == src[..12] && f[16..] == src[16..16 + n];
      var more := AcceptedIsFrames(a, rest, written + a.Open(f[..12], f[16..]).value);
      frames := [f] + more;
      assert frames[1..] == more && src == f + rest;
    }
  }

  /** A file is accepted exactly when, after eight bytes that begin with the magic, it is
      a row of frames each of which opens by itself. Then it decrypts to what they open
      to, in the order in which they stand: neither the prefix in the header nor the
      numbers in the nonces have a say. */
  lemma AcceptedIff(a: Aead, file: Bytes)
    ensures ReadContainer(a, file).Ok?
            <==> |file| >= 8 && file[..4] == MAGIC && exists frames :: AllOpen(a, frames) && file[8..] == Join(frames)
    ensures forall frames :: |file| >= 8 && file[..4] == MAGIC && AllOpen(a, frames) && file[8..] == Join(frames) ==>
              ReadContainer(a, file) == Ok(Opened(a, frames))
  {
    if ReadContainer(a, file).Ok? {
      var frames := AcceptedIsFrames(a, file[8..], []);
    }
    forall frames | |file| >= 8 && file[..4] == MAGIC && AllOpen(a, frames) && file[8..] == Join(frames)
      ensures ReadContainer(a, file) == Ok(Opened(a, frames))
    {
      FramesOpen(a, frames, []);
      assert [] + Opened(a, frames) == Opened(a, frames);
    }
  }
}
