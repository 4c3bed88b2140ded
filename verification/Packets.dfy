/** Packets of the file-server protocol: framing, compression, and the splitting of long
    low-priority replies into chunks between which other packets may be sent.

    Compression is a pair of functions of which the second undoes the first. */
module Packets {
  import opened Basics
  import opened Varint

  const HEADER_SIZE := 16
  const CHUNK_SIZE := 32 * 1024
  const COMPRESSION_THRESHOLD := 32 * 1024
  const SERVER_LIMIT := 1024 * 1024
  const CLIENT_LIMIT := 10 * 1024 * 1024
  const TWO_32: nat := 0x1_0000_0000
  const TWO_28: nat := 0x1000_0000

  type Word = w: nat | w < TWO_32

  type Spare = n: nat | n < TWO_28

  /** The flag word: four bits with a meaning, and the rest. */
  datatype Flags = Flags(low: bool, compressed: bool, hasMore: bool, endOfMulti: bool, other: Spare)

  datatype Packet = Packet(opcode: Word, flags: Flags, id: Word, payload: seq<Byte>)

  function Bit(b: bool): nat
  {
    if b then 1 else 0
  }

  function FlagWord(f: Flags): Word
  {
    Bit(f.low) + 2 * (Bit(f.compressed) + 2 * (Bit(f.hasMore) + 2 * (Bit(f.endOfMulti) + 2 * f.other)))
  }

  function WordFlags(w: Word): Flags
  {
    Flags(w % 2 == 1, w / 2 % 2 == 1, w / 2 / 2 % 2 == 1, w / 2 / 2 / 2 % 2 == 1, w / 2 / 2 / 2 / 2)
  }

  lemma Halve(b: bool, n: nat)
    ensures (Bit(b) + 2 * n) / 2 == n && ((Bit(b) + 2 * n) % 2 == 1 <==> b)
  {
  }

  lemma FlagsRoundTrip(f: Flags)
    ensures WordFlags(FlagWord(f)) == f
  {
    var n := Bit(f.endOfMulti) + 2 * f.other;
    Halve(f.endOfMulti, f.other);
    Halve(f.hasMore, n);
    Halve(f.compressed, Bit(f.hasMore) + 2 * n);
    Halve(f.low, Bit(f.compressed) + 2 * (Bit(f.hasMore) + 2 * n));
  }

  /** The bits of the flag word. */
  lemma FlagBits(f: Flags)
    ensures FlagWord(f) == (if f.low then 1 else 0) + (if f.compressed then 2 else 0) + (if f.hasMore then 4 else 0)
                           + (if f.endOfMulti then 8 else 0) + 16 * f.other
  {
  }

  // ----- Framing ---------------------------------------------------------------------------

  /** Four 32-bit words: code, total size, flags, sequence number. */
  function HeaderBytes(opcode: Word, size: Word, flags: Word, id: Word): (r: seq<Byte>)
    ensures |r| == HEADER_SIZE
  {
    Little(opcode, 4) + Little(size, 4) + Little(flags, 4) + Little(id, 4)
  }

  function Frame(p: Packet): (r: seq<Byte>)
    ensures |r| == HEADER_SIZE + |p.payload|
  {
    HeaderBytes(p.opcode, (HEADER_SIZE + |p.payload|) % TWO_32, FlagWord(p.flags), p.id) + p.payload
  }

  /** A word of a header. */
  function WordAt(s: seq<Byte>, i: nat): Word
    requires i + 4 <= |s|
  {
    assert Pow256(4) == TWO_32 by { assert Pow256(2) == 0x1_0000; }
    FromLittle(s[i..i + 4])
  }

  /** One frame cut off the front of `s`, unless it is incomplete or its size is refused. */
  function Cut(s: seq<Byte>, limit: nat): (r: Option<(Packet, seq<Byte>)>)
    ensures r.Some? ==> |r.value.1| < |s|
  {
    if |s| < HEADER_SIZE then None
    else
      var size := WordAt(s, 4);
      if size < HEADER_SIZE || size > limit || |s| < size then None
      else Some((Packet(WordAt(s, 0), WordFlags(WordAt(s, 8)), WordAt(s, 12), s[HEADER_SIZE..size]), s[size..]))
  }

  /** All frames cut off the front of a stream, and what is left. */
  function CutAll(s: seq<Byte>, limit: nat): (seq<Packet>, seq<Byte>)
    decreases |s|
  {
    match Cut(s, limit)
    case None => ([], s)
    case Some((p, rest)) =>
      var (ps, left) := CutAll(rest, limit);
      ([p] + ps, left)
  }

  /** A packet the writer can frame and a reader with this limit accepts. */
  predicate Framable(p: Packet, limit: nat)
  {
    HEADER_SIZE + |p.payload| <= limit < TWO_32
  }

  function FrameAll(ps: seq<Packet>): seq<Byte>
  {
    if ps == [] then [] else Frame(ps[0]) + FrameAll(ps[1..])
  }

  lemma WordRoundTrip(w: Word, s: seq<Byte>, i: nat)
    requires i + 4 <= |s| && s[i..i + 4] == Little(w, 4)
    ensures WordAt(s, i) == w
  {
    assert Pow256(4) == TWO_32 by { assert Pow256(2) == 0x1_0000; }
    LittleRoundTrip(w, 4);
  }

  lemma HeaderWords(opcode: Word, size: Word, flags: Word, id: Word, rest: seq<Byte>)
    ensures var s := HeaderBytes(opcode, size, flags, id) + rest;
      WordAt(s, 0) == opcode && WordAt(s, 4) == size && WordAt(s, 8) == flags && WordAt(s, 12) == id
  {
    var a, b, c, d := Little(opcode, 4), Little(size, 4), Little(flags, 4), Little(id, 4);
    var s := HeaderBytes(opcode, size, flags, id) + rest;
    assert s == a + b + c + d + rest;
    assert s[0..4] == a && s[4..8] == b && s[8..12] == c && s[12..16] == d;
    WordRoundTrip(opcode, s, 0);
    WordRoundTrip(size, s, 4);
    WordRoundTrip(flags, s, 8);
    WordRoundTrip(id, s, 12);
  }

  lemma WordOnWire(s: seq<Byte>, k: nat, w: nat, i: nat)
    requires k + 4 <= |s| && s[k..k + 4] == Little(w, 4) && i < 4
    ensures s[k + i] == w / Pow256(i) % 256
  {
    LittleAt(w, 4, i);
    assert s[k..k + 4][i] == s[k + i];
  }

  /** A frame is four 32-bit words, least significant byte first, and the payload: the code, the
      size of the whole frame, the flags and the sequence number. */
  lemma FrameOnWire(p: Packet, i: nat)
    requires HEADER_SIZE + |p.payload| < TWO_32 && i < 4
    ensures var s, size := Frame(p), HEADER_SIZE + |p.payload|;
      && |s| == size && s[HEADER_SIZE..] == p.payload
      && s[i] == p.opcode / Pow256(i) % 256 && s[4 + i] == size / Pow256(i) % 256
      && s[8 + i] == FlagWord(p.flags) / Pow256(i) % 256 && s[12 + i] == p.id / Pow256(i) % 256
  {
    var s, size := Frame(p), HEADER_SIZE + |p.payload|;
    var flags := FlagWord(p.flags);
    FrameWords(p);
    WordOnWire(s, 0, p.opcode, i);
    WordOnWire(s, 4, size, i);
    WordOnWire(s, 8, flags, i);
    WordOnWire(s, 12, p.id, i);
  }

  lemma FrameWords(p: Packet)
    requires HEADER_SIZE + |p.payload| < TWO_32
    ensures var s := Frame(p);
      && s[0..4] == Little(p.opcode, 4) && s[4..8] == Little(HEADER_SIZE + |p.payload|, 4)
      && s[8..12] == Little(FlagWord(p.flags), 4) && s[12..16] == Little(p.id, 4) && s[HEADER_SIZE..] == p.payload
  {
    var a, b := Little(p.opcode, 4), Little(HEADER_SIZE + |p.payload|, 4);
    var c, d := Little(FlagWord(p.flags), 4), Little(p.id, 4);
    assert Frame(p) == a + b + c + d + p.payload;
  }

  lemma CutOne(p: Packet, rest: seq<Byte>, limit: nat)
    requires Framable(p, limit)
    ensures Cut(Frame(p) + rest, limit) == Some((p, rest))
  {
    var size := HEADER_SIZE + |p.payload|;
    var h := HeaderBytes(p.opcode, size, FlagWord(p.flags), p.id);
    var s := Frame(p) + rest;
    assert s == h + (p.payload + rest);
    HeaderWords(p.opcode, size, FlagWord(p.flags), p.id, p.payload + rest);
    FlagsRoundTrip(p.flags);
    assert s[HEADER_SIZE..size] == p.payload && s[size..] == rest;
  }

  lemma DoubledHalves(w: nat)
    ensures Bit(w % 2 == 1) + 2 * (w / 2) == w
  {
  }

  lemma WordRoundTrips(w: Word)
    ensures FlagWord(WordFlags(w)) == w
  {
    DoubledHalves(w);
    DoubledHalves(w / 2);
    DoubledHalves(w / 2 / 2);
    DoubledHalves(w / 2 / 2 / 2);
  }

  lemma HeaderOf(s: seq<Byte>)
    requires |s| >= HEADER_SIZE
    ensures HeaderBytes(WordAt(s, 0), WordAt(s, 4), WordAt(s, 8), WordAt(s, 12)) == s[..HEADER_SIZE]
  {
    WordBytes(s, 0);
    WordBytes(s, 4);
    WordBytes(s, 8);
    WordBytes(s, 12);
    Quarters(s);
  }

  lemma Quarters(s: seq<Byte>)
    requires |s| >= 16
    ensures s[..16] == s[0..4] + s[4..8] + s[8..12] + s[12..16]
  {
  }

  lemma ThreeParts(s: seq<Byte>, i: nat, k: nat)
    requires i <= k <= |s|
    ensures s == s[..i] + s[i..k] + s[k..]
  {
  }

  /** A reader takes nothing for a frame that is not one, or that is longer than its limit. */
  lemma CutIsFrame(s: seq<Byte>, limit: nat)
    requires Cut(s, limit).Some? && limit < TWO_32
    ensures var (p, rest) := Cut(s, limit).value; s == Frame(p) + rest && Framable(p, limit)
  {
    var (p, rest) := Cut(s, limit).value;
    var size := WordAt(s, 4);
    WordRoundTrips(WordAt(s, 8));
    HeaderOf(s);
    ThreeParts(s, HEADER_SIZE, size);
  }

  lemma WordBytes(s: seq<Byte>, i: nat)
    requires i + 4 <= |s|
    ensures Little(WordAt(s, i), 4) == s[i..i + 4]
  {
    LittleOf(s[i..i + 4]);
  }

  /** What a reader cuts off a stream are frames within its limit, and it stops only where no
      further such frame is complete. */
  lemma {:induction false} CutAllIsFrames(s: seq<Byte>, limit: nat)
    requires limit < TWO_32
    ensures var (ps, left) := CutAll(s, limit);
      && s == FrameAll(ps) + left && (forall p :: p in ps ==> Framable(p, limit))
      && forall p, rest :: Framable(p, limit) ==> left != Frame(p) + rest
    decreases |s|
  {
    var (ps, left) := CutAll(s, limit);
    if Cut(s, limit).Some? {
      var (p, rest) := Cut(s, limit).value;
      CutIsFrame(s, limit);
      CutAllIsFrames(rest, limit);
      assert ps[1..] == CutAll(rest, limit).0;
      Associate(Frame(p), FrameAll(ps[1..]), left);
    } else {
      assert FrameAll(ps) + left == left;
      forall p, rest | Framable(p, limit) ensures left != Frame(p) + rest {
        CutOne(p, rest, limit);
      }
    }
  }

  lemma CutAllOne(p: Packet, rest: seq<Byte>, limit: nat)
    requires Framable(p, limit)
    ensures CutAll(Frame(p) + rest, limit) == ([p] + CutAll(rest, limit).0, CutAll(rest, limit).1)
  {
    CutOne(p, rest, limit);
  }

  /** A reader cuts a stream of frames exactly at their boundaries, whatever follows. */
  lemma {:induction false} FramesRoundTrip(ps: seq<Packet>, rest: seq<Byte>, limit: nat)
    requires forall p :: p in ps ==> Framable(p, limit)
    ensures CutAll(FrameAll(ps) + rest, limit) == (ps + CutAll(rest, limit).0, CutAll(rest, limit).1)
    decreases |ps|
  {
    if ps == [] {
      assert FrameAll(ps) + rest == rest;
      assert ps + CutAll(rest, limit).0 == CutAll(rest, limit).0;
    } else {
      assert ps[0] in ps;
      FramesRoundTrip(ps[1..], rest, limit);
      CutAllOne(ps[0], FrameAll(ps[1..]) + rest, limit);
      Associate(Frame(ps[0]), FrameAll(ps[1..]), rest);
      Associate([ps[0]], ps[1..], CutAll(rest, limit).0);
      assert [ps[0]] + ps[1..] == ps;
    }
  }

  /** The loop that reads a connection. */
  method ReadConnection(s: seq<Byte>, limit: nat) returns (ps: seq<Packet>, left: seq<Byte>)
    ensures (ps, left) == CutAll(s, limit)
  {
    ps, left := [], s;
    assert [] + CutAll(s, limit).0 == CutAll(s, limit).0;
    while |left| >= HEADER_SIZE
      invariant CutAll(s, limit) == (ps + CutAll(left, limit).0, CutAll(left, limit).1)
      decreases |left|
    {
      var size := WordAt(left, 4);
      if size < HEADER_SIZE || size > limit || |left| < size {
        break;
      }
      var p := Packet(WordAt(left, 0), WordFlags(WordAt(left, 8)), WordAt(left, 12), left[HEADER_SIZE..size]);
      assert Cut(left, limit) == Some((p, left[size..]));
      Associate(ps, [p], CutAll(left[size..], limit).0);
      ps, left := ps + [p], left[size..];
    }
    assert CutAll(left, limit) == ([], left);
    assert ps + [] == ps;
  }

  // ----- Compression --------------------------------------------------------------------------

  datatype Codec = Codec(zip: seq<Byte> -> seq<Byte>, unzip: seq<Byte> -> Option<seq<Byte>>)

  ghost predicate Inverse(c: Codec)
  {
    forall b :: c.unzip(c.zip(b)) == Some(b)
  }

  /** A body, compressed if it is long and compression makes it shorter. */
  function Pack(c: Codec, opcode: Word, id: Word, flags: Flags, body: seq<Byte>): Packet
  {
    if |body| > COMPRESSION_THRESHOLD && |c.zip(body)| < |body|
    then Packet(opcode, flags.(compressed := true), id, c.zip(body))
    else Packet(opcode, flags, id, body)
  }

  function Unpack(c: Codec, p: Packet): Option<seq<Byte>>
  {
    if p.flags.compressed then c.unzip(p.payload) else Some(p.payload)
  }

  lemma PackRoundTrip(c: Codec, opcode: Word, id: Word, flags: Flags, body: seq<Byte>)
    requires Inverse(c) && !flags.compressed
    ensures var p := Pack(c, opcode, id, flags, body);
      p.opcode == opcode && p.id == id && |p.payload| <= |body| && Unpack(c, p) == Some(body)
    ensures var p := Pack(c, opcode, id, flags, body);
      && p.flags.(compressed := false) == flags
      && (p.flags.compressed <==> |body| > 32768 && |c.zip(body)| < |body|)
  {
  }

  datatype Request = Request(opcode: Word, id: Word, flags: Flags, body: seq<Byte>)

  /** The packet has the request's code, sequence number and body. */
  predicate Carries(c: Codec, p: Packet, r: Request)
  {
    p.opcode == r.opcode && p.id == r.id && Unpack(c, p) == Some(r.body)
  }

  function PackAll(c: Codec, rs: seq<Request>): (ps: seq<Packet>)
    ensures |ps| == |rs|
  {
    seq(|rs|, i requires 0 <= i < |rs| => Pack(c, rs[i].opcode, rs[i].id, rs[i].flags, rs[i].body))
  }

  /** A server reading any number of requests off one connection gets each one's code,
      sequence number and body. */
  lemma RequestsArrive(c: Codec, rs: seq<Request>)
    requires Inverse(c)
    requires forall r :: r in rs ==> !r.flags.compressed
    requires forall p :: p in PackAll(c, rs) ==> Framable(p, SERVER_LIMIT)
    ensures var (ps, left) := CutAll(FrameAll(PackAll(c, rs)), SERVER_LIMIT);
      && left == [] && |ps| == |rs|
      && forall i :: 0 <= i < |rs| ==> Carries(c, ps[i], rs[i])
  {
    var ps := PackAll(c, rs);
    FramesRoundTrip(ps, [], SERVER_LIMIT);
    assert FrameAll(ps) + [] == FrameAll(ps) && ps + [] == ps;
    forall i | 0 <= i < |rs| ensures Carries(c, ps[i], rs[i]) {
      assert rs[i] in rs;
      PackRoundTrip(c, rs[i].opcode, rs[i].id, rs[i].flags, rs[i].body);
    }
  }
}
