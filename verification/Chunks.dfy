/** Long replies travel as chunks, and the receiver puts them together again. */
module Chunks {
  import opened Basics
  import opened Varint
  import opened Packets

  function Min(a: nat, b: nat): nat
  {
    if a < b then a else b
  }

  // ----- Sending ---------------------------------------------------------------------------

  function ChunkAt(p: Packet, offset: nat): Packet
    requires offset < |p.payload|
  {
    var n := Min(CHUNK_SIZE, |p.payload| - offset);
    var isFirst, isLast := offset == 0, offset + n >= |p.payload|;
    var flags :=
      if isFirst && isLast then p.flags
      else if isLast then p.flags.(endOfMulti := true)
      else p.flags.(hasMore := true);
    p.(flags := flags, payload := p.payload[offset..offset + n])
  }

  function ChunksFrom(p: Packet, offset: nat): seq<Packet>
    requires offset <= |p.payload|
    decreases |p.payload| - offset
  {
    if offset == |p.payload| then []
    else [ChunkAt(p, offset)] + ChunksFrom(p, offset + Min(CHUNK_SIZE, |p.payload| - offset))
  }

  /** A reply is split if it is long, unless it is a notification. */
  predicate IsSplit(p: Packet)
  {
    |p.payload| > CHUNK_SIZE && p.id != 0
  }

  function Sent(p: Packet): seq<Packet>
  {
    if IsSplit(p) then ChunksFrom(p, 0) else [p]
  }

  /** The packet the other queue offers at a yield, if any. */
  function Offered(waiting: seq<Option<Packet>>): seq<Packet>
  {
    if waiting != [] && waiting[0].Some? then [waiting[0].value] else []
  }

  function Later(waiting: seq<Option<Packet>>): seq<Option<Packet>>
  {
    if waiting == [] then [] else waiting[1..]
  }

  /** After every packet but the last, one packet of the other queue may go out. */
  function Woven(ps: seq<Packet>, waiting: seq<Option<Packet>>): seq<Packet>
    decreases |ps|
  {
    if |ps| <= 1 then ps else [ps[0]] + Offered(waiting) + Woven(ps[1..], Later(waiting))
  }

  lemma ChunksNotEmpty(p: Packet, offset: nat)
    requires offset < |p.payload|
    ensures ChunksFrom(p, offset) != []
  {
  }

  lemma SendOne(sent: seq<Packet>, p: Packet, offset: nat, waiting: seq<Option<Packet>>)
    requires offset < |p.payload|
    ensures var n := Min(CHUNK_SIZE, |p.payload| - offset);
      sent + Woven(ChunksFrom(p, offset), waiting) ==
      if offset + n < |p.payload|
      then sent + [ChunkAt(p, offset)] + Offered(waiting) + Woven(ChunksFrom(p, offset + n), Later(waiting))
      else sent + [ChunkAt(p, offset)]
  {
    var n := Min(CHUNK_SIZE, |p.payload| - offset);
    var c, rest := ChunkAt(p, offset), ChunksFrom(p, offset + n);
    assert ([c] + rest)[1..] == rest;
    if offset + n < |p.payload| {
      ChunksNotEmpty(p, offset + n);
      Associate(sent, [c] + Offered(waiting), Woven(rest, Later(waiting)));
      Associate(sent, [c], Offered(waiting));
    } else {
      assert [c] + rest == [c];
    }
  }

  method NextChunk(p: Packet, offset: nat, isFirst: bool) returns (chunk: Packet, isLast: bool)
    requires offset < |p.payload| && (isFirst <==> offset == 0)
    ensures chunk == ChunkAt(p, offset) && |chunk.payload| == Min(CHUNK_SIZE, |p.payload| - offset)
    ensures isLast <==> offset + |chunk.payload| == |p.payload|
  {
    var remaining := |p.payload| - offset;
    var n := CHUNK_SIZE;
    if remaining < CHUNK_SIZE {
      n := remaining;
    }
    isLast := offset + n >= |p.payload|;
    var flags := p.flags;
    if !isFirst || !isLast {
      if !isLast {
        flags := flags.(hasMore := true);
      } else {
        flags := flags.(endOfMulti := true);
      }
    }
    chunk := Packet(p.opcode, flags, p.id, p.payload[offset..offset + n]);
  }

  /** `waiting` is what the high-priority queue offers at each yield. */
  method SendResponseChunked(p: Packet, waiting: seq<Option<Packet>>) returns (sent: seq<Packet>)
    ensures sent == Woven(Sent(p), waiting)
  {
    if |p.payload| <= CHUNK_SIZE || p.id == 0 {
      return [p];
    }
    sent := [];
    var offset, isFirst, queue := 0, true, waiting;
    assert [] + Woven(ChunksFrom(p, 0), waiting) == Woven(ChunksFrom(p, 0), waiting);
    while offset < |p.payload|
      invariant offset <= |p.payload| && (isFirst <==> offset == 0)
      invariant sent + Woven(ChunksFrom(p, offset), queue) == Woven(ChunksFrom(p, 0), waiting)
    {
      SendOne(sent, p, offset, queue);
      var chunk, isLast := NextChunk(p, offset, isFirst);
      sent := sent + [chunk];
      offset := offset + |chunk.payload|;
      isFirst := false;
      if !isLast {
        sent := sent + Offered(queue);
        queue := Later(queue);
      } else {
        assert sent + [] == sent;
      }
    }
    assert sent + [] == sent;
  }

  // ----- What the chunks look like -------------------------------------------------------------

  function Join(parts: seq<seq<Byte>>): seq<Byte>
  {
    if parts == [] then [] else Join(parts[..|parts| - 1]) + parts[|parts| - 1]
  }

  function Payloads(ps: seq<Packet>): seq<seq<Byte>>
  {
    seq(|ps|, i requires 0 <= i < |ps| => ps[i].payload)
  }

  /** A chunk of `p`, flagged as the last one or as one that more follow. */
  predicate IsChunkOf(c: Packet, p: Packet, isLast: bool)
  {
    && c.opcode == p.opcode && c.id == p.id && 1 <= |c.payload| <= 32768
    && c.flags == if isLast then p.flags.(endOfMulti := true) else p.flags.(hasMore := true)
  }

  lemma {:induction false} ChunksLook(p: Packet, offset: nat)
    requires IsSplit(p) && offset <= |p.payload|
    ensures var cs := ChunksFrom(p, offset);
      && (offset == 0 ==> |cs| >= 2) && (offset < |p.payload| ==> |cs| >= 1)
      && forall i :: 0 <= i < |cs| ==> IsChunkOf(cs[i], p, i == |cs| - 1)
    decreases |p.payload| - offset
  {
    if offset < |p.payload| {
      ChunksLook(p, offset + Min(CHUNK_SIZE, |p.payload| - offset));
    }
  }

  lemma {:induction false} JoinFront(a: seq<Byte>, parts: seq<seq<Byte>>)
    ensures Join([a] + parts) == a + Join(parts)
    decreases |parts|
  {
    if parts == [] {
      assert [a] + parts == [a] && [a][..0] == [];
    } else {
      var n := |parts| - 1;
      assert ([a] + parts)[..|parts|] == [a] + parts[..n];
      JoinFront(a, parts[..n]);
      Associate(a, Join(parts[..n]), parts[n]);
    }
  }

  lemma {:induction false} ChunksCarry(p: Packet, offset: nat)
    requires offset <= |p.payload|
    ensures Join(Payloads(ChunksFrom(p, offset))) == p.payload[offset..]
    decreases |p.payload| - offset
  {
    if offset < |p.payload| {
      var n := Min(CHUNK_SIZE, |p.payload| - offset);
      var c, rest := ChunkAt(p, offset), ChunksFrom(p, offset + n);
      ChunksCarry(p, offset + n);
      assert Payloads([c] + rest) == [c.payload] + Payloads(rest);
      JoinFront(c.payload, Payloads(rest));
      assert p.payload[offset..] == p.payload[offset..offset + n] + p.payload[offset + n..];
    }
  }

  /** A reply of more than 32 KiB that is not a notification makes at least two chunks, none
      empty or too long, all but the last announcing more, which together carry the payload.
      Any other reply is sent as it is. */
  lemma SplitLooks(p: Packet)
    ensures |p.payload| > 32768 && p.id != 0 ==>
      && |Sent(p)| >= 2 && (forall i :: 0 <= i < |Sent(p)| ==> IsChunkOf(Sent(p)[i], p, i == |Sent(p)| - 1))
      && Join(Payloads(Sent(p))) == p.payload
    ensures |p.payload| <= 32768 || p.id == 0 ==> Sent(p) == [p]
  {
    if |p.payload| > 32768 && p.id != 0 {
      ChunksLook(p, 0);
      ChunksCarry(p, 0);
    }
  }

  // ----- Receiving -------------------------------------------------------------------------------

  /** Chunks received so far, by sequence number. */
  type Partial = map<Word, seq<seq<Byte>>>

  function Step(m: Partial, p: Packet): (Partial, Option<Packet>)
  {
    if p.flags.hasMore then
      (m[p.id := (if p.id in m then m[p.id] else []) + [p.payload]], None)
    else if p.flags.endOfMulti && p.id in m then
      (m - {p.id}, Some(p.(payload := Join(m[p.id] + [p.payload]))))
    else (m, Some(p))
  }

  /** The state after a stream of packets, and the messages delivered on the way. */
  function Receive(m: Partial, ps: seq<Packet>): (Partial, seq<Packet>)
    decreases |ps|
  {
    if ps == [] then (m, [])
    else
      var (m1, d) := Step(m, ps[0]);
      var (m2, ds) := Receive(m1, ps[1..]);
      (m2, (if d.Some? then [d.value] else []) + ds)
  }

  class Receiver {
    var partial: Partial

    constructor ()
      ensures partial == map[]
    {
      partial := map[];
    }

    method Handle(p: Packet) returns (d: Option<Packet>)
      modifies this
      ensures (partial, d) == Step(old(partial), p)
    {
      if p.flags.hasMore {
        var chunks := if p.id in partial then partial[p.id] else [];
        partial := partial[p.id := chunks + [p.payload]];
        return None;
      }
      if p.flags.endOfMulti && p.id in partial {
        var chunks := partial[p.id] + [p.payload];
        var assembled: seq<Byte> := [];
        for i := 0 to |chunks|
          invariant assembled == Join(chunks[..i])
        {
          assert chunks[..i + 1][..i] == chunks[..i];
          assembled := assembled + chunks[i];
        }
        assert chunks[..|chunks|] == chunks;
        partial := partial - {p.id};
        return Some(p.(payload := assembled));
      }
      return Some(p);
    }
  }

  // ----- Interleaving does not matter -----------------------------------------------------------

  /** The packets of one sequence number. */
  function Only(ps: seq<Packet>, id: Word): seq<Packet>
  {
    if ps == [] then []
    else (if ps[0].id == id then [ps[0]] else []) + Only(ps[1..], id)
  }

  lemma {:induction false} OnlyAppend(a: seq<Packet>, b: seq<Packet>, id: Word)
    ensures Only(a + b, id) == Only(a, id) + Only(b, id)
    decreases |a|
  {
    if a == [] {
      assert a + b == b;
    } else {
      assert (a + b)[1..] == a[1..] + b;
      OnlyAppend(a[1..], b, id);
      Associate(if a[0].id == id then [a[0]] else [], Only(a[1..], id), Only(b, id));
    }
  }

  lemma {:induction false} OnlyAll(ps: seq<Packet>, id: Word)
    requires forall i :: 0 <= i < |ps| ==> ps[i].id == id
    ensures Only(ps, id) == ps
    decreases |ps|
  {
    if ps != [] {
      OnlyAll(ps[1..], id);
      assert [ps[0]] + ps[1..] == ps;
    }
  }

  lemma StepLocal(m: Partial, m': Partial, p: Packet)
    requires Get(m, p.id) == Get(m', p.id)
    ensures Step(m, p).1 == Step(m', p).1 && Get(Step(m, p).0, p.id) == Get(Step(m', p).0, p.id)
  {
  }

  lemma StepOther(m: Partial, p: Packet, id: Word)
    requires p.id != id
    ensures Get(Step(m, p).0, id) == Get(m, id) && (Step(m, p).1.Some? ==> Step(m, p).1.value.id == p.id)
  {
  }

  /** What is delivered for one sequence number depends only on its own packets. */
  lemma {:induction false} ReceiveLocal(m: Partial, m': Partial, ps: seq<Packet>, id: Word)
    requires Get(m, id) == Get(m', id)
    ensures Only(Receive(m, ps).1, id) == Receive(m', Only(ps, id)).1
    ensures Get(Receive(m, ps).0, id) == Get(Receive(m', Only(ps, id)).0, id)
    decreases |ps|
  {
    if ps != [] {
      var p := ps[0];
      var (m1, d) := Step(m, p);
      var first := if d.Some? then [d.value] else [];
      OnlyAppend(first, Receive(m1, ps[1..]).1, id);
      if p.id == id {
        StepLocal(m, m', p);
        ReceiveLocal(m1, Step(m', p).0, ps[1..], id);
        assert ([p] + Only(ps[1..], id))[1..] == Only(ps[1..], id);
      } else {
        StepOther(m, p, id);
        ReceiveLocal(m1, m', ps[1..], id);
        assert [] + Only(ps[1..], id) == Only(ps[1..], id);
      }
    }
  }

  // ----- Putting messages together ----------------------------------------------------------------

  /** A message as the sender means it: not itself marked as part of another. */
  predicate Whole(p: Packet)
  {
    !p.flags.hasMore && !p.flags.endOfMulti
  }

  /** What arrives: the message, marked if it travelled in chunks. */
  function Arrived(p: Packet): Packet
  {
    if IsSplit(p) then p.(flags := p.flags.(endOfMulti := true)) else p
  }

  lemma ReceiveOne(m: Partial, c: Packet, rest: seq<Packet>)
    ensures var (m1, d) := Step(m, c);
      Receive(m, [c] + rest) == (Receive(m1, rest).0, (if d.Some? then [d.value] else []) + Receive(m1, rest).1)
  {
    assert ([c] + rest)[1..] == rest;
  }

  lemma {:induction false} JoinLast(parts: seq<seq<Byte>>, b: seq<Byte>)
    ensures Join(parts + [b]) == Join(parts) + b
  {
    assert (parts + [b])[..|parts|] == parts;
  }

  /** The chunks received are the payload of `p` up to `offset`. */
  ghost predicate HasUpTo(m: Partial, p: Packet, offset: nat)
    requires offset <= |p.payload|
  {
    if offset == 0 then p.id !in m else p.id in m && Join(m[p.id]) == p.payload[..offset]
  }

  lemma ChunkStep(m: Partial, p: Packet, offset: nat)
    requires IsSplit(p) && Whole(p) && offset < |p.payload| && HasUpTo(m, p, offset)
    ensures var n := Min(CHUNK_SIZE, |p.payload| - offset);
      var (m1, d) := Step(m, ChunkAt(p, offset));
      && m1 - {p.id} == m - {p.id}
      && if offset + n < |p.payload| then d == None && HasUpTo(m1, p, offset + n)
          else d == Some(Arrived(p)) && m1 == m - {p.id}
  {
    var n := Min(CHUNK_SIZE, |p.payload| - offset);
    var had := if p.id in m then m[p.id] else [];
    assert Join([]) == [] == p.payload[..0];
    JoinLast(had, p.payload[offset..offset + n]);
    assert p.payload[..offset] + p.payload[offset..offset + n] == p.payload[..offset + n];
    assert p.payload[..|p.payload|] == p.payload;
  }

  /** The chunks from `offset` on complete what has been received up to there. */
  lemma {:induction false} ChunksComplete(m: Partial, p: Packet, offset: nat)
    requires IsSplit(p) && Whole(p) && offset < |p.payload| && HasUpTo(m, p, offset)
    ensures Receive(m, ChunksFrom(p, offset)) == (m - {p.id}, [Arrived(p)])
    decreases |p.payload| - offset
  {
    var n := Min(CHUNK_SIZE, |p.payload| - offset);
    var c, rest := ChunkAt(p, offset), ChunksFrom(p, offset + n);
    ReceiveOne(m, c, rest);
    ChunkStep(m, p, offset);
    if offset + n < |p.payload| {
      ChunksComplete(Step(m, c).0, p, offset + n);
      assert [] + [Arrived(p)] == [Arrived(p)];
    } else {
      assert rest == [] && [Arrived(p)] + [] == [Arrived(p)];
    }
  }

  lemma MessageArrives(m: Partial, p: Packet)
    requires Whole(p) && p.id !in m
    ensures Receive(m, Sent(p)) == (m, [Arrived(p)])
  {
    if IsSplit(p) {
      ChunksComplete(m, p, 0);
      assert m - {p.id} == m;
    } else {
      ReceiveOne(m, p, []);
      assert [p] + [] == [p];
    }
  }

  lemma {:induction false} ReceiveAppend(m: Partial, a: seq<Packet>, b: seq<Packet>)
    ensures var (m1, ds) := Receive(m, a);
      Receive(m, a + b) == (Receive(m1, b).0, ds + Receive(m1, b).1)
    decreases |a|
  {
    if a == [] {
      assert a + b == b;
      assert [] + Receive(m, b).1 == Receive(m, b).1;
    } else {
      var (m1, d) := Step(m, a[0]);
      var first := if d.Some? then [d.value] else [];
      ReceiveAppend(m1, a[1..], b);
      assert a + b == [a[0]] + (a[1..] + b);
      ReceiveOne(m, a[0], a[1..] + b);
      var (m2, ds) := Receive(m1, a[1..]);
      Associate(first, ds, Receive(m2, b).1);
    }
  }

  function SentAll(ps: seq<Packet>): seq<Packet>
  {
    if ps == [] then [] else Sent(ps[0]) + SentAll(ps[1..])
  }

  function ArrivedAll(ps: seq<Packet>): (r: seq<Packet>)
    ensures |r| == |ps|
  {
    seq(|ps|, i requires 0 <= i < |ps| => Arrived(ps[i]))
  }

  lemma {:induction false} MessagesArrive(m: Partial, ps: seq<Packet>)
    requires forall i :: 0 <= i < |ps| ==> Whole(ps[i]) && ps[i].id !in m
    ensures Receive(m, SentAll(ps)) == (m, ArrivedAll(ps))
    decreases |ps|
  {
    if ps != [] {
      MessageArrives(m, ps[0]);
      MessagesArrive(m, ps[1..]);
      ReceiveAppend(m, Sent(ps[0]), SentAll(ps[1..]));
      assert [Arrived(ps[0])] + ArrivedAll(ps[1..]) == ArrivedAll(ps);
    }
  }

  /** However the packets of other sequence numbers are mixed in, whole or in chunks, the
      messages sent under one sequence number arrive complete and in order. */
  lemma Reassembled(stream: seq<Packet>, id: Word, ps: seq<Packet>)
    requires forall i :: 0 <= i < |ps| ==> Whole(ps[i]) && ps[i].id == id
    requires Only(stream, id) == SentAll(ps)
    ensures Only(Receive(map[], stream).1, id) == ArrivedAll(ps)
  {
    ReceiveLocal(map[], map[], stream, id);
    MessagesArrive(map[], ps);
  }

  /** High-priority packets sent between the chunks do not disturb them. */
  lemma {:induction false} WovenOnly(ps: seq<Packet>, waiting: seq<Option<Packet>>, id: Word)
    requires forall i :: 0 <= i < |ps| ==> ps[i].id == id
    requires forall i :: 0 <= i < |waiting| && waiting[i].Some? ==> waiting[i].value.id != id
    ensures Only(Woven(ps, waiting), id) == ps
    decreases |ps|
  {
    if |ps| <= 1 {
      OnlyAll(ps, id);
    } else {
      WovenOnly(ps[1..], Later(waiting), id);
      OnlyAppend([ps[0]] + Offered(waiting), Woven(ps[1..], Later(waiting)), id);
      OnlyAppend([ps[0]], Offered(waiting), id);
      OnlyAll([ps[0]], id);
      assert [ps[0]] + ps[1..] == ps;
    }
  }

  lemma SentAllOne(p: Packet)
    ensures SentAll([p]) == Sent(p) && ArrivedAll([p]) == [Arrived(p)]
  {
    assert [p][1..] == [] && Sent(p) + [] == Sent(p);
  }

  /** A reply sent in chunks, with whole packets of other sequence numbers in between, is
      delivered once and complete. */
  lemma ChunkedReplyArrives(p: Packet, waiting: seq<Option<Packet>>)
    requires Whole(p) && forall i :: 0 <= i < |waiting| && waiting[i].Some? ==> waiting[i].value.id != p.id
    ensures Only(Receive(map[], Woven(Sent(p), waiting)).1, p.id) == [Arrived(p)]
  {
    SplitLooks(p);
    WovenOnly(Sent(p), waiting, p.id);
    SentAllOne(p);
    Reassembled(Woven(Sent(p), waiting), p.id, [p]);
  }

  /** Flags as the callers set them. */
  predicate Plain(f: Flags)
  {
    !f.compressed && !f.hasMore && !f.endOfMulti
  }

  /** End to end, over the bytes of one connection: a client gets the bodies of all
      replies of a sequence number, whatever else is on the connection. */
  lemma RepliesArrive(c: Codec, rs: seq<Request>, stream: seq<Packet>, id: Word)
    requires Inverse(c)
    requires forall i :: 0 <= i < |rs| ==> rs[i].id == id && Plain(rs[i].flags)
    requires Only(stream, id) == SentAll(PackAll(c, rs))
    requires forall p :: p in stream ==> Framable(p, CLIENT_LIMIT)
    ensures var ds := Only(Receive(map[], CutAll(FrameAll(stream), CLIENT_LIMIT).0).1, id);
      |ds| == |rs| && forall i :: 0 <= i < |rs| ==> Carries(c, ds[i], rs[i])
  {
    FramesRoundTrip(stream, [], CLIENT_LIMIT);
    assert FrameAll(stream) + [] == FrameAll(stream) && stream + [] == stream;
    PackedRepliesArrive(c, rs, stream, id);
  }

  lemma PackedRepliesArrive(c: Codec, rs: seq<Request>, stream: seq<Packet>, id: Word)
    requires Inverse(c)
    requires forall i :: 0 <= i < |rs| ==> rs[i].id == id && Plain(rs[i].flags)
    requires Only(stream, id) == SentAll(PackAll(c, rs))
    ensures var ds := Only(Receive(map[], stream).1, id);
      |ds| == |rs| && forall i :: 0 <= i < |rs| ==> Carries(c, ds[i], rs[i])
  {
    var ps := PackAll(c, rs);
    Reassembled(stream, id, ps);
    forall i | 0 <= i < |rs| ensures Carries(c, Arrived(ps[i]), rs[i]) {
      PackRoundTrip(c, rs[i].opcode, rs[i].id, rs[i].flags, rs[i].body);
    }
  }
}
