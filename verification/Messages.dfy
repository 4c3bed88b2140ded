/** Bodies of the file-server protocol's messages.

    A message is a sequence of fields; the layouts at the end say which fields each
    message has, in the order in which they are written. */
module Messages {
  import opened Basics
  import opened Varint

  const MAX_PACKET := 5 * 1024 * 1024
  const MAX_STRING := MAX_PACKET - 100
  const MAX_ARRAY := 100000
  const MAX_HANDLE := 1024

  datatype Field =
    | Unsigned(width: nat)       // little-endian, `width` bytes
    | Signed(width: nat)
    | Raw(count: nat)            // a fixed number of bytes
    | Text                       // length and bytes
    | Data(checked: bool)        // length and bytes; `checked` if the writer checks the length
    | Handle                     // length, type and bytes of a file handle
    | List(item: seq<Field>)     // count and items

  datatype Value =
    | Number(x: int)
    | Bytes(b: seq<Byte>)
    | FileHandle(kind: int, b: seq<Byte>)
    | Items(items: seq<seq<Value>>)

  predicate IsSigned(x: int, w: nat)
  {
    0 <= 2 * x + Pow256(w) < 2 * Pow256(w)
  }

  /** The Go type of a field allows this value. */
  predicate Fits(f: Field, v: Value)
    decreases f, 0
  {
    match f
    case Unsigned(w) => v.Number? && 0 <= v.x < Pow256(w)
    case Signed(w) => v.Number? && IsSigned(v.x, w)
    case Raw(n) => v.Bytes? && |v.b| == n
    case Text => v.Bytes? && |v.b| < TWO_64
    case Data(_) => v.Bytes? && |v.b| < TWO_64
    case Handle => v.FileHandle? && IsSigned(v.kind, 4)
    case List(item) => v.Items? && |v.items| < TWO_64 && forall i :: 0 <= i < |v.items| ==> FitsAll(item, v.items[i])
  }

  predicate FitsAll(fs: seq<Field>, vs: seq<Value>)
    decreases fs, 0
  {
    |fs| == |vs| && (fs == [] || (Fits(fs[0], vs[0]) && FitsAll(fs[1..], vs[1..])))
  }

  /** What the reader is ready to accept. */
  predicate Within(f: Field, v: Value)
    decreases f, 0
  {
    match f
    case Text => v.Bytes? ==> |v.b| <= MAX_STRING
    case Data(_) => v.Bytes? ==> |v.b| <= MAX_PACKET
    case Handle => v.FileHandle? ==> |v.b| <= MAX_HANDLE
    case List(item) =>
      v.Items? ==> |v.items| <= MAX_ARRAY && forall i :: 0 <= i < |v.items| ==> WithinAll(item, v.items[i])
    case _ => true
  }

  predicate WithinAll(fs: seq<Field>, vs: seq<Value>)
    decreases fs, 0
  {
    fs == [] || vs == [] || (Within(fs[0], vs[0]) && WithinAll(fs[1..], vs[1..]))
  }

  // ----- Writing -------------------------------------------------------------------------

  /** The bytes that go out, and whether all of the value was written. */
  datatype Written = Written(bytes: seq<Byte>, ok: bool)

  /** `b` is only written if `a` was. */
  function Append(a: Written, b: Written): Written
  {
    if a.ok then Written(a.bytes + b.bytes, b.ok) else a
  }

  /** The length is written as a 32-bit number. */
  function HandleBytes(kind: int, b: seq<Byte>): seq<Byte>
    requires IsSigned(kind, 4)
  {
    SignRoundTrip(kind, 4);
    Little(|b| % Pow256(4), 4) + Little(Unsign(kind, 4), 4) + b
  }

  function Write(f: Field, v: Value): Written
    requires Fits(f, v)
    decreases f, 0
  {
    match f
    case Unsigned(w) => Written(Little(v.x, w), true)
    case Signed(w) => SignRoundTrip(v.x, w); Written(Little(Unsign(v.x, w), w), true)
    case Raw(_) => Written(v.b, true)
    case Text => if |v.b| > MAX_STRING then Written([], false) else Written(Encode(|v.b|) + v.b, true)
    case Data(checked) =>
      if checked && |v.b| > MAX_PACKET then Written([], false) else Written(Encode(|v.b|) + v.b, true)
    case Handle => Written(HandleBytes(v.kind, v.b), true)
    case List(item) =>
      if |v.items| > MAX_ARRAY then Written([], false)
      else Append(Written(Encode(|v.items|), true), WriteItems(item, v.items))
  }

  function WriteAll(fs: seq<Field>, vs: seq<Value>): Written
    requires FitsAll(fs, vs)
    decreases fs, 0
  {
    if fs == [] then Written([], true) else Append(Write(fs[0], vs[0]), WriteAll(fs[1..], vs[1..]))
  }

  function WriteItems(item: seq<Field>, items: seq<seq<Value>>): Written
    requires forall i :: 0 <= i < |items| ==> FitsAll(item, items[i])
    decreases item, |items| + 1
  {
    if items == [] then Written([], true) else Append(WriteAll(item, items[0]), WriteItems(item, items[1..]))
  }

  // ----- Reading -------------------------------------------------------------------------

  /** The next `n` bytes; if there are fewer, those are used up. */
  function Take(s: seq<Byte>, n: nat): Got<seq<Byte>>
  {
    if n <= |s| then Got(Some(s[..n]), s[n..]) else Got(None, [])
  }

  /** A length of at most `max`. */
  function ReadCount(s: seq<Byte>, max: nat): Got<nat>
  {
    var n := Decode(s, 0);
    if n.value.Some? && n.value.value > max then Got(None, n.rest) else n
  }

  /** A length of at most `max`, and that many bytes. */
  function ReadCounted(s: seq<Byte>, max: nat): Got<Value>
  {
    var n := ReadCount(s, max);
    if n.value.None? then Got(None, n.rest) else AsBytes(Take(n.rest, n.value.value))
  }

  function AsBytes(b: Got<seq<Byte>>): Got<Value>
  {
    if b.value.None? then Got(None, b.rest) else Got(Some(Bytes(b.value.value)), b.rest)
  }

  function ReadHandle(s: seq<Byte>): Got<Value>
  {
    var n := Take(s, 4);
    if n.value.None? || FromLittle(n.value.value) > MAX_HANDLE then Got(None, n.rest)
    else
      var kind := Take(n.rest, 4);
      if kind.value.None? then Got(None, kind.rest)
      else
        var b := Take(kind.rest, FromLittle(n.value.value));
        if b.value.None? then Got(None, b.rest)
        else Got(Some(FileHandle(Sign(FromLittle(kind.value.value), 4), b.value.value)), b.rest)
  }

  function Read(f: Field, s: seq<Byte>): Got<Value>
    decreases f, 0
  {
    match f
    case Unsigned(w) =>
      var b := Take(s, w);
      if b.value.None? then Got(None, b.rest) else Got(Some(Number(FromLittle(b.value.value))), b.rest)
    case Signed(w) =>
      var b := Take(s, w);
      if b.value.None? then Got(None, b.rest) else Got(Some(Number(Sign(FromLittle(b.value.value), w))), b.rest)
    case Raw(n) => AsBytes(Take(s, n))
    case Text => ReadCounted(s, MAX_STRING)
    case Data(_) => ReadCounted(s, MAX_PACKET)
    case Handle => ReadHandle(s)
    case List(item) =>
      var n := ReadCount(s, MAX_ARRAY);
      if n.value.None? then Got(None, n.rest)
      else
        var r := ReadItems(item, n.value.value, n.rest);
        if r.value.None? then Got(None, r.rest) else Got(Some(Items(r.value.value)), r.rest)
  }

  function ReadAll(fs: seq<Field>, s: seq<Byte>): Got<seq<Value>>
    decreases fs, 0
  {
    if fs == [] then Got(Some([]), s)
    else
      var v := Read(fs[0], s);
      if v.value.None? then Got(None, v.rest) else Before(v.value.value, ReadAll(fs[1..], v.rest))
  }

  function ReadItems(item: seq<Field>, n: nat, s: seq<Byte>): Got<seq<seq<Value>>>
    decreases item, n + 1
  {
    if n == 0 then Got(Some([]), s)
    else
      var vs := ReadAll(item, s);
      if vs.value.None? then Got(None, vs.rest) else Before(vs.value.value, ReadItems(item, n - 1, vs.rest))
  }

  /** `v` was read before what `r` gives. */
  function Before<T>(v: T, r: Got<seq<T>>): Got<seq<T>>
  {
    if r.value.None? then r else Got(Some([v] + r.value.value), r.rest)
  }

  // ----- Reading inverts writing --------------------------------------------------------------

  lemma CountedRoundTrip(b: seq<Byte>, max: nat, rest: seq<Byte>)
    requires |b| <= max < TWO_64
    ensures ReadCounted(Encode(|b|) + b + rest, max) == Got(Some(Bytes(b)), rest)
  {
    Associate(Encode(|b|), b, rest);
    RoundTrip(|b|, b + rest);
    TakeFront(b, rest);
  }

  lemma TakeFront(b: seq<Byte>, rest: seq<Byte>)
    ensures Take(b + rest, |b|) == Got(Some(b), rest)
  {
    assert (b + rest)[..|b|] == b && (b + rest)[|b|..] == rest;
  }

  lemma ShortLength(n: nat)
    requires n < 0x1_0000_0000
    ensures Pow256(4) == 0x1_0000_0000 && n % Pow256(4) == n
  {
    assert Pow256(2) == 0x1_0000;
  }

  lemma HandleRoundTrip(kind: int, b: seq<Byte>, rest: seq<Byte>)
    requires IsSigned(kind, 4) && |b| <= 1024
    ensures ReadHandle(HandleBytes(kind, b) + rest) == Got(Some(FileHandle(kind, b)), rest)
  {
    SignRoundTrip(kind, 4);
    var n, k := Little(|b| % Pow256(4), 4), Little(Unsign(kind, 4), 4);
    var s := n + k + b + rest;
    ShortLength(|b|);
    LittleRoundTrip(|b|, 4);
    LittleRoundTrip(Unsign(kind, 4), 4);
    HandleParts(n, k, b, rest);
    TakeFront(b, rest);
  }

  lemma HandleParts(n: seq<Byte>, k: seq<Byte>, b: seq<Byte>, rest: seq<Byte>)
    requires |n| == 4 && |k| == 4
    ensures var s := n + k + b + rest; s[..4] == n && s[4..][..4] == k && s[4..][4..] == b + rest
  {
  }

  lemma NumberRoundTrip(f: Field, v: Value, rest: seq<Byte>)
    requires Fits(f, v) && (f.Unsigned? || f.Signed? || f.Raw?)
    ensures Read(f, Write(f, v).bytes + rest) == Got(Some(v), rest)
  {
    var s := Write(f, v).bytes + rest;
    match f
    case Unsigned(w) =>
      LittleRoundTrip(v.x, w);
      assert s[..w] == Little(v.x, w) && s[w..] == rest;
    case Signed(w) =>
      SignRoundTrip(v.x, w);
      LittleRoundTrip(Unsign(v.x, w), w);
      assert s[..w] == Little(Unsign(v.x, w), w) && s[w..] == rest;
    case Raw(n) =>
      assert s[..n] == v.b && s[n..] == rest;
  }

  lemma {:induction false} FieldRoundTrip(f: Field, v: Value, rest: seq<Byte>)
    requires Fits(f, v) && Within(f, v) && Write(f, v).ok
    ensures Read(f, Write(f, v).bytes + rest) == Got(Some(v), rest)
    decreases f, 0
  {
    match f
    case Text => CountedRoundTrip(v.b, MAX_STRING, rest);
    case Data(_) => CountedRoundTrip(v.b, MAX_PACKET, rest);
    case Handle => HandleRoundTrip(v.kind, v.b, rest);
    case List(item) =>
      var items := WriteItems(item, v.items).bytes;
      assert Write(f, v).bytes + rest == Encode(|v.items|) + (items + rest);
      RoundTrip(|v.items|, items + rest);
      ItemsRoundTrip(item, v.items, rest);
    case _ => NumberRoundTrip(f, v, rest);
  }

  lemma {:induction false} AllRoundTrip(fs: seq<Field>, vs: seq<Value>, rest: seq<Byte>)
    requires FitsAll(fs, vs) && WithinAll(fs, vs) && WriteAll(fs, vs).ok
    ensures ReadAll(fs, WriteAll(fs, vs).bytes + rest) == Got(Some(vs), rest)
    decreases fs, 0
  {
    if fs == [] {
      assert WriteAll(fs, vs).bytes + rest == rest;
    } else {
      var a, b := Write(fs[0], vs[0]).bytes, WriteAll(fs[1..], vs[1..]).bytes;
      assert a + b + rest == a + (b + rest);
      FieldRoundTrip(fs[0], vs[0], b + rest);
      AllRoundTrip(fs[1..], vs[1..], rest);
      assert [vs[0]] + vs[1..] == vs;
    }
  }

  lemma {:induction false} ItemsRoundTrip(item: seq<Field>, items: seq<seq<Value>>, rest: seq<Byte>)
    requires forall i :: 0 <= i < |items| ==> FitsAll(item, items[i]) && WithinAll(item, items[i])
    requires WriteItems(item, items).ok
    ensures ReadItems(item, |items|, WriteItems(item, items).bytes + rest) == Got(Some(items), rest)
    decreases item, |items| + 1
  {
    if items == [] {
      assert WriteItems(item, items).bytes + rest == rest;
    } else {
      var a, b := WriteAll(item, items[0]).bytes, WriteItems(item, items[1..]).bytes;
      assert a + b + rest == a + (b + rest);
      AllRoundTrip(item, items[0], b + rest);
      ItemsRoundTrip(item, items[1..], rest);
      assert [items[0]] + items[1..] == items;
    }
  }

  // ----- The reader never gives back more than it accepts ---------------------------------------

  lemma {:induction false} ReadWithin(f: Field, s: seq<Byte>)
    requires Read(f, s).value.Some?
    ensures Within(f, Read(f, s).value.value)
    decreases f, 0
  {
    match f
    case List(item) =>
      var n := ReadCount(s, MAX_ARRAY);
      ReadItemsWithin(item, n.value.value, n.rest);
    case _ =>
  }

  lemma {:induction false} ReadAllWithin(fs: seq<Field>, s: seq<Byte>)
    requires ReadAll(fs, s).value.Some?
    ensures WithinAll(fs, ReadAll(fs, s).value.value)
    decreases fs, 0
  {
    if fs != [] {
      ReadWithin(fs[0], s);
      ReadAllWithin(fs[1..], Read(fs[0], s).rest);
    }
  }

  lemma {:induction false} ReadItemsWithin(item: seq<Field>, n: nat, s: seq<Byte>)
    requires ReadItems(item, n, s).value.Some?
    ensures var items := ReadItems(item, n, s).value.value;
      |items| == n && forall i :: 0 <= i < |items| ==> WithinAll(item, items[i])
    decreases item, n + 1
  {
    if n > 0 {
      ReadAllWithin(item, s);
      ReadItemsWithin(item, n - 1, ReadAll(item, s).rest);
    }
  }

  // ----- What the writer refuses ------------------------------------------------------------------

  /** The writer checks the length of texts, of data it is told to check, and of lists. */
  predicate Writable(f: Field, v: Value)
    requires Fits(f, v)
    decreases f, 0
  {
    match f
    case Text => |v.b| <= MAX_STRING
    case Data(checked) => checked ==> |v.b| <= MAX_PACKET
    case List(item) => |v.items| <= MAX_ARRAY && forall i :: 0 <= i < |v.items| ==> WritableAll(item, v.items[i])
    case _ => true
  }

  predicate WritableAll(fs: seq<Field>, vs: seq<Value>)
    requires FitsAll(fs, vs)
    decreases fs, 0
  {
    fs == [] || (Writable(fs[0], vs[0]) && WritableAll(fs[1..], vs[1..]))
  }

  lemma {:induction false} WritesIff(f: Field, v: Value)
    requires Fits(f, v)
    ensures Write(f, v).ok <==> Writable(f, v)
    decreases f, 0
  {
    match f
    case List(item) => WritesItemsIff(item, v.items);
    case _ =>
  }

  /** A message can be written exactly when everything the writer checks is within its limits. */
  lemma {:induction false} WritesAllIff(fs: seq<Field>, vs: seq<Value>)
    requires FitsAll(fs, vs)
    ensures WriteAll(fs, vs).ok <==> WritableAll(fs, vs)
    decreases fs, 0
  {
    if fs != [] {
      WritesIff(fs[0], vs[0]);
      WritesAllIff(fs[1..], vs[1..]);
    }
  }

  lemma {:induction false} WritesItemsIff(item: seq<Field>, items: seq<seq<Value>>)
    requires forall i :: 0 <= i < |items| ==> FitsAll(item, items[i])
    ensures WriteItems(item, items).ok <==> forall i :: 0 <= i < |items| ==> WritableAll(item, items[i])
    decreases item, |items| + 1
  {
    if items != [] {
      WritesAllIff(item, items[0]);
      WritesItemsIff(item, items[1..]);
      assert items == [items[0]] + items[1..];
    }
  }

  lemma {:induction false} WithinIsWritable(f: Field, v: Value)
    requires Fits(f, v) && Within(f, v)
    ensures Writable(f, v)
    decreases f, 0
  {
    match f
    case List(item) =>
      forall i | 0 <= i < |v.items| ensures WritableAll(item, v.items[i]) {
        WithinAllIsWritable(item, v.items[i]);
      }
    case _ =>
  }

  lemma {:induction false} WithinAllIsWritable(fs: seq<Field>, vs: seq<Value>)
    requires FitsAll(fs, vs) && WithinAll(fs, vs)
    ensures WritableAll(fs, vs)
    decreases fs, 0
  {
    if fs != [] {
      WithinIsWritable(fs[0], vs[0]);
      WithinAllIsWritable(fs[1..], vs[1..]);
    }
  }

  /** Whatever the reader accepts the writer can write, and it is read back. */
  lemma WithinRoundTrips(fs: seq<Field>, vs: seq<Value>, rest: seq<Byte>)
    requires FitsAll(fs, vs) && WithinAll(fs, vs)
    ensures WriteAll(fs, vs).ok && ReadAll(fs, WriteAll(fs, vs).bytes + rest) == Got(Some(vs), rest)
  {
    WithinAllIsWritable(fs, vs);
    WritesAllIff(fs, vs);
    AllRoundTrip(fs, vs, rest);
  }

  // ----- The bytes on the wire ---------------------------------------------------------------------

  /** A file handle is its length, its type and its bytes, in that order; the two numbers are
      32-bit words with the least significant byte first. */
  lemma HandleOnWire(kind: int, b: seq<Byte>, i: nat)
    requires IsSigned(kind, 4) && |b| < 0x1_0000_0000 && i < 4
    ensures var s, word := HandleBytes(kind, b), if kind < 0 then kind + 0x1_0000_0000 else kind;
      && |s| == 8 + |b| && s[8..] == b
      && s[i] == |b| / Pow256(i) % 256 && word >= 0 && s[4 + i] == word / Pow256(i) % 256
  {
    SignRoundTrip(kind, 4);
    ShortLength(|b|);
    LittleAt(|b|, 4, i);
    LittleAt(Unsign(kind, 4), 4, i);
  }

  /** A message that can be written is read back unchanged, with what follows it left
      over, exactly when its fields are within the reader's limits. */
  lemma MessageRoundTripsIff(fs: seq<Field>, vs: seq<Value>, rest: seq<Byte>)
    requires FitsAll(fs, vs) && WriteAll(fs, vs).ok
    ensures ReadAll(fs, WriteAll(fs, vs).bytes + rest) == Got(Some(vs), rest) <==> WithinAll(fs, vs)
  {
    if WithinAll(fs, vs) {
      AllRoundTrip(fs, vs, rest);
    } else if ReadAll(fs, WriteAll(fs, vs).bytes + rest) == Got(Some(vs), rest) {
      ReadAllWithin(fs, WriteAll(fs, vs).bytes + rest);
    }
  }
}
