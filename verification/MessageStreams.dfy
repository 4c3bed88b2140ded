/** The encoders and decoders as they run: field by field over a stream of bytes, with a
    loop over the items of a list. */
module MessageStreams {
  import opened Basics
  import opened Varint
  import opened Messages

  /** What has gone out when `done` already had. */
  function After(done: seq<Byte>, r: Written): Written
  {
    Append(Written(done, true), r)
  }

  lemma AfterAppend(done: seq<Byte>, a: Written, r: Written)
    ensures After(done, Append(a, r)) == if a.ok then After(done + a.bytes, r) else After(done, a)
  {
    Associate(done, a.bytes, r.bytes);
  }

  class Writer {
    var out: seq<Byte>

    constructor ()
      ensures out == []
    {
      out := [];
    }

    /** `n` in `w` bytes, least significant first. */
    method WriteLittle(n: nat, w: nat)
      modifies this
      ensures out == old(out) + Little(n, w)
    {
      var x, k := n, w;
      while k > 0
        invariant out + Little(x, k) == old(out) + Little(n, w)
      {
        var low: Byte := x % 256;
        Associate(out, [low], Little(x / 256, k - 1));
        out := out + [low];
        x, k := x / 256, k - 1;
      }
    }

    method WriteVarint(v: nat)
      modifies this
      ensures out == old(out) + Encode(v)
    {
      var buf := PutUvarint(v);
      out := out + buf;
    }

    method WriteCounted(b: seq<Byte>)
      modifies this
      ensures out == old(out) + (Encode(|b|) + b)
    {
      WriteVarint(|b|);
      out := out + b;
    }

    method WriteHandle(kind: int, b: seq<Byte>)
      requires IsSigned(kind, 4)
      modifies this
      ensures out == old(out) + HandleBytes(kind, b)
    {
      SignRoundTrip(kind, 4);
      WriteLittle(|b| % Pow256(4), 4);
      WriteLittle(Unsign(kind, 4), 4);
      out := out + b;
    }

    method WriteField(f: Field, v: Value) returns (ok: bool)
      requires Fits(f, v)
      modifies this
      ensures Written(out, ok) == After(old(out), Write(f, v))
      decreases f, 0
    {
      match f {
        case Unsigned(w) => WriteLittle(v.x, w);
        case Signed(w) => SignRoundTrip(v.x, w); WriteLittle(Unsign(v.x, w), w);
        case Raw(_) => out := out + v.b;
        case Text =>
          if |v.b| > MAX_STRING {
            return false;
          }
          WriteCounted(v.b);
        case Data(checked) =>
          if checked && |v.b| > MAX_PACKET {
            return false;
          }
          WriteCounted(v.b);
        case Handle => WriteHandle(v.kind, v.b);
        case List(item) =>
          ok := WriteList(item, v.items);
          return;
      }
      return true;
    }

    method WriteList(item: seq<Field>, items: seq<seq<Value>>) returns (ok: bool)
      requires Fits(List(item), Items(items))
      modifies this
      ensures Written(out, ok) == After(old(out), Write(List(item), Items(items)))
      decreases item, 1
    {
      if |items| > MAX_ARRAY {
        return false;
      }
      ghost var all := Append(Written(Encode(|items|), true), WriteItems(item, items));
      AfterAppend(out, Written(Encode(|items|), true), WriteItems(item, items));
      WriteVarint(|items|);
      assert items[0..] == items;
      for i := 0 to |items|
        invariant After(old(out), all) == After(out, WriteItems(item, items[i..]))
      {
        assert items[i..][1..] == items[i + 1..];
        AfterAppend(out, WriteAll(item, items[i]), WriteItems(item, items[i + 1..]));
        var done := WriteFields(item, items[i]);
        if !done {
          return false;
        }
      }
      assert out + [] == out;
      return true;
    }

    method WriteFields(fs: seq<Field>, vs: seq<Value>) returns (ok: bool)
      requires FitsAll(fs, vs)
      modifies this
      ensures Written(out, ok) == After(old(out), WriteAll(fs, vs))
      decreases fs, 0
    {
      assert fs[0..] == fs && vs[0..] == vs;
      for i := 0 to |fs|
        invariant FitsAll(fs[i..], vs[i..])
        invariant After(old(out), WriteAll(fs, vs)) == After(out, WriteAll(fs[i..], vs[i..]))
      {
        assert fs[i..][1..] == fs[i + 1..] && vs[i..][1..] == vs[i + 1..];
        AfterAppend(out, Write(fs[i], vs[i]), WriteAll(fs[i + 1..], vs[i + 1..]));
        var done := WriteField(fs[i], vs[i]);
        if !done {
          return false;
        }
      }
      assert out + [] == out;
      return true;
    }
  }

  /** What reading gives when `done` has already been read. */
  function Behind<T>(done: seq<T>, r: Got<seq<T>>): Got<seq<T>>
  {
    match r.value
    case None => r
    case Some(more) => Got(Some(done + more), r.rest)
  }

  lemma BehindNothing<T>(r: Got<seq<T>>)
    ensures Behind([], r) == r
  {
    if r.value.Some? {
      assert [] + r.value.value == r.value.value;
    }
  }

  lemma BehindOne<T>(done: seq<T>, v: T, r: Got<seq<T>>)
    ensures Behind(done, Before(v, r)) == Behind(done + [v], r)
  {
    if r.value.Some? {
      Associate(done, [v], r.value.value);
    }
  }

  class Reader {
    var rest: seq<Byte>

    constructor (s: seq<Byte>)
      ensures rest == s
    {
      rest := s;
    }

    /** Uses up what is left if there are not enough bytes. */
    method ReadFull(n: nat) returns (r: Option<seq<Byte>>)
      modifies this
      ensures Got(r, rest) == Take(old(rest), n)
    {
      if |rest| < n {
        rest := [];
        return None;
      }
      r := Some(rest[..n]);
      rest := rest[n..];
    }

    method ReadVarint(max: nat) returns (r: Option<nat>)
      modifies this
      ensures Got(r, rest) == ReadCount(old(rest), max)
    {
      var d := ReadUvarint(rest);
      rest := d.rest;
      if d.value.None? || d.value.value > max {
        return None;
      }
      return d.value;
    }

    method ReadBytes(max: nat) returns (r: Option<Value>)
      modifies this
      ensures Got(r, rest) == ReadCounted(old(rest), max)
    {
      var n := ReadVarint(max);
      if n.None? {
        return None;
      }
      var b := ReadFull(n.value);
      return if b.None? then None else Some(Bytes(b.value));
    }

    method ReadFileHandle() returns (r: Option<Value>)
      modifies this
      ensures Got(r, rest) == ReadHandle(old(rest))
    {
      var n := ReadFull(4);
      if n.None? || FromLittle(n.value) > MAX_HANDLE {
        return None;
      }
      var kind := ReadFull(4);
      if kind.None? {
        return None;
      }
      var b := ReadFull(FromLittle(n.value));
      return if b.None? then None else Some(FileHandle(Sign(FromLittle(kind.value), 4), b.value));
    }

    method ReadField(f: Field) returns (r: Option<Value>)
      modifies this
      ensures Got(r, rest) == Read(f, old(rest))
      decreases f, 0
    {
      match f {
        case Text => r := ReadBytes(MAX_STRING);
        case Data(_) => r := ReadBytes(MAX_PACKET);
        case Handle => r := ReadFileHandle();
        case List(item) =>
          var items := ReadList(item);
          r := if items.None? then None else Some(Items(items.value));
        case _ => r := ReadFixed(f);
      }
    }

    method ReadFixed(f: Field) returns (r: Option<Value>)
      requires f.Unsigned? || f.Signed? || f.Raw?
      modifies this
      ensures Got(r, rest) == Read(f, old(rest))
    {
      var b := ReadFull(if f.Raw? then f.count else f.width);
      if b.None? {
        return None;
      }
      match f
      case Unsigned(_) => r := Some(Number(FromLittle(b.value)));
      case Signed(w) => r := Some(Number(Sign(FromLittle(b.value), w)));
      case Raw(_) => r := Some(Bytes(b.value));
    }

    method ReadList(item: seq<Field>) returns (r: Option<seq<seq<Value>>>)
      modifies this
      ensures var n := ReadCount(old(rest), MAX_ARRAY);
        Got(r, rest) == if n.value.None? then Got(None, n.rest) else ReadItems(item, n.value.value, n.rest)
      decreases item, 1
    {
      var count := ReadVarint(MAX_ARRAY);
      if count.None? {
        return None;
      }
      var items: seq<seq<Value>> := [];
      ghost var spec := ReadItems(item, count.value, rest);
      BehindNothing(spec);
      for i := 0 to count.value
        invariant spec == Behind(items, ReadItems(item, count.value - i, rest))
      {
        var vs := ReadFields(item);
        if vs.None? {
          return None;
        }
        BehindOne(items, vs.value, ReadItems(item, count.value - i - 1, rest));
        items := items + [vs.value];
      }
      assert items + [] == items;
      return Some(items);
    }

    method ReadFields(fs: seq<Field>) returns (r: Option<seq<Value>>)
      modifies this
      ensures Got(r, rest) == ReadAll(fs, old(rest))
      decreases fs, 0
    {
      var vs: seq<Value> := [];
      assert fs[0..] == fs;
      BehindNothing(ReadAll(fs, rest));
      for i := 0 to |fs|
        invariant ReadAll(fs, old(rest)) == Behind(vs, ReadAll(fs[i..], rest))
      {
        assert fs[i..][1..] == fs[i + 1..];
        var v := ReadField(fs[i]);
        if v.None? {
          return None;
        }
        BehindOne(vs, v.value, ReadAll(fs[i + 1..], rest));
        vs := vs + [v.value];
      }
      assert vs + [] == vs;
      return Some(vs);
    }
  }
}
