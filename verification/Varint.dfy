/** Variable-length and fixed-width integers of the file-server protocol. */
module Varint {
  import opened Basics

  type Byte = b: nat | b < 256

  const MAX_BYTES := 10
  const TWO_64: nat := 0x1_0000_0000_0000_0000

  /** Seven bits per byte, least significant first; the top bit says that more follow. */
  function Encode(v: nat): (r: seq<Byte>)
    ensures |r| >= 1
  {
    if v < 128 then [v] else [v % 128 + 128] + Encode(v / 128)
  }

  /** What a read gives, if it succeeds, and the bytes it leaves. */
  datatype Got<+T> = Got(value: Option<T>, rest: seq<Byte>)

  /** Decodes a number of which `i` bytes have been read. */
  function Decode(s: seq<Byte>, i: nat): Got<nat>
    requires i <= MAX_BYTES
    decreases |s|
  {
    if i == MAX_BYTES || s == [] then Got(None, s)
    else if s[0] < 128 then
      Got(if i == MAX_BYTES - 1 && s[0] > 1 then None else Some(s[0]), s[1..])
    else
      var r := Decode(s[1..], i + 1);
      match r.value
      case None => r
      case Some(v) => Got(Some(s[0] - 128 + 128 * v), r.rest)
  }

  /** The numbers that fit when `i` bytes of a 64-bit number have been read. */
  function Bound(i: nat): (r: nat)
    requires i < MAX_BYTES
    ensures r >= 2 && (i < MAX_BYTES - 1 ==> r >= 128)
    decreases MAX_BYTES - i
  {
    if i == MAX_BYTES - 1 then 2 else 128 * Bound(i + 1)
  }

  lemma BoundIs64Bits()
    ensures Bound(0) == TWO_64
  {
    assert Bound(6) == 0x40_0000;
    assert Bound(3) == 0x800_0000_0000;
  }

  lemma {:induction false} RoundTripFrom(v: nat, i: nat, rest: seq<Byte>)
    requires i < MAX_BYTES && v < Bound(i)
    ensures Decode(Encode(v) + rest, i) == Got(Some(v), rest)
    decreases v
  {
    if v < 128 {
      assert ([v] + rest)[1..] == rest;
    } else {
      RoundTripFrom(v / 128, i + 1, rest);
      var b: Byte := v % 128 + 128;
      assert ([b] + Encode(v / 128) + rest)[1..] == Encode(v / 128) + rest;
    }
  }

  /** Decoding gives back every 64-bit number and leaves what follows untouched. */
  lemma RoundTrip(v: nat, rest: seq<Byte>)
    requires v < TWO_64
    ensures Decode(Encode(v) + rest, 0) == Got(Some(v), rest)
  {
    BoundIs64Bits();
    RoundTripFrom(v, 0, rest);
  }

  /** The number read from the front of `s` is below `bound`, took at most `max` bytes and
      at least as many as the encoder's form, which is the only form of its length. */
  ghost predicate Accepted(s: seq<Byte>, v: nat, rest: seq<Byte>, max: nat, bound: nat)
  {
    && v < bound && |rest| < |s| <= |rest| + max && s[|s| - |rest|..] == rest
    && |Encode(v)| <= |s| - |rest|
    && (|Encode(v)| == |s| - |rest| ==> s == Encode(v) + rest)
  }

  lemma AcceptedBehind(b: Byte, s: seq<Byte>, v: nat, rest: seq<Byte>, max: nat, bound: nat)
    requires b >= 128 && Accepted(s, v, rest, max, bound)
    ensures Accepted([b] + s, b - 128 + 128 * v, rest, max + 1, 128 * bound)
  {
    var x := b - 128 + 128 * v;
    assert ([b] + s)[1 + |s| - |rest|..] == rest;
    if v == 0 {
      assert |Encode(x)| == 1;
    } else {
      assert Encode(x) == [b] + Encode(v);
      assert [b] + (Encode(v) + rest) == ([b] + Encode(v)) + rest;
    }
  }

  lemma AcceptedLast(b: Byte, rest: seq<Byte>, max: nat, bound: nat)
    requires b < 128 && b < bound && max >= 1
    ensures Accepted([b] + rest, b, rest, max, bound)
  {
    assert ([b] + rest)[1..] == rest;
  }

  lemma {:induction false} DecodedFrom(s: seq<Byte>, i: nat)
    requires i < MAX_BYTES && Decode(s, i).value.Some?
    ensures Accepted(s, Decode(s, i).value.value, Decode(s, i).rest, MAX_BYTES - i, Bound(i))
    decreases |s|
  {
    assert s == [s[0]] + s[1..];
    if s[0] >= 128 {
      DecodedFrom(s[1..], i + 1);
      var r := Decode(s[1..], i + 1);
      AcceptedBehind(s[0], s[1..], r.value.value, r.rest, MAX_BYTES - i - 1, Bound(i + 1));
    } else {
      AcceptedLast(s[0], s[1..], MAX_BYTES - i, Bound(i));
    }
  }

  /** Whatever the decoder accepts is a 64-bit number in at most ten bytes. */
  lemma Decoded(s: seq<Byte>)
    requires Decode(s, 0).value.Some?
    ensures Accepted(s, Decode(s, 0).value.value, Decode(s, 0).rest, MAX_BYTES, TWO_64)
  {
    BoundIs64Bits();
    DecodedFrom(s, 0);
  }

  function Pow128(i: nat): (r: nat)
    ensures r >= 1
  {
    if i == 0 then 1 else 128 * Pow128(i - 1)
  }

  /** Byte `i` of an encoded number holds its seven bits from bit 7 * i on, and has the top bit
      set exactly when it is not the last. */
  lemma {:induction false} EncodedAt(v: nat, i: nat)
    requires i < |Encode(v)|
    ensures Encode(v)[i] == v / Pow128(i) % 128 + (if i < |Encode(v)| - 1 then 128 else 0)
    decreases v
  {
    if v >= 128 && i > 0 {
      EncodedAt(v / 128, i - 1);
      DivideTwice(v, 128, Pow128(i - 1));
    }
  }

  // ----- The loops ---------------------------------------------------------------------

  method PutUvarint(v: nat) returns (buf: seq<Byte>)
    ensures buf == Encode(v)
  {
    buf := [];
    var x := v;
    while x >= 0x80
      invariant buf + Encode(x) == Encode(v)
    {
      var low: Byte := x % 0x80 + 0x80;
      assert buf + ([low] + Encode(x / 0x80)) == (buf + [low]) + Encode(x / 0x80);
      buf := buf + [low];
      x := x / 0x80;
    }
    buf := buf + [x];
  }

  /** A number decoded behind `x`, whose next byte counts `scale` times. */
  function Shifted(r: Got<nat>, x: nat, scale: nat): Got<nat>
  {
    match r.value
    case None => r
    case Some(v) => Got(Some(x + scale * v), r.rest)
  }

  lemma ShiftedTwice(r: Got<nat>, x: nat, scale: nat, b: nat)
    ensures Shifted(Shifted(r, b, 128), x, scale) == Shifted(r, x + scale * b, scale * 128)
  {
    match r.value
    case None =>
    case Some(v) =>
      assert scale * (b + 128 * v) == scale * b + (scale * 128) * v;
  }

  method ReadUvarint(s: seq<Byte>) returns (r: Got<nat>)
    ensures r == Decode(s, 0)
  {
    var x: nat := 0;
    var scale: nat := 1;
    var rest := s;
    for i := 0 to MAX_BYTES
      invariant Decode(s, 0) == Shifted(Decode(rest, i), x, scale)
    {
      if rest == [] {
        return Got(None, rest);
      }
      var b := rest[0];
      if b < 0x80 {
        if i == MAX_BYTES - 1 && b > 1 {
          return Got(None, rest[1..]);
        }
        return Got(Some(x + scale * b), rest[1..]);
      }
      ShiftedTwice(Decode(rest[1..], i + 1), x, scale, b - 0x80);
      rest := rest[1..];
      x := x + scale * (b - 0x80);
      scale := scale * 0x80;
    }
    return Got(None, rest);
  }

  // ----- Fixed width -----------------------------------------------------------------------

  function Pow256(w: nat): (r: nat)
    ensures r >= 1
  {
    if w == 0 then 1 else 256 * Pow256(w - 1)
  }

  /** Little-endian, `w` bytes. */
  function Little(n: nat, w: nat): (r: seq<Byte>)
    ensures |r| == w
  {
    if w == 0 then [] else [n % 256] + Little(n / 256, w - 1)
  }

  function FromLittle(s: seq<Byte>): (n: nat)
    ensures n < Pow256(|s|)
  {
    if s == [] then 0 else s[0] + 256 * FromLittle(s[1..])
  }

  /** Byte `i` holds the eight bits from bit 8 * i on. */
  lemma {:induction false} LittleAt(n: nat, w: nat, i: nat)
    requires i < w
    ensures Little(n, w)[i] == n / Pow256(i) % 256
    decreases w
  {
    if i > 0 {
      LittleAt(n / 256, w - 1, i - 1);
      DivideTwice(n, 256, Pow256(i - 1));
    }
  }

  lemma {:induction false} LittleRoundTrip(n: nat, w: nat)
    requires n < Pow256(w)
    ensures FromLittle(Little(n, w)) == n
    decreases w
  {
    if w > 0 {
      LittleRoundTrip(n / 256, w - 1);
      assert Little(n, w)[1..] == Little(n / 256, w - 1);
    }
  }

  lemma FirstByte(b: Byte, n: nat)
    ensures (b + 256 * n) % 256 == b && (b + 256 * n) / 256 == n
  {
  }

  lemma {:induction false} LittleOf(s: seq<Byte>)
    ensures Little(FromLittle(s), |s|) == s
    decreases |s|
  {
    if s != [] {
      LittleOf(s[1..]);
      FirstByte(s[0], FromLittle(s[1..]));
    }
  }

  /** Two's complement on `w` bytes. */
  function Unsign(x: int, w: nat): int
  {
    if x < 0 then x + Pow256(w) else x
  }

  function Sign(n: int, w: nat): int
  {
    if 2 * n < Pow256(w) then n else n - Pow256(w)
  }

  lemma SignRoundTrip(x: int, w: nat)
    requires 0 <= 2 * x + Pow256(w) < 2 * Pow256(w)
    ensures 0 <= Unsign(x, w) < Pow256(w) && Sign(Unsign(x, w), w) == x
  {
  }
}
