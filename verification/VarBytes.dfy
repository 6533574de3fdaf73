/**
 Variable-length integers and byte strings in the CompactSize format (l2geth/common/varbytes.go).

 A byte stream is read from a `Source` and written to a `Sink`; the codec itself is given by the
 functions Encode and Decode on byte sequences, which the streaming methods are proved to follow.
 */
module VarBytes {
  import opened Transactions

  datatype Error = EndOfStream | UnexpectedEnd | NonCanonical | TooLarge

  /** A parse consumes a prefix of its input, and says what is left of it. */
  datatype Parse<+T> = Read(value: T, rest: seq<Byte>) | Failed(error: Error, rest: seq<Byte>)

  // ---------- little-endian numbers ----------

  function Pow256(k: nat): (p: nat)
    ensures p > 0
  {
    if k == 0 then 1 else 256 * Pow256(k - 1)
  }

  function ToLittleEndian(v: nat, width: nat): (s: seq<Byte>)
    ensures |s| == width
  {
    if width == 0 then [] else [v % 256] + ToLittleEndian(v / 256, width - 1)
  }

  function FromLittleEndian(s: seq<Byte>): (v: nat)
    ensures v < Pow256(|s|)
  {
    if s == [] then 0 else s[0] + 256 * FromLittleEndian(s[1..])
  }

  lemma {:induction false} FromTo(v: nat, width: nat)
    requires v < Pow256(width)
    ensures FromLittleEndian(ToLittleEndian(v, width)) == v
  {
    if width > 0 {
      FromTo(v / 256, width - 1);
      assert ToLittleEndian(v, width)[1..] == ToLittleEndian(v / 256, width - 1);
    }
  }

  lemma {:induction false} ToFrom(s: seq<Byte>)
    ensures ToLittleEndian(FromLittleEndian(s), |s|) == s
  {
    if s != [] {
      ToFrom(s[1..]);
      var v := FromLittleEndian(s[1..]);
      assert (s[0] + 256 * v) / 256 == v && (s[0] + 256 * v) % 256 == s[0];
    }
  }

  lemma OneByte(v: Byte)
    ensures ToLittleEndian(v, 1) == [v]
  {
  }

  // ---------- the codec ----------

  /** The number of bytes after the discriminant; 0 for a value that is its own discriminant. */
  function Width(v: Uint64): nat {
    if v < 0xfd then 0 else if v <= 0xffff then 2 else if v <= 0xffff_ffff then 4 else 8
  }

  function Discriminant(width: nat): Byte {
    if width == 2 then 0xfd else if width == 4 then 0xfe else 0xff
  }

  function Encode(v: Uint64): seq<Byte> {
    if v < 0xfd then [v] else [Discriminant(Width(v))] + ToLittleEndian(v, Width(v))
  }

  /** Takes exactly `n` bytes; a stream that ends early is consumed. */
  function Take(s: seq<Byte>, n: nat): Parse<seq<Byte>> {
    if n <= |s| then Read(s[..n], s[n..]) else Failed(if s == [] then EndOfStream else UnexpectedEnd, [])
  }

  /** A number of `width` bytes, rejected when a shorter form could hold it. */
  function DecodeWide(s: seq<Byte>, width: nat, min: nat): Parse<Uint64>
    requires width <= 8
  {
    match Take(s, width)
    case Failed(e, rest) => Failed(e, rest)
    case Read(bytes, rest) =>
      var v := FromLittleEndian(bytes);
      PowersGrow(width);
      if v < min then Failed(NonCanonical, rest) else Read(v, rest)
  }

  lemma PowersGrow(width: nat)
    requires width <= 8
    ensures Pow256(width) <= 0x1_0000_0000_0000_0000
    ensures width == 2 ==> Pow256(width) == 0x1_0000
    ensures width == 4 ==> Pow256(width) == 0x1_0000_0000
    ensures width == 8 ==> Pow256(width) == 0x1_0000_0000_0000_0000
  {
    assert Pow256(2) == 0x1_0000;
    assert Pow256(4) == 256 * 256 * Pow256(2);
    assert Pow256(6) == 256 * 256 * Pow256(4);
    assert Pow256(8) == 256 * 256 * Pow256(6);
  }

  function Decode(s: seq<Byte>): Parse<Uint64> {
    match Take(s, 1)
    case Failed(e, rest) => Failed(e, rest)
    case Read(d, rest) =>
      if d[0] == 0xff then DecodeWide(rest, 8, 0x1_0000_0000)
      else if d[0] == 0xfe then DecodeWide(rest, 4, 0x1_0000)
      else if d[0] == 0xfd then DecodeWide(rest, 2, 0xfd)
      else Read(d[0], rest)
  }

  function SerializeSize(v: Uint64): (n: nat)
    ensures n == |Encode(v)|
  {
    if v < 0xfd then 1 else if v <= 0xffff then 3 else if v <= 0xffff_ffff then 5 else 9
  }

  lemma DivideTwice(v: nat, k: nat)
    requires k > 0
    ensures v / 256 / k == v / (256 * k)
  {
    var q, r := v / 256, v % 256;
    var a, b := q / k, q % k;
    assert v == 256 * k * a + (256 * b + r);
    assert 0 <= 256 * b + r < 256 * k;
    Divided(256 * k, a, 256 * b + r);
  }

  lemma Divided(d: nat, q: nat, r: nat)
    requires r < d
    ensures (d * q + r) / d == q
  {
    var x := d * q + r;
    var p, m := x / d, x % d;
    assert x == d * p + m && 0 <= m < d;
    assert d * (q - p) == m - r;
    MulGrows(d, q - p);
  }

  lemma MulGrows(d: int, k: int)
    requires d >= 0
    ensures k >= 1 ==> d * k >= d
    ensures k <= -1 ==> d * k <= -d
  {
  }

  /** The lowest byte comes first. */
  lemma {:induction false} ByteAt(v: nat, width: nat, i: nat)
    requires i < width
    ensures ToLittleEndian(v, width)[i] == v / Pow256(i) % 256
  {
    if i > 0 {
      ByteAt(v / 256, width - 1, i - 1);
      DivideTwice(v, Pow256(i - 1));
    }
  }

  /** The format: small values are one byte, others a marker for 2, 4 or 8 bytes and then these, lowest first. */
  lemma Format(v: Uint64)
    ensures v <= 0xfc ==> Encode(v) == [v]
    ensures 0xfd <= v <= 0xffff ==> Encode(v) == [0xfd, v % 256, v / 256]
    ensures 0x1_0000 <= v <= 0xffff_ffff ==> |Encode(v)| == 5 && Encode(v)[0] == 0xfe
    ensures 0x1_0000_0000 <= v ==> |Encode(v)| == 9 && Encode(v)[0] == 0xff
    ensures forall i: nat | i + 1 < |Encode(v)| :: Encode(v)[i + 1] == v / Pow256(i) % 256
  {
    if v >= 0xfd {
      forall i: nat | i < Width(v)
        ensures ToLittleEndian(v, Width(v))[i] == v / Pow256(i) % 256
      {
        ByteAt(v, Width(v), i);
      }
      hide ToLittleEndian;
      assert Pow256(0) == 1 && Pow256(1) == 256;
    }
  }

  /** What was written reads back, with the rest of the stream intact. */
  lemma DecodeEncode(v: Uint64, tail: seq<Byte>)
    ensures Decode(Encode(v) + tail) == Read(v, tail)
  {
    hide ToLittleEndian, FromLittleEndian;
    if v < 0xfd {
      assert (Encode(v) + tail)[1..] == tail;
    } else {
      var w := Width(v);
      PowersGrow(w);
      FromTo(v, w);
      assert (Encode(v) + tail)[1..] == ToLittleEndian(v, w) + tail;
      assert (ToLittleEndian(v, w) + tail)[..w] == ToLittleEndian(v, w);
      assert (ToLittleEndian(v, w) + tail)[w..] == tail;
    }
  }

  /** Whatever is accepted is exactly what would have been written: one encoding per value. */
  lemma DecodeUnique(s: seq<Byte>)
    requires Decode(s).Read?
    ensures s == Encode(Decode(s).value) + Decode(s).rest
  {
    var v, rest := Decode(s).value, Decode(s).rest;
    assert s == s[..1] + s[1..];
    if s[0] >= 0xfd {
      var w := if s[0] == 0xff then 8 else if s[0] == 0xfe then 4 else 2;
      PowersGrow(w);
      ToFrom(s[1..][..w]);
      assert Width(v) == w && Discriminant(w) == s[0];
      assert s[1..] == s[1..][..w] + rest;
    }
  }

  /** No encoding is a prefix of another, so a stream of them splits in one way only. */
  lemma EncodeInjective(u: Uint64, v: Uint64, s: seq<Byte>, t: seq<Byte>)
    requires Encode(u) + s == Encode(v) + t
    ensures u == v && s == t
  {
    DecodeEncode(u, s);
    DecodeEncode(v, t);
  }

  /** A stream that ends within an integer is refused: as ended where one was due to start, else as broken off. */
  lemma BrokenOff(v: Uint64, k: nat)
    requires k < |Encode(v)|
    ensures Decode(Encode(v)[..k]) == Failed(if k <= 1 then EndOfStream else UnexpectedEnd, [])
  {
    hide ToLittleEndian, FromLittleEndian;
    if k > 0 {
      var s := Encode(v)[..k];
      assert s[0] == Discriminant(Width(v)) && |s[1..]| < Width(v);
    }
  }

  // ---------- byte strings ----------

  type Bytes = s: seq<Byte> | |s| < 0x1_0000_0000_0000_0000

  function EncodeBytes(b: Bytes): seq<Byte> {
    Encode(|b|) + b
  }

  function DecodeBytes(s: seq<Byte>, max: nat): Parse<Bytes> {
    match Decode(s)
    case Failed(e, rest) => Failed(e, rest)
    case Read(count, rest) => if count > max then Failed(TooLarge, rest) else Take(rest, count)
  }

  /** A string reads back if and only if it is within the limit. */
  lemma DecodeEncodeBytes(b: Bytes, tail: seq<Byte>, max: nat)
    ensures DecodeBytes(EncodeBytes(b) + tail, max) == if |b| <= max then Read(b, tail) else Failed(TooLarge, b + tail)
  {
    DecodeEncode(|b|, b + tail);
    assert EncodeBytes(b) + tail == Encode(|b|) + (b + tail);
    assert (b + tail)[..|b|] == b && (b + tail)[|b|..] == tail;
  }

  lemma DecodeBytesUnique(s: seq<Byte>, max: nat)
    requires DecodeBytes(s, max).Read?
    ensures s == EncodeBytes(DecodeBytes(s, max).value) + DecodeBytes(s, max).rest && |DecodeBytes(s, max).value| <= max
  {
    hide Decode, Encode;
    DecodeUnique(s);
    var d := Decode(s);
    assert d.rest == d.rest[..d.value] + d.rest[d.value..];
  }

  function EncodeAll(list: seq<Bytes>): seq<Byte> {
    if list == [] then [] else EncodeBytes(list[0]) + EncodeAll(list[1..])
  }

  /** Reads `n` strings one after the other. */
  function DecodeAll(s: seq<Byte>, n: nat, max: nat): Parse<seq<Bytes>> {
    if n == 0 then Read([], s)
    else
      match DecodeBytes(s, max)
      case Failed(e, rest) => Failed(e, rest)
      case Read(b, rest) =>
        match DecodeAll(rest, n - 1, max)
        case Failed(e, rest') => Failed(e, rest')
        case Read(bs, rest') => Read([b] + bs, rest')
  }

  /** Strings written back to back read back unchanged, leaving the tail, exactly when all are within the limit. */
  lemma {:induction false} DecodeEncodeAll(list: seq<Bytes>, tail: seq<Byte>, max: nat)
    ensures var p := DecodeAll(EncodeAll(list) + tail, |list|, max);
            if forall b :: b in list ==> |b| <= max then p == Read(list, tail) else p.Failed? && p.error == TooLarge
  {
    if list == [] {
      assert EncodeAll(list) + tail == tail;
    } else {
      var more := EncodeAll(list[1..]) + tail;
      assert EncodeAll(list) + tail == EncodeBytes(list[0]) + more;
      DecodeEncodeBytes(list[0], more, max);
      DecodeEncodeAll(list[1..], tail, max);
      assert list == [list[0]] + list[1..];
      assert forall b :: b in list <==> b == list[0] || b in list[1..];
    }
  }

  lemma EncodeFirst(b: Bytes, more: seq<Bytes>, rest: seq<Byte>)
    ensures EncodeAll([b] + more) + rest == EncodeBytes(b) + (EncodeAll(more) + rest)
  {
    hide EncodeBytes;
    EncodeAllCons([b] + more);
    assert ([b] + more)[1..] == more;
  }

  lemma EncodeNone()
    ensures EncodeAll([]) == []
  {
  }

  lemma EncodeAllCons(list: seq<Bytes>)
    requires list != []
    ensures EncodeAll(list) == EncodeBytes(list[0]) + EncodeAll(list[1..])
  {
  }

  lemma {:induction false} EncodeAllSnoc(list: seq<Bytes>, b: Bytes)
    ensures EncodeAll(list + [b]) == EncodeAll(list) + EncodeBytes(b)
  {
    hide EncodeBytes;
    if list != [] {
      EncodeAllSnoc(list[1..], b);
      assert (list + [b])[1..] == list[1..] + [b];
    }
  }

  /** And only what EncodeAll writes is read. */
  lemma {:induction false} DecodeAllUnique(s: seq<Byte>, n: nat, max: nat)
    requires DecodeAll(s, n, max).Read?
    ensures var p := DecodeAll(s, n, max);
            && |p.value| == n && s == EncodeAll(p.value) + p.rest
            && forall b :: b in p.value ==> |b| <= max
  {
    if n > 0 {
      hide DecodeBytes, EncodeBytes, EncodeAll;
      var first := DecodeBytes(s, max);
      DecodeBytesUnique(s, max);
      DecodeAllUnique(first.rest, n - 1, max);
      var more := DecodeAll(first.rest, n - 1, max);
      EncodeFirst(first.value, more.value, more.rest);
    } else {
      EncodeNone();
    }
  }

  // ---------- streams ----------

  class Sink {
    var written: seq<Byte>

    constructor ()
      ensures written == []
    {
      written := [];
    }

    method Put(v: nat, width: nat)
      modifies this
      ensures written == old(written) + ToLittleEndian(v, width)
    {
      written := written + ToLittleEndian(v, width);
    }

    method WriteVarInt(v: Uint64)
      modifies this
      ensures written == old(written) + Encode(v)
    {
      hide ToLittleEndian;
      if v < 0xfd {
        OneByte(v);
        Put(v, 1);
        return;
      }
      if v <= 0xffff {
        OneByte(0xfd);
        Put(0xfd, 1);
        Put(v, 2);
        return;
      }
      if v <= 0xffff_ffff {
        OneByte(0xfe);
        Put(0xfe, 1);
        Put(v, 4);
        return;
      }
      OneByte(0xff);
      Put(0xff, 1);
      Put(v, 8);
    }

    method WriteVarBytes(b: Bytes)
      modifies this
      ensures written == old(written) + EncodeBytes(b)
    {
      WriteVarInt(|b|);
      written := written + b;
    }
  }

  class Source {
    var unread: seq<Byte>

    constructor (bytes: seq<Byte>)
      ensures unread == bytes
    {
      unread := bytes;
    }

    method ReadFull(n: nat) returns (p: Parse<seq<Byte>>)
      modifies this
      ensures n <= |old(unread)| ==> p.Read? && |p.value| == n && p.value + unread == old(unread)
      ensures n > |old(unread)| ==> p.Failed? && unread == [] && (p.error == EndOfStream <==> old(unread) == [])
                                    && p.error in {EndOfStream, UnexpectedEnd}
      ensures p.rest == unread
    {
      if n <= |unread| {
        p := Read(unread[..n], unread[n..]);
      } else {
        p := Failed(if unread == [] then EndOfStream else UnexpectedEnd, []);
      }
      unread := p.rest;
    }

    method ReadWide(width: nat, min: nat) returns (p: Parse<Uint64>)
      requires width <= 8
      modifies this
      ensures p == DecodeWide(old(unread), width, min) && unread == p.rest
    {
      var bytes := ReadFull(width);
      if bytes.Failed? {
        return Failed(bytes.error, unread);
      }
      var v := FromLittleEndian(bytes.value);
      PowersGrow(width);
      if v < min {
        return Failed(NonCanonical, unread);
      }
      return Read(v, unread);
    }

    method ReadVarInt() returns (p: Parse<Uint64>)
      modifies this
      ensures p == Decode(old(unread)) && unread == p.rest
    {
      var d := ReadFull(1);
      if d.Failed? {
        return Failed(d.error, unread);
      }
      if d.value[0] == 0xff {
        p := ReadWide(8, 0x1_0000_0000);
      } else if d.value[0] == 0xfe {
        p := ReadWide(4, 0x1_0000);
      } else if d.value[0] == 0xfd {
        p := ReadWide(2, 0xfd);
      } else {
        p := Read(d.value[0], unread);
      }
    }

    method ReadVarBytes(max: nat) returns (p: Parse<Bytes>)
      modifies this
      ensures p == DecodeBytes(old(unread), max) && unread == p.rest
    {
      var count := ReadVarInt();
      if count.Failed? {
        return Failed(count.error, unread);
      }
      if count.value > max {
        return Failed(TooLarge, unread);
      }
      var b := ReadFull(count.value);
      if b.Failed? {
        return Failed(b.error, unread);
      }
      return Read(b.value, unread);
    }
  }

  /** What any list of strings looks like after it went through a stream. */
  method Transfer(list: seq<Bytes>, max: nat) returns (result: seq<Bytes>, error: bool)
    ensures error <==> exists b :: b in list && |b| > max
    ensures !error ==> result == list
  {
    hide EncodeBytes, DecodeBytes, EncodeAll;
    EncodeNone();
    var sink := new Sink();
    for i := 0 to |list|
      invariant sink.written == EncodeAll(list[..i])
      invariant fresh(sink)
    {
      sink.WriteVarBytes(list[i]);
      EncodeAllSnoc(list[..i], list[i]);
      assert list[..i + 1] == list[..i] + [list[i]];
    }
    assert list[..|list|] == list;
    var source := new Source(sink.written);
    result := [];
    for i := 0 to |list|
      invariant fresh(source)
      invariant result == list[..i] && source.unread == EncodeAll(list[i..])
      invariant forall b :: b in list[..i] ==> |b| <= max
    {
      EncodeAllCons(list[i..]);
      DecodeEncodeBytes(list[i], EncodeAll(list[i + 1..]), max);
      var p := source.ReadVarBytes(max);
      if p.Failed? {
        assert list[i] in list;
        return [], true;
      }
      result := result + [p.value];
      assert list[..i + 1] == list[..i] + [list[i]] && list[i..][1..] == list[i + 1..];
    }
    return result, false;
  }
}
