/**
 * Facts about the parser alone: how a chunked (streamed) octet or string payload reads back,
 * which tokens the payload tags give, when `inStream` is set, and what the unsigned integer
 * tags of family 1 read.
 */
module SteakParserFacts {
  import opened JavaTypes
  import opened TbonToken
  import opened SteakWire
  import opened SteakEncoding
  import opened SteakDecoding
  import opened SteakRoundTrip

  /** Chunks of a streamed payload as they appear on the wire: each length, then its bytes. */
  function Chunked(cs: seq<seq<byte>>): (s: seq<byte>)
    ensures |s| >= |Concat(cs)|
  {
    if |cs| == 0 then [] else VarUInt(|cs[0]|) + cs[0] + Chunked(cs[1..])
  }

  function Concat(cs: seq<seq<byte>>): seq<byte>
  {
    if |cs| == 0 then [] else cs[0] + Concat(cs[1..])
  }

  /** Every chunk has a positive length that fits the parser's buffer. */
  predicate ChunkSizes(cs: seq<seq<byte>>)
  {
    forall i :: 0 <= i < |cs| ==> 0 < |cs[i]| <= Capacity
  }

  /**
   * The chunk loop of `readOctet()` reads back the concatenation of the chunks, up to and
   * including the zero length that ends them.
   */
  lemma {:induction false} ReadChunksOf(cs: seq<seq<byte>>, rest: seq<byte>)
    requires ChunkSizes(cs)
    ensures ReadChunks(Chunked(cs) + [0] + rest) == Ok((Concat(cs), rest))
    decreases |cs|
  {
    if |cs| == 0 {
      assert Chunked(cs) + [0] + rest == [0] + rest;
      ReadChunksEnd(rest);
    } else {
      ChunkedCons(cs, rest);
      ChunkSizesTail(cs);
      ReadChunksOf(cs[1..], rest);
      ReadChunksStep(cs[0], Chunked(cs[1..]) + [0] + rest);
    }
  }

  /** The zero length that ends the chunks. */
  lemma ReadChunksEnd(rest: seq<byte>)
    ensures ReadChunks([0] + rest) == Ok(([], rest))
  {
    assert ReadVInt([0] + rest) == Ok((0, rest));
  }

  lemma ChunkedCons(cs: seq<seq<byte>>, rest: seq<byte>)
    requires |cs| > 0
    ensures Chunked(cs) + [0] + rest == VarUInt(|cs[0]|) + (cs[0] + (Chunked(cs[1..]) + [0] + rest))
  {
    Regroup(VarUInt(|cs[0]|), cs[0], Chunked(cs[1..]), [0], rest);
  }

  lemma Regroup(v: seq<byte>, c: seq<byte>, m: seq<byte>, z: seq<byte>, rest: seq<byte>)
    ensures v + c + m + z + rest == v + (c + (m + z + rest))
  {
  }

  lemma ChunkSizesTail(cs: seq<seq<byte>>)
    requires |cs| > 0 && ChunkSizes(cs)
    ensures ChunkSizes(cs[1..])
  {
    forall i | 0 <= i < |cs[1..]| ensures 0 < |cs[1..][i]| <= Capacity {
      assert cs[1..][i] == cs[i + 1];
    }
  }

  /** One chunk: its length, its bytes, then whatever the following chunks read. */
  lemma ReadChunksStep(c: seq<byte>, tail: seq<byte>)
    requires 0 < |c| <= Capacity
    ensures ReadChunks(VarUInt(|c|) + (c + tail))
         == match ReadChunks(tail) case Err(e) => Err(e) case Ok(m) => Ok((c + m.0, m.1))
  {
    ReadLengthOf(c, tail);
  }

  /** The tags 0xbf and 0xff with a zero varint length start a streamed octet or string. */
  lemma NextOfStreamStart(f: Fields, b: byte, t: seq<byte>)
    requires b == 0xbf || b == 0xff
    ensures Next(f, [b, 0] + t)
         == Ok((f.(token := if b == 0xff then String else Octet, inStream := true), t))
  {
    assert [b, 0] + t == [b] + ([0] + t);
    NextOfPayloadTag(f, b, [0] + t);
    assert ReadVInt([0] + t) == Ok((0, t));
  }

  /**
   * A string sent in chunks reads back as the same value as the string sent with its
   * length: `next()` then `readString()` give the concatenated bytes and clear `inStream`.
   */
  lemma StreamedStringReadsBack(f: Fields, cs: seq<seq<byte>>, rest: seq<byte>)
    requires ChunkSizes(cs)
    ensures var r := Next(f, [0xff, 0] + Chunked(cs) + [0] + rest);
      && r.Ok? && r.value.0.token == String && r.value.0.inStream
      && ReadString(r.value.0, r.value.1)
         == Ok((Some(Concat(cs)), r.value.0.(inStream := false), rest))
  {
    assert [0xff, 0] + Chunked(cs) + [0] + rest == [0xff, 0] + (Chunked(cs) + [0] + rest);
    NextOfStreamStart(f, 0xff, Chunked(cs) + [0] + rest);
    ReadChunksOf(cs, rest);
  }

  /** The same for an octet payload and `readOctet()`. */
  lemma StreamedOctetReadsBack(f: Fields, cs: seq<seq<byte>>, rest: seq<byte>)
    requires ChunkSizes(cs)
    ensures var r := Next(f, [0xbf, 0] + Chunked(cs) + [0] + rest);
      && r.Ok? && r.value.0.token == Octet && r.value.0.inStream
      && ReadOctet(r.value.0, r.value.1)
         == Ok((Some(Concat(cs)), r.value.0.(inStream := false), rest))
  {
    assert [0xbf, 0] + Chunked(cs) + [0] + rest == [0xbf, 0] + (Chunked(cs) + [0] + rest);
    NextOfStreamStart(f, 0xbf, Chunked(cs) + [0] + rest);
    ReadChunksOf(cs, rest);
  }

  /** A tag with the top bit set gives `Octet` when bit 6 is clear and `String` when it is set. */
  lemma PayloadTokenOf(f: Fields, s: seq<byte>)
    requires |s| > 0 && s[0] >= 0x80 && Next(f, s).Ok?
    ensures Next(f, s).value.0.token == if s[0] < 0xc0 then Octet else String
  {
  }

  /**
   * `inStream` is set only by the start of a chunked payload: a payload tag with length 63
   * whose varint length reads as zero. Any other token read while it is clear leaves it clear.
   */
  lemma InStreamOnlyAtStreamStart(f: Fields, s: seq<byte>)
    requires !f.inStream && Next(f, s).Ok? && Next(f, s).value.0.inStream
    ensures |s| > 0 && (s[0] == 0xbf || s[0] == 0xff)
    ensures ReadVInt(s[1..]) == Ok((0, Next(f, s).value.1))
  {
    var b, t := s[0], s[1..];
    if b < 0x40 {
      CompactKeepsInStream(b, f, t);
    }
  }

  lemma CompactKeepsInStream(b: byte, f: Fields, t: seq<byte>)
    requires b < 0x40 && CompactFamily(b, f, t).Ok?
    ensures CompactFamily(b, f, t).value.0.inStream == f.inStream
  {
    var family := b / 8;
    if family == 1 {
      var g := f.(token := IntegerToken(b % 4));
      var code := b % 8;
      if code == 5 {
        Unsigned16Keeps(g, t);
      } else if code == 6 {
        Unsigned32Keeps(g, t);
      }
    }
  }

  lemma Unsigned16Keeps(g: Fields, t: seq<byte>)
    requires Unsigned16(g, t).Ok?
    ensures Unsigned16(g, t).value.0.inStream == g.inStream
  {
    var p := Take(t, 2).value;
    var v := GetShort(p.0);
    var h := g.(shortValue := v);
    Unsigned32Keeps(if v < 0 then h.(token := Int32, intValue := v + Two16) else h, p.1);
  }

  lemma Unsigned32Keeps(g: Fields, t: seq<byte>)
    requires Unsigned32(g, t).Ok?
    ensures Unsigned32(g, t).value.0.inStream == g.inStream
  {
  }

  /** Tag 0x0c, `uint8`: the byte is read unsigned, widened to an `Int16` when above 0x7f. */
  lemma NextOfUnsignedByte(f: Fields, x: byte, rest: seq<byte>)
    ensures var r := Next(f, [0x0c, x] + rest);
      && r.Ok? && r.value.1 == rest && r.value.0.byteValue == Signed8(x)
      && (x < 0x80 ==> r.value.0.token == Int8)
      && (x >= 0x80 ==> r.value.0.token == Int16 && r.value.0.shortValue == x)
  {
    assert [0x0c, x] + rest == [0x0c] + ([x] + rest);
    NextOfCompact(f, 0x0c, [x] + rest);
    assert Take([x] + rest, 1) == Ok(([x], rest));
  }

  /**
   * Tag 0x0d, `uint16`, falls through into the `uint32` and `uint64` cases: it reads 14
   * bytes after the tag, not 2, so two bytes followed by the end of the input fail.
   */
  lemma UnsignedShortRunsOn(f: Fields, s: seq<byte>, rest: seq<byte>)
    requires |s| == 14
    ensures var r := Next(f, [0x0d] + s + rest);
      r.Ok? && r.value.1 == rest && r.value.0.shortValue == GetShort(s[..2])
    ensures Next(f, [0x0d] + s[..2]) == Err(EndOfStream)
  {
    var t := s + rest;
    assert [0x0d] + s + rest == [0x0d] + t;
    NextOfCompact(f, 0x0d, t);
    assert t[..2] == s[..2] && t[2..][..4] == s[2..6] && t[2..][4..][..8] == s[6..14];
    assert t[2..][4..][8..] == rest;
    NextOfCompact(f, 0x0d, s[..2]);
  }
}
