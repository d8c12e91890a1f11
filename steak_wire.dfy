/**
 * The number codecs of the Steak format that both the generator and the parser use:
 * unsigned base-128 varints (unsigned LEB128, section 7.6 of DWARF version 4), the signed
 * varint of the year field, fixed-width big-endian integers and the two's-complement
 * magnitude bytes of BigInteger.
 */
module SteakWire {
  import opened JavaTypes

  /** The five bytes every Steak stream starts with: U+1F969 in UTF-8, then 0x00. */
  const Header: seq<byte> := [0xf0, 0x9f, 0xa5, 0xa9, 0x00]

  /** Size of the generator's and of the parser's byte buffer. */
  const Capacity: nat := 8192

  function Pow128(k: nat): (r: nat)
    ensures r >= 1
  {
    if k == 0 then 1 else 0x80 * Pow128(k - 1)
  }

  function Pow256(k: nat): (r: nat)
    ensures r >= 1
  {
    if k == 0 then 1 else 0x100 * Pow256(k - 1)
  }

  // ---------------------------------------------------------------- unsigned varints

  /**
   * The bytes `writeVPInt`/`writeVPLong` emit for a non-negative value: 7-bit groups, least
   * significant first, with 0x80 set on every byte but the last.
   */
  function VarUInt(n: nat): (r: seq<byte>)
    ensures 1 <= |r|
    ensures r[|r| - 1] < 0x80
    ensures forall i :: 0 <= i < |r| - 1 ==> r[i] >= 0x80
    decreases n
  {
    if n < 0x80 then [n] else [n % 0x80 + 0x80] + VarUInt(n / 0x80)
  }

  /**
   * The loop of `writeVPInt`/`writeVPLong` only runs while the value exceeds 0x7f, so a
   * negative argument is written as its single low byte.
   */
  function Varint(x: int): (r: seq<byte>)
    ensures x >= 0 ==> r == VarUInt(x)
    ensures x < 0 ==> r == [x % 0x100]
  {
    if x < 0 then [x % 0x100] else VarUInt(x)
  }

  /** `writeVPInt(int)`. */
  function VPInt(i: int32): seq<byte>
  {
    Varint(i)
  }

  /** `writeVPLong(long)`. */
  function VPLong(i: int64): seq<byte>
  {
    Varint(i)
  }

  /** One turn of the varint loop: the low seven bits with 0x80, then the rest. */
  lemma VarUIntStep(x: nat)
    requires x > 0x7f
    ensures VarUInt(x) == [x % 0x80 + 0x80] + VarUInt(x / 0x80)
  {
  }

  /** The byte cast of a value that already is a byte. */
  lemma LowByteOfSmall(x: int)
    requires 0 <= x < 0x100
    ensures x % 0x100 == x
  {
  }

  lemma Assoc(a: seq<byte>, b: seq<byte>, c: seq<byte>)
    ensures (a + b) + c == a + (b + c)
  {
  }

  /** A value below 128^k takes at most k varint bytes. */
  lemma {:induction false} VarUIntLength(n: nat, k: nat)
    requires 1 <= k && n < Pow128(k)
    ensures |VarUInt(n)| <= k
    decreases k
  {
    if n >= 0x80 {
      assert n / 0x80 < Pow128(k - 1);
      VarUIntLength(n / 0x80, k - 1);
    }
  }

  /** Every non-negative `int` takes at most five varint bytes, every `long` at most nine. */
  lemma VPIntLength(i: int32)
    ensures |VPInt(i)| <= 5
  {
    if i >= 0 {
      VarUIntLength(i, 5);
    }
  }

  lemma VPLongLength(i: int64)
    ensures |VPLong(i)| <= 9
  {
    if i >= 0 {
      VarUIntLength(i, 9);
    }
  }

  /**
   * What the loop of `readVInt`/`readVLong` reads: bytes up to and including the first one
   * without 0x80, each contributing its low seven bits one group above the previous one.
   * The value is unbounded here; `ReadVInt`/`ReadVLong` narrow it. Java ORs each group in
   * at `shift` masked to five (`int`) or six (`long`) bits, which gives the same result
   * for every varint of at most five (ten) bytes.
   */
  function VarNat(s: seq<byte>): (r: Result<(nat, seq<byte>)>)
    ensures r.Ok? ==> |r.value.1| < |s|
    ensures r.Err? ==> r.error == EndOfStream
    decreases |s|
  {
    if |s| == 0 then Err(EndOfStream)
    else if s[0] < 0x80 then Ok((s[0], s[1..]))
    else
      var p :- VarNat(s[1..]);
      Ok((s[0] % 0x80 + 0x80 * p.0, p.1))
  }

  /** `readVInt`: the varint at the front of `s`, narrowed to an `int`, and what follows it. */
  function ReadVInt(s: seq<byte>): (r: Result<(int32, seq<byte>)>)
    ensures r.Ok? ==> |r.value.1| < |s|
    ensures r.Err? ==> r.error == EndOfStream
  {
    var p :- VarNat(s);
    Ok((Wrap32(p.0), p.1))
  }

  /** `readVLong`: the same, narrowed to a `long`. */
  function ReadVLong(s: seq<byte>): (r: Result<(int64, seq<byte>)>)
    ensures r.Ok? ==> |r.value.1| < |s|
    ensures r.Err? ==> r.error == EndOfStream
  {
    var p :- VarNat(s);
    Ok((Wrap64(p.0), p.1))
  }

  lemma {:induction false} VarNatOfVarUInt(n: nat, rest: seq<byte>)
    ensures VarNat(VarUInt(n) + rest) == Ok((n, rest))
    decreases n
  {
    var s := VarUInt(n) + rest;
    if n < 0x80 {
      assert s[0] == n && s[1..] == rest;
    } else {
      assert s[0] == n % 0x80 + 0x80 && s[1..] == VarUInt(n / 0x80) + rest;
      VarNatOfVarUInt(n / 0x80, rest);
    }
  }

  /** `readVInt` inverts `writeVPInt` for every non-negative `int`. */
  lemma ReadVIntOfVPInt(i: int32, rest: seq<byte>)
    requires i >= 0
    ensures ReadVInt(VPInt(i) + rest) == Ok((i, rest))
  {
    VarNatOfVarUInt(i, rest);
  }

  /** `readVLong` inverts `writeVPLong` for every non-negative `long`. */
  lemma ReadVLongOfVPLong(i: int64, rest: seq<byte>)
    requires i >= 0
    ensures ReadVLong(VPLong(i) + rest) == Ok((i, rest))
  {
    VarNatOfVarUInt(i, rest);
  }

  // ---------------------------------------------------------------- signed varint

  /**
   * `writeVSInt`: the first byte carries the sign in 0x40 and the low six bits of the
   * magnitude; when the magnitude exceeds 0x3f it also carries 0x80 and the rest of the
   * magnitude follows as `writeVPInt(magnitude >> 6)`. Java's `-i` wraps, so
   * `Integer.MIN_VALUE` keeps a negative "magnitude" and is written as the lone byte 0x40.
   */
  function VSInt(i: int32): seq<byte>
  {
    var m := if i < 0 then Wrap32(-(i as int)) else i;
    SignMagnitude(i < 0, m)
  }

  /** The bytes `writeVSInt` emits for a sign and a magnitude. */
  function SignMagnitude(neg: bool, m: int): seq<byte>
  {
    var first := (if neg then 0x40 else 0) + m % 0x40;
    if m > 0x3f then [first + 0x80] + VarUInt(m / 0x40) else [first]
  }

  /** `readVSInt`: the inverse reading of the first byte, then the `readVInt` loop. */
  function ReadVSInt(s: seq<byte>): (r: Result<(int32, seq<byte>)>)
    ensures r.Ok? ==> |r.value.1| < |s|
    ensures r.Err? ==> r.error == EndOfStream
  {
    if |s| == 0 then Err(EndOfStream)
    else
      var b := s[0];
      var p :- if b < 0x80 then Ok((0, s[1..])) else VarNat(s[1..]);
      var v := Wrap32(b % 0x40 + 0x40 * p.0);
      Ok((if (b / 0x40) % 2 == 1 then Wrap32(-(v as int)) else v, p.1))
  }

  /** The shape of `writeVSInt`'s first byte. */
  lemma VSIntFirstByte(i: int32)
    requires i != Int32Min
    ensures var b := VSInt(i)[0]; var m := if i < 0 then -i else i;
      && ((b / 0x40) % 2 == 1 <==> i < 0)
      && b % 0x40 == m % 0x40
      && (b >= 0x80 <==> m > 0x3f)
      && (m <= 0x3f <==> |VSInt(i)| == 1)
  {
    var m := if i < 0 then -i else i;
    assert VSInt(i) == SignMagnitude(i < 0, m);
  }

  /** `readVSInt` of a first byte and what follows it, in terms of the magnitude it reads. */
  lemma ReadVSIntOfFirst(b: byte, t: seq<byte>, m: nat, q: nat, rest: seq<byte>)
    requires m < Two31
    requires if b < 0x80 then m == b % 0x40 && rest == t
             else VarNat(t) == Ok((q, rest)) && m == b % 0x40 + 0x40 * q
    ensures ReadVSInt([b] + t) == Ok((if (b / 0x40) % 2 == 1 then -(m as int) else m, rest))
  {
    var s := [b] + t;
    assert s[0] == b && s[1..] == t;
  }

  /** `readVSInt` reads a sign and a magnitude of more than six bits back. */
  lemma ReadVSIntOfLongMagnitude(neg: bool, m: nat, rest: seq<byte>)
    requires 0x3f < m < Two31
    ensures ReadVSInt(SignMagnitude(neg, m) + rest) == Ok((if neg then -(m as int) else m, rest))
  {
    var b: byte := (if neg then 0xc0 else 0x80) + m % 0x40;
    var q := m / 0x40;
    var t := VarUInt(q) + rest;
    assert SignMagnitude(neg, m) + rest == [b] + t;
    VarNatOfVarUInt(q, rest);
    ReadVSIntOfFirst(b, t, m, q, rest);
  }

  /** `readVSInt` reads a sign and a magnitude below 2^31 back. */
  lemma ReadVSIntOfSignMagnitude(neg: bool, m: nat, rest: seq<byte>)
    requires m < Two31
    ensures ReadVSInt(SignMagnitude(neg, m) + rest) == Ok((if neg then -(m as int) else m, rest))
  {
    if m > 0x3f {
      ReadVSIntOfLongMagnitude(neg, m, rest);
    } else {
      var first: byte := (if neg then 0x40 else 0) + m;
      assert SignMagnitude(neg, m) + rest == [first] + rest;
      ReadVSIntOfFirst(first, rest, m, 0, rest);
    }
  }

  /** `readVSInt` inverts `writeVSInt` for every `int` but `Integer.MIN_VALUE`. */
  lemma ReadVSIntOfVSInt(i: int32, rest: seq<byte>)
    requires i != Int32Min
    ensures ReadVSInt(VSInt(i) + rest) == Ok((i, rest))
  {
    var m: nat := if i < 0 then -(i as int) else i;
    assert VSInt(i) == SignMagnitude(i < 0, m);
    ReadVSIntOfSignMagnitude(i < 0, m, rest);
  }

  // ---------------------------------------------------------------- big-endian integers

  /**
   * The n low bytes of x's two's complement, most significant first: `putShort`,
   * `putInt`, `putLong` and `putChar` with n = 2, 4, 8 and 2.
   */
  function BE(x: int, n: nat): (r: seq<byte>)
    ensures |r| == n
    decreases n
  {
    if n == 0 then [] else BE(x / 0x100, n - 1) + [x % 0x100]
  }

  /** The unsigned value of big-endian bytes: `getChar`, and the basis of `GetBE`. */
  function FromBE(s: seq<byte>): (r: nat)
    ensures r < Pow256(|s|)
  {
    if |s| == 0 then 0 else FromBE(s[..|s| - 1]) * 0x100 + s[|s| - 1]
  }

  /** `getShort`/`getInt`/`getLong`: big-endian bytes read as a signed value. */
  function GetBE(s: seq<byte>): int
  {
    var u := FromBE(s);
    if 2 * u >= Pow256(|s|) then u - Pow256(|s|) else u
  }

  /** The part of x above its n low bytes. */
  function High(x: int, n: nat): int
    decreases n
  {
    if n == 0 then x else High(x / 0x100, n - 1)
  }

  /** The bytes `BE` keeps and the part it drops make up x again. */
  lemma {:induction false} FromBEOfBE(x: int, n: nat)
    ensures FromBE(BE(x, n)) + Pow256(n) * High(x, n) == x
    decreases n
  {
    if n > 0 {
      var s := BE(x, n);
      assert s[..n - 1] == BE(x / 0x100, n - 1);
      FromBEOfBE(x / 0x100, n - 1);
      var h := High(x / 0x100, n - 1);
      assert Pow256(n) * h == 0x100 * (Pow256(n - 1) * h);
    }
  }

  /** A value that fits in n bytes is all kept: a zero high part. */
  lemma HighOfSmall(x: int, n: nat)
    requires 0 <= x < Pow256(n)
    ensures FromBE(BE(x, n)) == x
  {
    FromBEOfBE(x, n);
  }

  lemma MulAtLeast(p: nat, h: int, k: int)
    requires h >= k
    ensures p * h >= p * k
  {
    assert p * h - p * k == p * (h - k);
  }

  /** A sum u + p*h with 0 <= u < p that lies in [-p/2, p/2) has h = 0 or h = -1. */
  lemma HighIsSign(v: int, u: int, p: int, h: int)
    requires p >= 1 && 0 <= u < p && v == u + p * h && -p <= 2 * v < p
    ensures h == 0 || h == -1
  {
    if h >= 1 {
      MulAtLeast(p, h, 1);
      assert false;
    } else if h <= -2 {
      MulAtLeast(p, -2, h);
      assert false;
    }
  }

  /** Reading back what `putShort`/`putInt`/`putLong` wrote gives the value again. */
  lemma GetBEOfBE(v: int, n: nat)
    requires -(Pow256(n) as int) <= 2 * v < Pow256(n)
    ensures GetBE(BE(v, n)) == v
  {
    FromBEOfBE(v, n);
    var p, h := Pow256(n), High(v, n);
    var u := FromBE(BE(v, n));
    HighIsSign(v, u, p, h);
    if h == 0 {
      assert p * h == 0;
    } else {
      assert p * h == -(p as int);
    }
  }

  // ---------------------------------------------------------------- two's complement

  /** `BigInteger.toByteArray`: the shortest big-endian two's complement of v with its sign. */
  function ToTwos(v: int): (r: seq<byte>)
    ensures |r| >= 1
    decreases if v >= 0 then v else -v
  {
    if -0x80 <= v < 0x80 then [v % 0x100] else ToTwos(v / 0x100) + [v % 0x100]
  }

  /** `new BigInteger(byte[])`: the value of big-endian two's-complement bytes. */
  function TwosValue(s: seq<byte>): int
    requires |s| >= 1
  {
    if |s| == 1 then Signed8(s[0]) else TwosValue(s[..|s| - 1]) * 0x100 + s[|s| - 1]
  }

  /** `new BigInteger(v.toByteArray())` is v. */
  lemma {:induction false} TwosValueOfToTwos(v: int)
    ensures TwosValue(ToTwos(v)) == v
    decreases if v >= 0 then v else -v
  {
    if !(-0x80 <= v < 0x80) {
      var s := ToTwos(v);
      assert s[..|s| - 1] == ToTwos(v / 0x100);
      TwosValueOfToTwos(v / 0x100);
    }
  }

  /**
   * The bytes are minimal: a leading byte is never a bare sign extension of the next one,
   * so dropping it would change the value.
   */
  lemma {:induction false} ToTwosMinimal(v: int)
    ensures var r := ToTwos(v);
      |r| > 1 ==> !(r[0] == 0 && r[1] < 0x80) && !(r[0] == 0xff && r[1] >= 0x80)
    decreases if v >= 0 then v else -v
  {
    var r := ToTwos(v);
    if |r| > 1 {
      var q := v / 0x100;
      assert r == ToTwos(q) + [v % 0x100];
      if -0x80 <= q < 0x80 {
        assert r[0] == q % 0x100 && r[1] == v % 0x100;
        assert v == q * 0x100 + v % 0x100;
      } else {
        ToTwosMinimal(q);
        assert r[0] == ToTwos(q)[0] && r[1] == ToTwos(q)[1];
      }
    }
  }
}
