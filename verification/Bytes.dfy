/** Octets, big-endian integers and the "these bytes stand here" relation that
    every codec proof in this project is phrased with. */
module Bytes {

  type byte = b: int | 0 <= b < 256
  type u16 = n: int | 0 <= n < 0x1_0000
  type u32 = n: int | 0 <= n < 0x1_0000_0000

  datatype Option<+T> = None | Some(value: T)

  lemma Assoc<T>(a: seq<T>, b: seq<T>, c: seq<T>)
    ensures a + (b + c) == (a + b) + c
  {
  }

  lemma SubSlice<T>(s: seq<T>, lo: nat, hi: nat, i: nat, j: nat)
    requires lo <= hi <= |s| && i <= j <= hi - lo
    ensures s[lo..hi][i..j] == s[lo + i..lo + j]
  {
    var a, b := s[lo..hi][i..j], s[lo + i..lo + j];
    forall k | 0 <= k < j - i
      ensures a[k] == b[k]
    {
      assert a[k] == s[lo..hi][i + k];
    }
  }

  function Hi(v: u16): byte { v / 256 }

  function Lo(v: u16): byte { v % 256 }

  function U16(v: u16): (r: seq<byte>)
    ensures |r| == 2
  {
    [Hi(v), Lo(v)]
  }

  function U32(v: u32): (r: seq<byte>)
    ensures |r| == 4
  {
    [v / 0x100_0000, v / 0x1_0000 % 256, v / 256 % 256, v % 256]
  }

  function ReadU16(buf: seq<byte>, off: nat): u16
    requires off + 2 <= |buf|
  {
    (buf[off] as int) * 256 + buf[off + 1] as int
  }

  function ReadU32(buf: seq<byte>, off: nat): u32
    requires off + 4 <= |buf|
  {
    (buf[off] as int) * 0x100_0000 + (buf[off + 1] as int) * 0x1_0000
    + (buf[off + 2] as int) * 256 + buf[off + 3] as int
  }

  /** `part` occupies `buf` from `off` on; what surrounds it is arbitrary. */
  ghost predicate At(buf: seq<byte>, off: nat, part: seq<byte>) {
    off + |part| <= |buf| && buf[off..off + |part|] == part
  }

  lemma AtConcat(buf: seq<byte>, off: nat, a: seq<byte>, b: seq<byte>)
    ensures At(buf, off, a + b) <==> At(buf, off, a) && At(buf, off + |a|, b)
  {
    if off + |a| + |b| <= |buf| {
      var s := buf[off..off + |a| + |b|];
      assert s[..|a|] == buf[off..off + |a|];
      assert s[|a|..] == buf[off + |a|..off + |a| + |b|];
      assert s == s[..|a|] + s[|a|..];
      assert (a + b)[..|a|] == a && (a + b)[|a|..] == b;
    }
  }

  lemma AtCons(buf: seq<byte>, off: nat, x: byte, rest: seq<byte>)
    requires At(buf, off, [x] + rest)
    ensures off < |buf| && buf[off] == x && At(buf, off + 1, rest)
  {
    AtConcat(buf, off, [x], rest);
    assert buf[off..off + 1][0] == buf[off];
  }

  /** Any buffer holds its own middle part, whatever stands before and after. */
  lemma AtMiddle(prefix: seq<byte>, part: seq<byte>, suffix: seq<byte>)
    ensures At(prefix + part + suffix, |prefix|, part)
  {
    var buf := prefix + part + suffix;
    assert buf[|prefix|..|prefix| + |part|] == part;
  }

  lemma AtIndex(buf: seq<byte>, off: nat, part: seq<byte>, i: nat)
    requires At(buf, off, part) && i < |part|
    ensures buf[off + i] == part[i]
  {
    assert buf[off..off + |part|][i] == buf[off + i];
  }

  lemma ReadU16At(buf: seq<byte>, off: nat, v: u16)
    requires At(buf, off, U16(v))
    ensures ReadU16(buf, off) == v
  {
    AtIndex(buf, off, U16(v), 0);
    AtIndex(buf, off, U16(v), 1);
  }

  lemma ReadU32At(buf: seq<byte>, off: nat, v: u32)
    requires At(buf, off, U32(v))
    ensures ReadU32(buf, off) == v
  {
    AtIndex(buf, off, U32(v), 0);
    AtIndex(buf, off, U32(v), 1);
    AtIndex(buf, off, U32(v), 2);
    AtIndex(buf, off, U32(v), 3);
    U32Digits(v);
  }

  lemma U32Digits(v: u32)
    ensures v / 0x100_0000 * 0x100_0000 + v / 0x1_0000 % 256 * 0x1_0000 + v / 256 % 256 * 256 + v % 256 == v
  {
    var a, b := v / 256, v / 0x1_0000;
    assert v == a * 256 + v % 256;
    assert b == a / 256 && a == b * 256 + a % 256;
    assert v / 0x100_0000 == b / 256 && b == b / 256 * 256 + b % 256;
  }
}
