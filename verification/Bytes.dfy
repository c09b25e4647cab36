/** Bytes, 32-bit words in little-endian order, and reads and writes of a flat byte resource. */
module Bytes {

  const WORD_LIMIT := 0x1_0000_0000

  type Byte = x: int | 0 <= x < 256
  type Word = x: int | 0 <= x < WORD_LIMIT

  function Pow2(k: nat): nat {
    if k == 0 then 1 else 2 * Pow2(k - 1)
  }

  function Pack(w: Word): (b: seq<Byte>)
    ensures |b| == 4
  {
    [w % 256, w / 256 % 256, w / 65536 % 256, w / 16777216]
  }

  function Unpack(b: seq<Byte>): Word
    requires |b| == 4
  {
    var b0: int, b1: int, b2: int, b3: int := b[0], b[1], b[2], b[3];
    b0 + 256 * b1 + 65536 * b2 + 16777216 * b3
  }

  lemma UnpackPack(w: Word)
    ensures Unpack(Pack(w)) == w
  {
    assert w / 65536 == w / 256 / 256 && w / 16777216 == w / 256 / 256 / 256;
  }

  /** The resource holds the bytes bs from offset off on. */
  ghost predicate Has(mem: seq<Byte>, off: nat, bs: seq<Byte>) {
    off + |bs| <= |mem| && mem[off..off + |bs|] == bs
  }

  function Poke(mem: seq<Byte>, off: nat, bs: seq<Byte>): (r: seq<Byte>)
    requires off + |bs| <= |mem|
    ensures |r| == |mem|
  {
    mem[..off] + bs + mem[off + |bs|..]
  }

  lemma PokeHas(mem: seq<Byte>, off: nat, bs: seq<Byte>)
    requires off + |bs| <= |mem|
    ensures Has(Poke(mem, off, bs), off, bs)
  {
  }

  /** The two resources differ at most between offsets a and b. */
  ghost predicate Within(mem: seq<Byte>, mem': seq<Byte>, a: nat, b: nat) {
    a <= b <= |mem| == |mem'| && mem[..a] == mem'[..a] && mem[b..] == mem'[b..]
  }

  lemma PokeWithin(mem: seq<Byte>, off: nat, bs: seq<Byte>, a: nat, b: nat)
    requires a <= off && off + |bs| <= b <= |mem|
    ensures Within(mem, Poke(mem, off, bs), a, b)
  {
  }

  lemma WithinFrame(mem: seq<Byte>, mem': seq<Byte>, a: nat, b: nat, c: nat, d: nat)
    requires Within(mem, mem', a, b)
    requires c <= d <= |mem| && (d <= a || b <= c)
    ensures mem'[c..d] == mem[c..d]
  {
    forall k | c <= k < d ensures mem'[k] == mem[k] {
      if k < a {
        assert mem'[k] == mem'[..a][k];
      } else {
        assert mem'[k] == mem'[b..][k - b];
      }
    }
  }

  lemma SubSlice(mem: seq<Byte>, a: nat, b: nat, i: nat, j: nat)
    requires a <= b <= |mem| && i <= j <= b - a
    ensures mem[a..b][i..j] == mem[a + i..a + j]
  {
    var part := mem[a + i..a + j];
    assert forall k | 0 <= k < j - i :: part[k] == mem[a..b][i + k];
  }

  lemma HasSplit(mem: seq<Byte>, off: nat, x: seq<Byte>, y: seq<Byte>)
    ensures Has(mem, off, x + y) <==> Has(mem, off, x) && Has(mem, off + |x|, y)
  {
    if off + |x| + |y| <= |mem| {
      var s := mem[off..off + |x| + |y|];
      assert s[..|x|] == mem[off..off + |x|];
      assert s[|x|..] == mem[off + |x|..off + |x| + |y|];
      assert s == s[..|x|] + s[|x|..];
      assert (x + y)[..|x|] == x && (x + y)[|x|..] == y;
    }
  }

  lemma HasInside(mem: seq<Byte>, off: nat, bs: seq<Byte>, i: nat, j: nat)
    requires Has(mem, off, bs)
    requires i <= j <= |bs|
    ensures Has(mem, off + i, bs[i..j])
  {
    SubSlice(mem, off, off + |bs|, i, j);
  }
}
