/** Octets and big-endian numbers of a fixed width, the layout that `htonl` and
    `htons` give to the length prefixes of every stream in LDplayer. */
module Bytes {

  type byte = x: int | 0 <= x < 256

  function Pow256(h: nat): (p: nat)
    ensures p >= 1
  {
    if h == 0 then 1 else 256 * Pow256(h - 1)
  }

  /** The `h` low-order octets of `n`, most significant first. */
  function ToBE(n: nat, h: nat): (s: seq<byte>)
    ensures |s| == h
  {
    if h == 0 then [] else ToBE(n / 256, h - 1) + [n % 256]
  }

  function FromBE(s: seq<byte>): nat
  {
    if s == [] then 0 else 256 * FromBE(s[..|s| - 1]) + s[|s| - 1]
  }

  lemma {:induction false} FromToBE(n: nat, h: nat)
    requires n < Pow256(h)
    ensures FromBE(ToBE(n, h)) == n
  {
    if h > 0 {
      FromToBE(n / 256, h - 1);
      assert ToBE(n, h)[..h - 1] == ToBE(n / 256, h - 1);
    }
  }

  lemma {:induction false} ToFromBE(s: seq<byte>)
    ensures FromBE(s) < Pow256(|s|)
    ensures ToBE(FromBE(s), |s|) == s
  {
    if s != [] {
      ToFromBE(s[..|s| - 1]);
      assert s == s[..|s| - 1] + [s[|s| - 1]];
      assert FromBE(s) / 256 == FromBE(s[..|s| - 1]);
    }
  }

  lemma Pow256Values()
    ensures Pow256(2) == 65536
    ensures Pow256(4) == 4294967296
  {
    assert Pow256(1) == 256 * Pow256(0);
    assert Pow256(2) == 256 * Pow256(1);
    assert Pow256(3) == 256 * Pow256(2);
  }

  /** Network order, for both widths that are used. */
  lemma TwoOctets(b: seq<byte>)
    requires |b| == 2
    ensures FromBE(b) == 256 * (b[0] as int) + b[1]
  {
    assert b[..1][..0] == [];
    assert FromBE(b[..1]) == b[0];
  }

  lemma FourOctets(b: seq<byte>)
    requires |b| == 4
    ensures FromBE(b) == 16777216 * (b[0] as int) + 65536 * (b[1] as int) + 256 * (b[2] as int) + b[3]
  {
    assert b[..3][..2] == b[..2];
    TwoOctets(b[..2]);
    assert FromBE(b[..3]) == 256 * FromBE(b[..2]) + b[2];
  }
}
