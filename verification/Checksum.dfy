/**
 * The Internet checksum of the proxy (socket_util.cc) as computed on a little-endian
 * host: 16-bit words are added in host order and the sum is folded to 16 bits.
 */
module Checksum {
  import opened Bytes

  // ---- Sums of 16-bit words ----

  function Word(high: byte, low: byte): (w: nat)
    ensures w < 65536
  {
    256 * (high as int) + low
  }

  // Words as a little-endian host reads them.
  function SumLE(b: seq<byte>): nat
    requires |b| % 2 == 0
  {
    if b == [] then 0 else SumLE(b[..|b| - 2]) + Word(b[|b| - 1], b[|b| - 2])
  }

  // Words in network order, as the definition of the checksum has them.
  function SumBE(b: seq<byte>): nat
    requires |b| % 2 == 0
  {
    if b == [] then 0 else SumBE(b[..|b| - 2]) + Word(b[|b| - 2], b[|b| - 1])
  }

  // The fold loop.
  function Fold(sum: nat): (r: nat)
    ensures r < 65536
  {
    if sum < 65536 then sum else Fold(sum % 65536 + sum / 65536)
  }

  function Complement(r: nat): (c: nat)
    requires r < 65536
    ensures c < 65536
  {
    65535 - r
  }

  function Swap(r: nat): (s: nat)
    requires r < 65536
    ensures s < 65536
  {
    r % 256 * 256 + r / 256
  }

  // The one's complement representative of `sum`: 65535 stands for a non-zero multiple of 65535.
  function Residue(sum: nat): (r: nat)
    ensures r < 65536 && r % 65535 == sum % 65535
    ensures r == 0 <==> sum == 0
  {
    if sum == 0 then 0 else (sum - 1) % 65535 + 1
  }

  lemma ResidueUnique(sum: nat, r: nat)
    requires r < 65536 && r % 65535 == sum % 65535 && (r == 0 <==> sum == 0)
    ensures r == Residue(sum)
  {
  }

  /** Folding keeps the sum modulo 65535, and never turns a non-zero sum into zero. */
  lemma {:induction false} FoldIsResidue(sum: nat)
    ensures Fold(sum) == Residue(sum)
    decreases sum
  {
    if sum >= 65536 {
      var next := sum % 65536 + sum / 65536;
      FoldIsResidue(next);
      assert sum == next + 65535 * (sum / 65536);
      ModPlus(next, sum / 65536);
      ResidueUnique(sum, Fold(sum));
    }
  }

  lemma ModPlus(a: nat, k: nat)
    ensures (a + 65535 * k) % 65535 == a % 65535
  {
  }

  // ---- Byte order ----

  lemma {:induction false} SumsAgree(b: seq<byte>)
    requires |b| % 2 == 0
    ensures (SumLE(b) - 256 * SumBE(b)) % 65535 == 0
    ensures SumLE(b) == 0 <==> SumBE(b) == 0
  {
    if b != [] {
      var n := |b| - 2;
      SumsAgree(b[..n]);
      assert SumLE(b) - 256 * SumBE(b) == SumLE(b[..n]) - 256 * SumBE(b[..n]) - 65535 * (b[n] as int);
    }
  }

  /**
   * Section 2(B) of RFC 1071: the sum of byte-swapped words is the byte-swapped
   * sum, for every buffer, all-zero ones included.
   */
  lemma ByteOrderIndependent(b: seq<byte>)
    requires |b| % 2 == 0
    ensures Fold(SumLE(b)) == Swap(Fold(SumBE(b)))
    ensures StoredLE(Complement(Fold(SumLE(b)))) == StoredBE(Complement(Fold(SumBE(b))))
  {
    hide SumLE, SumBE, Swap, Complement, StoredLE, StoredBE;
    var le, be := SumLE(b), SumBE(b);
    FoldIsResidue(le);
    FoldIsResidue(be);
    SumsAgree(b);
    var r := Fold(be);
    SwapResidue(le, be, r);
    ResidueUnique(le, Swap(r));
    SwapStored(r);
  }

  lemma SwapStored(r: nat)
    requires r < 65536
    ensures StoredLE(Complement(Swap(r))) == StoredBE(Complement(r))
  {
    var h, l := r / 256, r % 256;
    assert Swap(r) == l * 256 + h;
    assert Complement(Swap(r)) == (255 - l) * 256 + (255 - h);
    assert Complement(r) == (255 - h) * 256 + (255 - l);
  }

  // Modulo 65535, swapping the octets is multiplying by 256.
  lemma SwapTimes(r: nat)
    requires r < 65536
    ensures 256 * r == Swap(r) + 65535 * (r / 256)
    ensures Swap(r) == 0 <==> r == 0
  {
    var h, l := r / 256, r % 256;
    assert r == 256 * h + l && Swap(r) == 256 * l + h;
  }

  lemma SameModulo(a: nat, b: nat, k: int)
    requires b == a + 65535 * k
    ensures a % 65535 == b % 65535
  {
  }

  lemma SwapResidue(le: nat, be: nat, r: nat)
    requires (le - 256 * be) % 65535 == 0
    requires r < 65536 && r % 65535 == be % 65535
    ensures Swap(r) % 65535 == le % 65535
    ensures Swap(r) == 0 <==> r == 0
  {
    var k := (le - 256 * be) / 65535;
    var j := be / 65535 - r / 65535;
    assert be == r + 65535 * j;
    SwapTimes(r);
    assert le == Swap(r) + 65535 * (r / 256 + 256 * j + k);
    SameModulo(Swap(r), le, r / 256 + 256 * j + k);
  }

  // How a host lays out a 16-bit value in memory.
  function StoredLE(r: nat): (s: seq<byte>)
    requires r < 65536
    ensures |s| == 2
  {
    [r % 256, r / 256]
  }

  function StoredBE(r: nat): (s: seq<byte>)
    requires r < 65536
    ensures |s| == 2
  {
    [r / 256, r % 256]
  }

  // ---- The checksum over a buffer ----

  function ChecksumOf(b: seq<byte>): (c: nat)
    requires |b| % 2 == 0
    ensures c < 65536
  {
    Complement(Fold(SumLE(b)))
  }

  lemma SumLESnoc(b: seq<byte>, i: nat)
    requires i % 2 == 0 && i + 2 <= |b|
    ensures SumLE(b[..i + 2]) == SumLE(b[..i]) + Word(b[i + 1], b[i])
  {
    assert b[..i + 2][..i] == b[..i];
  }

  /**
   * cksum: an odd count still adds a whole word, so the byte after the buffer must be
   * readable and takes part in the sum.
   */
  method Cksum(addr: array<byte>, count: int) returns (checksum: nat)
    requires count <= 0 || count + count % 2 <= addr.Length
    ensures checksum == ChecksumOf(addr[..if count <= 0 then 0 else count + count % 2])
  {
    var sum: nat, at: nat, left := 0, 0, count;
    while left > 1
      invariant count > 0 ==> 0 <= left && at + left == count && at % 2 == 0
      invariant count <= 0 ==> at == 0 && left == count
      invariant at <= addr.Length && sum == SumLE(addr[..at])
      decreases left
    {
      SumLESnoc(addr[..], at);
      assert addr[..][..at] == addr[..at] && addr[..][..at + 2] == addr[..at + 2];
      sum := sum + Word(addr[at + 1], addr[at]);
      at, left := at + 2, left - 2;
    }
    if left > 0 {
      SumLESnoc(addr[..], at);
      assert addr[..][..at] == addr[..at] && addr[..][..at + 2] == addr[..at + 2];
      sum := sum + Word(addr[at + 1], addr[at]);
    }
    ghost var total := sum;
    while sum / 65536 != 0
      invariant Fold(sum) == Fold(total)
      decreases sum
    {
      sum := sum % 65536 + sum / 65536;
    }
    checksum := 65535 - sum;
  }

  /**
   * For an odd count RFC 1071 pads with a zero byte; this code agrees with that exactly when the
   * byte it finds in memory is zero.
   */
  lemma OddCountNeedsZeroAfter(b: seq<byte>, after: byte)
    requires |b| % 2 == 1
    ensures ChecksumOf(b + [after]) == ChecksumOf(b + [0]) <==> after == 0
  {
    var n := |b| - 1;
    assert (b + [after])[..n] == b[..n] && (b + [0])[..n] == b[..n];
    var base := SumLE(b[..n]) + b[n];
    assert SumLE(b + [after]) == base + 256 * after;
    assert SumLE(b + [0]) == base;
    FoldIsResidue(base);
    FoldIsResidue(base + 256 * after);
    if 0 < after {
      SameResidue(base, after);
    }
  }

  lemma SameResidue(base: nat, after: nat)
    requires 0 < after < 256
    ensures Residue(base + 256 * after) != Residue(base)
  {
    if base > 0 {
      var q := (base - 1) / 65535;
      var m := (base - 1) % 65535;
      assert base - 1 == m + 65535 * q;
      if m + 256 * after < 65535 {
        ModPlus(m + 256 * after, q);
      } else {
        ModPlus(m + 256 * after - 65535, q + 1);
      }
    }
  }

  // ---- Installing a checksum makes the buffer add up ----

  // `b` with the bytes at `at` replaced by `new`.
  function Patched(b: seq<byte>, at: nat, new': seq<byte>): (r: seq<byte>)
    requires at + |new'| <= |b|
    ensures |r| == |b|
    ensures forall i :: 0 <= i < |b| ==> r[i] == if at <= i < at + |new'| then new'[i - at] else b[i]
  {
    b[..at] + new' + b[at + |new'|..]
  }

  lemma {:induction false} SumPatched(b: seq<byte>, at: nat, w: seq<byte>)
    requires |b| % 2 == 0 && at % 2 == 0 && at + 2 <= |b| && |w| == 2
    ensures SumLE(Patched(b, at, w)) == SumLE(b) - Word(b[at + 1], b[at]) + Word(w[1], w[0])
  {
    hide Patched, Word;
    var n := |b| - 2;
    var p := Patched(b, at, w);
    if at == n {
      assert p[..n] == b[..n];
    } else {
      assert p[..n] == Patched(b[..n], at, w);
      SumPatched(b[..n], at, w);
    }
  }

  predicate AddsUp(b: seq<byte>)
    requires |b| % 2 == 0
  {
    Fold(SumLE(b)) == 0xFFFF
  }

  /** A receiver of either byte order reaches the same verdict. */
  lemma AddsUpEitherOrder(b: seq<byte>)
    requires |b| % 2 == 0
    ensures AddsUp(b) <==> Fold(SumBE(b)) == 0xFFFF
  {
    ByteOrderIndependent(b);
  }

  lemma InstalledAddsUp(b: seq<byte>, at: nat)
    requires |b| % 2 == 0 && at % 2 == 0 && at + 2 <= |b|
    requires b[at] == 0 && b[at + 1] == 0
    ensures AddsUp(Patched(b, at, StoredLE(ChecksumOf(b))))
  {
    hide SumLE, Patched, Fold, Residue, Word, StoredLE, Complement;
    var sum, c := SumLE(b), ChecksumOf(b);
    SumPatched(b, at, StoredLE(c));
    StoredWord(c);
    FoldIsResidue(sum);
    ComplementCompletes(sum);
    FoldIsResidue(sum + c);
  }

  // Storing a word and reading it again.
  lemma StoredWord(c: nat)
    requires c < 65536
    ensures Word(StoredLE(c)[1], StoredLE(c)[0]) == c && Word(0, 0) == 0
  {
    var high: byte, low: byte := c / 256, c % 256;
    assert StoredLE(c)[1] == high && StoredLE(c)[0] == low;
    assert c == 256 * (c / 256) + c % 256;
  }

  lemma ComplementCompletes(sum: nat)
    ensures Residue(sum + Complement(Residue(sum))) == 0xFFFF
  {
    if sum > 0 {
      var q := (sum - 1) / 65535;
      assert sum - 1 == 65535 * q + (sum - 1) % 65535;
      assert sum + Complement(Residue(sum)) == 65535 * q + 65535;
      ModPlus(65534, q);
    }
  }

  // ---- The transport checksum ----

  // 12 bytes: both addresses, zero, the protocol, the segment length.
  function PseudoHeader(src: seq<byte>, dst: seq<byte>, protocol: byte, len: nat): (h: seq<byte>)
    requires |src| == 4 && |dst| == 4 && len < 65536
    ensures |h| == 12
  {
    src + dst + [0, protocol] + StoredBE(len)
  }

  function Padded(segment: seq<byte>): (r: seq<byte>)
    ensures |r| % 2 == 0
  {
    segment + if |segment| % 2 == 0 then [] else [0]
  }

  function Covered(src: seq<byte>, dst: seq<byte>, protocol: byte, segment: seq<byte>): (r: seq<byte>)
    requires |src| == 4 && |dst| == 4 && |segment| < 65536
    ensures |r| % 2 == 0
  {
    PseudoHeader(src, dst, protocol, |segment|) + Padded(segment)
  }

  /** udp_tcp_cksum: the buffer is padded, so `count`, which cksum is called with, is even
      and its left-over branch is not taken. */
  method UdpTcpCksum(pkt: array<byte>, start: nat, src: seq<byte>, dst: seq<byte>, protocol: byte)
    returns (sum: nat, ghost count: nat)
    requires |src| == 4 && |dst| == 4
    requires start <= pkt.Length && pkt.Length - start < 65536
    ensures count == 12 + |Padded(pkt[start..])| && count % 2 == 0
    ensures sum < 65536
    ensures sum == ChecksumOf(Covered(src, dst, protocol, pkt[start..]))
  {
    var len := pkt.Length - start;
    var padding := if len % 2 != 0 then 1 else 0;
    var header := src + dst + [0, protocol] + [len / 256, len % 256];
    var buf := new byte[len + 12 + padding](_ => 0);
    forall i | 0 <= i < 12 { buf[i] := header[i]; }
    forall i | 0 <= i < len { buf[12 + i] := pkt[start + i]; }
    assert header == PseudoHeader(src, dst, protocol, len);
    assert buf[..] == Covered(src, dst, protocol, pkt[start..]);
    assert buf[..buf.Length] == buf[..];
    count := buf.Length;
    sum := Cksum(buf, buf.Length);
  }
}
