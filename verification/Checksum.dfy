/**
 The Internet checksum of the ICMP probe (`icmp_checksum`), section 1 of RFC 1071,
 in 32-bit arithmetic.
 */
module Checksum {
  import opened Prelude

  newtype U32 = x: int | 0 <= x < 0x1_0000_0000

  /** The longest packet whose sum is certain to fit the accumulator. */
  const MAX_PACKET: nat := 131074

  /** Place value of the byte at `i` in its big-endian 16-bit word. */
  function Weight(i: nat): nat
  {
    if i % 2 == 0 then 256 else 1
  }

  /** Sum of the 16-bit words of the first `n` bytes. */
  function SumTo(d: seq<Byte>, n: nat): (s: nat)
    requires n <= |d|
  {
    if n == 0 then 0 else SumTo(d, n - 1) + Weight(n - 1) * d[n - 1]
  }

  function Sum(d: seq<Byte>): (s: nat)
  {
    SumTo(d, |d|)
  }

  /** One's complement of the one's-complement sum. */
  function Complement(sum: nat): (c: nat)
    ensures c < 0x1_0000
    ensures (sum + c) % 65535 == 0
    ensures c == 65535 <==> sum == 0
  {
    if sum == 0 then 65535
    else
      var c := (65535 - sum % 65535) % 65535;
      MultipleOf(sum, c);
      c
  }

  lemma MultipleOf(sum: nat, c: nat)
    requires c == (65535 - sum % 65535) % 65535
    ensures (sum + c) % 65535 == 0
  {
    var q, r := sum / 65535, sum % 65535;
    if r == 0 {
      assert sum + c == 65535 * q;
    } else {
      assert sum + c == 65535 * (q + 1);
    }
  }

  lemma {:induction false} SumBound(d: seq<Byte>, n: nat)
    requires n <= |d|
    ensures SumTo(d, n) <= n / 2 * 65535 + n % 2 * 65280
  {
    if n > 0 {
      SumBound(d, n - 1);
      assert (n - 1) % 2 == 0 ==> n / 2 == (n - 1) / 2;
      assert (n - 1) % 2 == 1 ==> n / 2 == (n - 1) / 2 + 1;
    }
  }

  /** The bound is attained, so one byte more can overflow the accumulator. */
  lemma {:induction false} AllOnesSum(n: nat)
    ensures SumTo(seq(n, i => 255), n) == n / 2 * 65535 + n % 2 * 65280
  {
    if n > 0 {
      AllOnesSum(n - 1);
      SumOfPrefix(seq(n, i => 255), seq(n - 1, i => 255), n - 1);
      assert (n - 1) % 2 == 0 ==> n / 2 == (n - 1) / 2;
      assert (n - 1) % 2 == 1 ==> n / 2 == (n - 1) / 2 + 1;
    }
  }

  lemma {:induction false} SumOfPrefix(d: seq<Byte>, e: seq<Byte>, n: nat)
    requires n <= |d| && n <= |e| && d[..n] == e[..n]
    ensures SumTo(d, n) == SumTo(e, n)
  {
    if n > 0 {
      assert d[n - 1] == d[..n][n - 1] == e[..n][n - 1] == e[n - 1];
      assert d[..n - 1] == d[..n][..n - 1] == e[..n][..n - 1] == e[..n - 1];
      SumOfPrefix(d, e, n - 1);
    }
  }

  /** Exactly the lengths up to `MAX_PACKET` can never overflow. */
  lemma NeverOverflowsIff(n: nat)
    ensures (forall d: seq<Byte> :: |d| == n ==> Sum(d) < 0x1_0000_0000) <==> n <= MAX_PACKET
  {
    if n <= MAX_PACKET {
      forall d: seq<Byte> | |d| == n ensures Sum(d) < 0x1_0000_0000 {
        SumBound(d, n);
      }
    } else {
      var d: seq<Byte> := seq(n, i => 255);
      AllOnesSum(n);
      assert n / 2 >= 65537;
      assert n == 131075 || n / 2 >= 65538;
      assert |d| == n && Sum(d) >= 0x1_0000_0000;
    }
  }

  lemma FoldKeepsComplement(sum: nat)
    requires sum >= 0x1_0000
    ensures sum % 0x1_0000 + sum / 0x1_0000 < sum
    ensures Complement(sum % 0x1_0000 + sum / 0x1_0000) == Complement(sum)
  {
    var high, low := sum / 0x1_0000, sum % 0x1_0000;
    assert sum == 65535 * high + (low + high);
    CongruentRemainder(high, low + high);
  }

  lemma CongruentRemainder(k: nat, s: nat)
    ensures (65535 * k + s) % 65535 == s % 65535
  {
    var q, r := s / 65535, s % 65535;
    assert 65535 * k + s == 65535 * (k + q) + r;
  }

  lemma FoldedComplement(sum: nat)
    requires sum < 0x1_0000
    ensures Complement(sum) == 65535 - sum
  {
  }

  lemma {:induction false} SumGrows(d: seq<Byte>, n: nat, m: nat)
    requires n <= m <= |d|
    ensures SumTo(d, n) <= SumTo(d, m)
  {
    if n < m {
      SumGrows(d, n, m - 1);
    }
  }

  /** The first loop. The build checks overflow: there is no sum exactly when it does not fit. */
  method SumWords(data: seq<Byte>) returns (r: Option<U32>)
    ensures r == if Sum(data) < 0x1_0000_0000 then Some(Sum(data) as U32) else None
  {
    var sum: U32 := 0;
    for i := 0 to |data|
      invariant sum as int == SumTo(data, i)
    {
      SumGrows(data, i + 1, |data|);
      var word := Weight(i) * (data[i] as int);
      if sum as int + word >= 0x1_0000_0000 {
        return None;
      }
      sum := sum + word as U32;
    }
    return Some(sum);
  }

  /** The second loop. */
  method FoldCarries(start: U32) returns (c: nat)
    ensures c == Complement(start as int)
  {
    var sum := start;
    while sum / 0x1_0000 != 0
      invariant Complement(sum as int) == Complement(start as int)
      decreases sum
    {
      FoldKeepsComplement(sum as int);
      sum := sum % 0x1_0000 + sum / 0x1_0000;
    }
    FoldedComplement(sum as int);
    c := (0xFFFF_FFFF - sum) as int % 0x1_0000;
  }

  /** `icmp_checksum`: sum the words, then fold the carries; always a result up to `MAX_PACKET` bytes. */
  method IcmpChecksum(data: seq<Byte>) returns (c: Option<nat>)
    ensures c == if Sum(data) < 0x1_0000_0000 then Some(Complement(Sum(data))) else None
    ensures |data| <= MAX_PACKET ==> c.Some?
  {
    SumBound(data, |data|);
    var sum := SumWords(data);
    if sum.None? {
      return None;
    }
    var folded := FoldCarries(sum.value);
    return Some(folded);
  }

  // ----- verification by the receiver -------------------------------------------------

  /** A packet passes exactly when its words sum to a positive multiple of 65535. */
  lemma PassesIff(sum: nat)
    ensures Complement(sum) == 0 <==> sum > 0 && sum % 65535 == 0
  {
    if sum > 0 {
      var c := Complement(sum);
      assert c == 0 <==> sum % 65535 == 0;
    }
  }

  lemma {:induction false} SumOfUpdate(d: seq<Byte>, k: nat, v: Byte, n: nat)
    requires k < |d| && n <= |d|
    ensures SumTo(d[k := v], n) == SumTo(d, n) + if k < n then Weight(k) * (v - d[k]) else 0
  {
    if n > 0 {
      SumOfUpdate(d, k, v, n - 1);
    }
  }

  /** Write a checksum into the 16-bit field at `k`. */
  function WriteChecksum(d: seq<Byte>, k: nat, c: nat): (e: seq<Byte>)
    requires k + 1 < |d| && c < 0x1_0000
    ensures |e| == |d|
  {
    d[k := c / 256][k + 1 := c % 256]
  }

  /** Writing the checksum into a zeroed, aligned field makes the packet pass. */
  lemma WrittenPasses(d: seq<Byte>, k: nat)
    requires k % 2 == 0 && k + 1 < |d| && d[k] == 0 && d[k + 1] == 0
    ensures Complement(Sum(WriteChecksum(d, k, Complement(Sum(d))))) == 0
  {
    var c := Complement(Sum(d));
    SumOfUpdate(d, k, c / 256, |d|);
    SumOfUpdate(d[k := c / 256], k + 1, c % 256, |d|);
    assert Weight(k) * (c / 256) + Weight(k + 1) * (c % 256) == c;
    PassesIff(Sum(d) + c);
  }

  /** Any single changed byte makes a passing packet fail. */
  lemma DetectsChangedByte(d: seq<Byte>, k: nat, v: Byte)
    requires k < |d| && v != d[k] && Complement(Sum(d)) == 0
    ensures Complement(Sum(d[k := v])) != 0
  {
    SumOfUpdate(d, k, v, |d|);
    var change := Weight(k) * (v - d[k]);
    PassesIff(Sum(d));
    PassesIff(Sum(d[k := v]));
    assert -65535 < change < 65535 && change != 0;
  }

  const Template: seq<Byte> := [8, 0, 0, 0, 0, 1, 0, 1, 0, 0, 0, 0, 0, 0, 0, 0]

  /** The echo request the probe sends. */
  method EchoRequest() returns (packet: seq<Byte>)
    ensures exists c: Word :: packet == WriteChecksum(Template, 2, c)
    ensures Complement(Sum(packet)) == 0
  {
    WrittenPasses(Template, 2);
    var cksum := IcmpChecksum(Template);
    packet := WriteChecksum(Template, 2, cksum.value);
  }
}
