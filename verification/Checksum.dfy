/** calculate_checksum and calculate_tcp_udp_checksum on a little-endian host:
    a 32-bit accumulator, the carries folded in at the end. */
module Checksum {
  import opened Words
  import opened Sums
  import opened OnesComplement

  /** The 16-bit words a little-endian host reads; an odd last byte stands alone. */
  function HostWords(b: seq<byte>): (ws: seq<word>)
    ensures |ws| == (|b| + 1) / 2
    decreases |b|
  {
    if |b| == 0 then []
    else if |b| == 1 then [b[0]]
    else [Pair(b[0], b[1])] + HostWords(b[2..])
  }

  /** The words in network order, the data padded with a zero byte. */
  function NetworkWords(b: seq<byte>): (ws: seq<word>)
    ensures |ws| == (|b| + 1) / 2
    decreases |b|
  {
    if |b| == 0 then []
    else if |b| == 1 then [Pair(0, b[0])]
    else [Pair(b[1], b[0])] + NetworkWords(b[2..])
  }

  function Total(b: seq<byte>): nat {
    Sum(HostWords(b))
  }

  /** What the code computes: the accumulator wraps at 32 bits, is folded and complemented. */
  function Computed(b: seq<byte>): word {
    0xFFFF - Folded(Wrap(Total(b)))
  }

  /** The first length bytes; none for a length that is not positive. */
  function Taken(b: seq<byte>, length: int): seq<byte>
    requires length <= |b|
  {
    if length <= 0 then [] else b[..length]
  }

  lemma {:induction false} HostWordsAppend(a: seq<byte>, b: seq<byte>)
    requires |a| % 2 == 0
    ensures HostWords(a + b) == HostWords(a) + HostWords(b)
    decreases |a|
  {
    if a == [] {
      assert a + b == b;
    } else {
      assert (a + b)[2..] == a[2..] + b;
      HostWordsAppend(a[2..], b);
    }
  }

  lemma TotalAppend(a: seq<byte>, b: seq<byte>)
    requires |a| % 2 == 0
    ensures Total(a + b) == Total(a) + Total(b)
  {
    HostWordsAppend(a, b);
    SumAppend(HostWords(a), HostWords(b));
  }

  lemma TotalShort(b: seq<byte>)
    ensures |b| == 0 ==> Total(b) == 0
    ensures |b| == 1 ==> Total(b) == b[0]
    ensures |b| == 2 ==> Total(b) == Pair(b[0], b[1])
  {
    if |b| == 2 { assert HostWords(b) == [Pair(b[0], b[1])]; }
    if 1 <= |b| <= 2 { assert Sum(HostWords(b)) == Sum([]) + HostWords(b)[0]; }
  }

  lemma TotalGrows(b: seq<byte>, ptr: nat, n: nat)
    requires ptr % 2 == 0 && 1 <= n <= 2 && ptr + n <= |b|
    ensures Total(b[..ptr + n]) == Total(b[..ptr]) + (if n == 2 then Pair(b[ptr], b[ptr + 1]) else b[ptr])
  {
    assert b[..ptr + n] == b[..ptr] + b[ptr..ptr + n];
    TotalAppend(b[..ptr], b[ptr..ptr + n]);
    TotalShort(b[ptr..ptr + n]);
  }

  /** uint32_t arithmetic: x modulo 2^32. */
  function Wrap(x: nat): (r: nat)
    ensures r < WORD32
  {
    if x < WORD32 then x else Wrap(x - WORD32)
  }

  lemma {:induction false} WrapIsMod(x: nat)
    ensures Wrap(x) == x % WORD32
  {
    if x >= WORD32 { WrapIsMod(x - WORD32); }
  }

  lemma {:induction false} WrapAdd(x: nat, y: nat)
    ensures Wrap(Wrap(x) + y) == Wrap(x + y)
  {
    if x >= WORD32 { WrapAdd(x - WORD32, y); }
  }

  /** The accumulator after the first ptr bytes. */
  function Accumulated(b: seq<byte>, start: nat, ptr: nat): nat
    requires ptr <= |b|
  {
    Wrap(start + Total(b[..ptr]))
  }

  lemma AccumulateWord(b: seq<byte>, start: nat, ptr: nat)
    requires ptr % 2 == 0 && ptr + 2 <= |b|
    ensures Wrap(Accumulated(b, start, ptr) + Pair(b[ptr], b[ptr + 1])) == Accumulated(b, start, ptr + 2)
  {
    TotalGrows(b, ptr, 2);
    WrapAdd(start + Total(b[..ptr]), Pair(b[ptr], b[ptr + 1]));
  }

  lemma AccumulateByte(b: seq<byte>, start: nat, ptr: nat)
    requires ptr % 2 == 0 && ptr + 1 <= |b|
    ensures Wrap(Accumulated(b, start, ptr) + b[ptr]) == Accumulated(b, start, ptr + 1)
  {
    TotalGrows(b, ptr, 1);
    WrapAdd(start + Total(b[..ptr]), b[ptr]);
  }

  lemma AccumulatedNothing(b: seq<byte>, start: nat)
    requires start < WORD32
    ensures Accumulated(b, start, 0) == start
  {
    TotalShort(b[..0]);
  }

  /** Adds the words of data[..length] to an accumulator of 32 bits. */
  method AddWords(data: array<byte>, length: int, start: nat) returns (sum: nat)
    requires length <= data.Length && start < WORD32
    ensures sum == Accumulated(data[..], start, if length <= 0 then 0 else length)
  {
    sum := start;
    var ptr, left := 0, length;
    AccumulatedNothing(data[..], start);
    while left > 1
      invariant 0 <= ptr <= data.Length && ptr % 2 == 0 && ptr + left == length
      invariant length <= 0 ==> ptr == 0
      invariant length > 0 ==> left >= 0
      invariant sum == Accumulated(data[..], start, ptr)
    {
      AccumulateWord(data[..], start, ptr);
      sum := Wrap(sum + Pair(data[ptr], data[ptr + 1]));
      ptr, left := ptr + 2, left - 2;
    }
    if left > 0 {
      AccumulateByte(data[..], start, ptr);
      sum := Wrap(sum + data[ptr]);
    }
  }

  /** Folds the carries and complements. */
  method Finish(total: nat) returns (checksum: word)
    requires total < WORD32
    ensures checksum == 0xFFFF - Folded(total)
  {
    var sum := total;
    while sum / 0x1_0000 != 0
      invariant Folded(sum) == Folded(total)
      decreases sum
    {
      FoldOnce(sum);
      sum := sum % 0x1_0000 + sum / 0x1_0000;
    }
    checksum := 0xFFFF - sum;
  }

  method CalculateChecksum(data: array<byte>, length: int) returns (checksum: word)
    requires length <= data.Length
    ensures checksum == Computed(Taken(data[..], length))
    ensures length <= 131074 ==> checksum == Reference(Taken(data[..], length))
  {
    var sum := AddWords(data, length, 0);
    checksum := Finish(sum);
    if length <= 131074 { NoWrap(Taken(data[..], length)); }
  }

  // -------------------------------------------- the code and the standard

  /** The Internet checksum of b, word by word with end-around carry. */
  function Reference(b: seq<byte>): word {
    OnesComplement.Checksum(HostWords(b))
  }

  /** Up to 65537 words the accumulator cannot wrap. */
  lemma NoWrap(b: seq<byte>)
    requires |b| <= 131074
    ensures Total(b) < WORD32 && Computed(b) == Reference(b)
  {
    SumBound(HostWords(b));
    DeferredCarries(HostWords(b));
  }

  /** For every length an int can hold the code is right exactly when the
      accumulator does not wrap. */
  lemma RightIffNoWrap(b: seq<byte>)
    requires |b| < 0x8000_0000
    ensures Computed(b) == Reference(b) <==> Total(b) < WORD32
  {
    SumBound(HostWords(b));
    DeferredCarries(HostWords(b));
    var q, r := Total(b) / WORD32, Total(b) % WORD32;
    WrapIsMod(Total(b));
    assert q < 0xFFFF;
    if q > 0 {
      assert Total(b) == 0xFFFF * (0x1_0001 * q) + (q + r);
      ModAddMultiple(q + r - 1, 0x1_0001 * q);
      assert Folded(Total(b)) == Folded(q + r);
      Apart(q, r);
    }
  }

  lemma Apart(q: nat, r: nat)
    requires 0 < q < 0xFFFF
    ensures Folded(q + r) != Folded(r)
  {
  }

  function AllOnes(n: nat): seq<byte> {
    seq(n, _ => 0xFF)
  }

  lemma {:induction false} AllOnesTotal(k: nat)
    ensures Total(AllOnes(2 * k)) == 0xFFFF * k
  {
    if k > 0 {
      AllOnesTotal(k - 1);
      assert AllOnes(2 * k) == AllOnes(2 * (k - 1)) + AllOnes(2);
      TotalAppend(AllOnes(2 * (k - 1)), AllOnes(2));
      TotalShort(AllOnes(2));
    }
  }

  /** The bound is tight: one word more, and all ones give a wrong checksum. */
  lemma BoundIsTight()
    ensures Computed(AllOnes(131074)) == Reference(AllOnes(131074))
    ensures Computed(AllOnes(131076)) != Reference(AllOnes(131076))
  {
    NoWrap(AllOnes(131074));
    AllOnesTotal(65538);
    RightIffNoWrap(AllOnes(131076));
  }

  lemma {:induction false} HostWordsSwapped(b: seq<byte>)
    ensures HostWords(b) == SwapAll(NetworkWords(b))
    decreases |b|
  {
    if |b| >= 2 {
      HostWordsSwapped(b[2..]);
      SwapPair(b[1], b[0]);
    } else if |b| == 1 {
      SwapPair(0, b[0]);
    }
  }

  /** Stored by the little-endian host, the bytes of the result are the bytes of
      the network-order checksum of the zero-padded data. */
  lemma SameBytesOnTheWire(b: seq<byte>)
    ensures var net := OnesComplement.Checksum(NetworkWords(b));
            Reference(b) % 0x100 == net / 0x100 && Reference(b) / 0x100 == net % 0x100
  {
    HostWordsSwapped(b);
    EacSumSwapped(NetworkWords(b));
    SwapTwice(EacSum(NetworkWords(b)));
    SwapBytes(OnesComplement.Checksum(NetworkWords(b)));
  }

  /** Reordering whole words leaves the checksum alone. */
  lemma WordOrderIsIrrelevant(a: seq<byte>, b: seq<byte>)
    requires multiset(HostWords(a)) == multiset(HostWords(b))
    ensures Computed(a) == Computed(b) && Reference(a) == Reference(b)
  {
    SumOfPermutation(HostWords(a), HostWords(b));
    DeferredCarries(HostWords(a));
    DeferredCarries(HostWords(b));
  }

  // ---------------------------------------------------------- pseudo-header

  /** The four bytes of x as the host stores them. */
  function Bytes32(x: uint32): (b: seq<byte>)
    ensures |b| == 4
  {
    [x % 0x100, x / 0x100 % 0x100, x / 0x1_0000 % 0x100, x / 0x100_0000]
  }

  /** The twelve bytes of the pseudo-header; htons keeps the low 16 bits of length. */
  function PseudoHeader(srcIp: uint32, dstIp: uint32, protocol: byte, length: int): (b: seq<byte>)
    ensures |b| == 12
  {
    Bytes32(srcIp) + Bytes32(dstIp) + [0, protocol, length % 0x1_0000 / 0x100, length % 0x100]
  }

  /** The layout of the pseudo-header: the addresses as the host holds them, a zero, the
      protocol, and the low 16 bits of the length with the high byte first. */
  lemma PseudoHeaderFields(srcIp: uint32, dstIp: uint32, protocol: byte, length: int)
    ensures var b := PseudoHeader(srcIp, dstIp, protocol, length);
            && FromBytes(b[3], b[2], b[1], b[0]) == srcIp
            && FromBytes(b[7], b[6], b[5], b[4]) == dstIp
            && b[8] == 0 && b[9] == protocol && FromBytes(0, 0, b[10], b[11]) == length % 0x1_0000
  {
    var b := PseudoHeader(srcIp, dstIp, protocol, length);
    assert b[..4] == Bytes32(srcIp) && b[4..8] == Bytes32(dstIp);
    assert forall k :: 0 <= k < 4 ==> b[k] == Bytes32(srcIp)[k] && b[4 + k] == Bytes32(dstIp)[k];
    HostBytes(srcIp);
    HostBytes(dstIp);
    LowBytes(length);
  }

  lemma HostBytes(x: uint32)
    ensures FromBytes(Bytes32(x)[3], Bytes32(x)[2], Bytes32(x)[1], Bytes32(x)[0]) == x
  {
    FourBytes(x);
  }

  lemma LowBytes(length: int)
    ensures FromBytes(0, 0, length % 0x1_0000 / 0x100, length % 0x100) == length % 0x1_0000
  {
    var y, q := length % 0x1_0000, length / 0x1_0000;
    var a, r := y / 0x100, y % 0x100;
    Remainder(length, 0x100 * q + a, r);
  }

  lemma Remainder(n: int, k: int, r: int)
    requires n == 0x100 * k + r && 0 <= r < 0x100
    ensures n % 0x100 == r
  {
  }

  lemma TwoParts(a: seq<byte>, b: seq<byte>)
    requires |a| % 2 == 0
    ensures Wrap(Wrap(Total(a)) + Total(b)) == Wrap(Total(a + b))
  {
    TotalAppend(a, b);
    WrapAdd(Total(a), Total(b));
  }

  /** The checksum over the pseudo-header followed by the data, for every length,
      odd ones too: summing the two parts separately is summing their concatenation. */
  method CalculateTcpUdpChecksum(srcIp: uint32, dstIp: uint32, protocol: byte, data: array<byte>, length: int)
      returns (checksum: word)
    requires length <= data.Length
    ensures var all := PseudoHeader(srcIp, dstIp, protocol, length) + Taken(data[..], length);
            checksum == Computed(all) && (length <= 131062 ==> checksum == Reference(all))
  {
    var fields := PseudoHeader(srcIp, dstIp, protocol, length);
    var pseudo := new byte[12](i requires 0 <= i < 12 => fields[i]);
    assert pseudo[..] == fields;
    var sum := AddWords(pseudo, 12, 0);
    assert Taken(pseudo[..], 12) == fields;
    sum := AddWords(data, length, sum);
    TwoParts(fields, Taken(data[..], length));
    checksum := Finish(sum);
    if length <= 131062 { NoWrap(fields + Taken(data[..], length)); }
  }
}
