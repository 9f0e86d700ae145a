/**
 The Internet checksum (section 2(B) of RFC 1071; sections 3.1 of RFC 791 and
 RFC 793). The kernel adds 16-bit words as a little-endian machine reads them,
 which is not how the definition reads them, and yet sends the same bytes.
 */
module Checksum {
  import opened Words

  const ONES: nat := 0xFFFF

  type Bytes = seq<byte>

  /** A word as the machine loads it from two consecutive bytes. */
  function LoadLE(a: byte, b: byte): nat { a as int + 256 * b as int }

  /** A word in network order. */
  function LoadBE(a: byte, b: byte): nat { 256 * a as int + b as int }

  /** The sum of the words as loaded; a last odd byte counts as it is. */
  function Sum(data: Bytes): nat {
    if data == [] then 0
    else if |data| == 1 then data[0] as int
    else LoadLE(data[0], data[1]) + Sum(data[2..])
  }

  /** The sum of the words in network order; a last odd byte is followed by a zero byte. */
  function SumBE(data: Bytes): nat {
    if data == [] then 0
    else if |data| == 1 then LoadBE(data[0], 0)
    else LoadBE(data[0], data[1]) + SumBE(data[2..])
  }

  /** Adds the carries back in until none is left. */
  function Fold(sum: nat): nat {
    if sum < 0x1_0000 then sum else Fold(sum % 0x1_0000 + sum / 0x1_0000)
  }

  /** The value both checksum routines return for the bytes they cover. */
  function Check(data: Bytes): int { ONES - Fold(Sum(data)) }

  /** The checksum by its definition on words in network order. */
  function CheckBE(data: Bytes): int { ONES - Fold(SumBE(data)) }

  // ------------------------------------------------------------------ folding

  /** Folding takes the remainder by 65535, with 65535 for the positive multiples. */
  lemma {:induction false} FoldIs(sum: nat)
    ensures Fold(sum) == if sum == 0 then 0 else (sum - 1) % ONES + 1
    ensures 0 <= Fold(sum) <= ONES
  {
    if sum < 0x1_0000 {
    } else {
      var q, r := sum / 0x1_0000, sum % 0x1_0000;
      FoldIs(r + q);
      assert sum - 1 == (r + q - 1) + q * ONES;
      SameRest(r + q - 1, q);
    }
  }

  lemma SameRest(a: nat, q: nat)
    ensures (a + q * ONES) % ONES == a % ONES
  {
    var d := a / ONES;
    assert a + q * ONES == (d + q) * ONES + a % ONES;
    RestOf(d + q, a % ONES);
  }

  lemma RestOf(q: nat, r: nat)
    requires r < ONES
    ensures (q * ONES + r) % ONES == r && (q * ONES + r) / ONES == q
  {
  }

  /** Two sums that differ by a multiple of 65535, both zero or neither, fold to the same. */
  lemma FoldSame(a: nat, b: nat, q: nat)
    requires a == b + q * ONES && (a == 0 <==> b == 0)
    ensures Fold(a) == Fold(b)
  {
    FoldIs(a);
    FoldIs(b);
    if b > 0 { SameRest(b - 1, q); }
  }

  lemma {:induction false} SumBound(data: Bytes)
    ensures Sum(data) <= ONES * ((|data| + 1) / 2)
  {
    if |data| >= 2 {
      SumBound(data[2..]);
      assert (|data| + 1) / 2 == 1 + (|data[2..]| + 1) / 2;
    }
  }

  // ------------------------------------------------------------- the routines

  method FoldLoop(start: uint32) returns (sum: uint32)
    ensures sum == Fold(start) <= ONES
  {
    sum := start;
    while sum / 0x1_0000 != 0
      invariant Fold(sum) == Fold(start)
      decreases sum
    {
      sum := sum % 0x1_0000 + sum / 0x1_0000;
    }
  }

  /** Adds the words of data to a sum; 32 bits are enough, as is shown by the type of the result. */
  method AddWords(start: uint32, data: Bytes) returns (sum: uint32)
    requires |data| <= 0xFFFF && start <= 6 * ONES
    ensures sum == start + Sum(data)
  {
    SumBound(data);
    sum := start;
    var p: nat, len: nat := 0, |data|;
    assert data[0..] == data;
    while len > 1
      invariant p + len == |data|
      invariant sum + Sum(data[p..]) == start + Sum(data)
    {
      assert data[p..][2..] == data[p + 2..];
      sum := sum + LoadLE(data[p], data[p + 1]);
      p := p + 2;
      len := len - 2;
    }
    if len == 1 { sum := sum + data[p]; }
    assert data[p..] == if len == 1 then [data[p]] else [];
  }

  method IpChecksum(data: Bytes) returns (c: uint16)
    requires |data| <= 0xFFFF
    ensures c == Check(data)
  {
    var sum := AddWords(0, data);
    sum := FoldLoop(sum);
    c := ONES - sum;
  }

  /** Reverses the bytes of a 16-bit word. */
  function Swap16(x: uint16): uint16 { x % 256 * 256 + x / 256 }

  /** Reverses the bytes of a 32-bit word. */
  function Swap32(x: uint32): uint32 {
    x % 256 * 0x100_0000 + x / 256 % 256 * 0x1_0000 + x / 0x1_0000 % 256 * 256 + x / 0x100_0000
  }

  function NetworkOrder16(x: uint16): (r: Bytes)
    ensures |r| == 2
  {
    [x / 256, x % 256]
  }

  function NetworkOrder32(x: uint32): (r: Bytes)
    ensures |r| == 4
  {
    [x / 0x100_0000, x / 0x1_0000 % 256, x / 256 % 256, x % 256]
  }

  /** The pseudo-header of section 3.1 of RFC 793, as it would be sent. */
  function PseudoHeader(src: uint32, dst: uint32, len: uint16): Bytes {
    NetworkOrder32(src) + NetworkOrder32(dst) + [0, 6] + NetworkOrder16(len)
  }

  /** The routine adds the pseudo-header's words without building it; it is the checksum of header and segment. */
  method TcpChecksum(src: uint32, dst: uint32, segment: Bytes) returns (c: uint16)
    requires |segment| <= 0xFFFF
    ensures c == Check(PseudoHeader(src, dst, |segment|) + segment)
  {
    var sum: uint32 := 0;
    var srcBE, dstBE := Swap32(src), Swap32(dst);
    sum := sum + srcBE / 0x1_0000;
    sum := sum + srcBE % 0x1_0000;
    sum := sum + dstBE / 0x1_0000;
    sum := sum + dstBE % 0x1_0000;
    sum := sum + Swap16(6);
    sum := sum + Swap16(|segment|);
    SwappedWords(src);
    SwappedWords(dst);
    HeaderSum(NetworkOrder32(src), NetworkOrder32(dst), [0, 6], NetworkOrder16(|segment|), segment);
    hide Sum, NetworkOrder32, Swap32;
    sum := AddWords(sum, segment);
    sum := FoldLoop(sum);
    c := ONES - sum;
  }

  lemma SwappedWords(x: uint32)
    ensures var n := NetworkOrder32(x);
      Swap32(x) % 0x1_0000 == LoadLE(n[0], n[1]) && Swap32(x) / 0x1_0000 == LoadLE(n[2], n[3])
  {
  }

  /** The words of a twelve-byte header add up word by word to what follows it. */
  lemma HeaderSum(s: Bytes, d: Bytes, p: Bytes, l: Bytes, rest: Bytes)
    requires |s| == |d| == 4 && |p| == |l| == 2
    ensures Sum(s + d + p + l + rest) ==
      LoadLE(s[0], s[1]) + LoadLE(s[2], s[3]) + LoadLE(d[0], d[1]) + LoadLE(d[2], d[3])
      + LoadLE(p[0], p[1]) + LoadLE(l[0], l[1]) + Sum(rest)
  {
    hide LoadLE, Sum;
    var r5 := [l[0], l[1]] + rest;
    var r4 := [p[0], p[1]] + r5;
    var r3 := [d[2], d[3]] + r4;
    var r2 := [d[0], d[1]] + r3;
    var r1 := [s[2], s[3]] + r2;
    SumPair(l[0], l[1], rest);
    SumPair(p[0], p[1], r5);
    SumPair(d[2], d[3], r4);
    SumPair(d[0], d[1], r3);
    SumPair(s[2], s[3], r2);
    SumPair(s[0], s[1], r1);
    assert s + d + p + l + rest == [s[0], s[1]] + r1;
  }

  lemma SumPair(a: byte, b: byte, rest: Bytes)
    ensures Sum([a, b] + rest) == LoadLE(a, b) + Sum(rest)
  {
    assert ([a, b] + rest)[2..] == rest;
  }

  // --------------------------------------------------- store, then check again

  /** The data with the checksum stored at offset k as the machine stores a word. */
  function Stored(data: Bytes, k: nat, c: uint16): Bytes
    requires k + 1 < |data|
  {
    data[k := c % 256][k + 1 := c / 256]
  }

  lemma {:induction false} SumStored(data: Bytes, k: nat, c: uint16)
    requires k % 2 == 0 && k + 1 < |data|
    ensures Sum(Stored(data, k, c)) == Sum(data) - LoadLE(data[k], data[k + 1]) + c
  {
    var s := Stored(data, k, c);
    if k == 0 {
      assert s[2..] == data[2..];
    } else {
      assert s[2..] == Stored(data[2..], k - 2, c);
      SumStored(data[2..], k - 2, c);
    }
  }

  /** Storing the checksum in a zeroed field at an even offset makes the check come out as zero. */
  lemma StoredChecksToZero(data: Bytes, k: nat)
    requires k % 2 == 0 && k + 1 < |data| && data[k] == 0 && data[k + 1] == 0
    ensures 0 <= Check(data) <= ONES && Check(Stored(data, k, Check(data))) == 0
  {
    var sum := Sum(data);
    FoldIs(sum);
    var c := Check(data);
    SumStored(data, k, c);
    if sum == 0 {
      assert sum + c == ONES;
    } else {
      var q := (sum - 1) / ONES;
      assert sum + c == ONES + q * ONES;
    }
    var q := if sum == 0 then 0 else (sum - 1) / ONES;
    FoldSame(sum + c, ONES, q);
  }

  /**
   A receiver that finds zero has data whose words, one of them changed on the
   way, is wrong only if one of zero and all ones has become the other.
   */
  lemma WordErrorUndetectedIff(data: Bytes, k: nat, w: uint16)
    requires Check(data) == 0 && k % 2 == 0 && k + 1 < |data|
    ensures
      var was := LoadLE(data[k], data[k + 1]);
      Check(Stored(data, k, w)) == 0 <==> w == was || (w == 0 && was == ONES && Sum(data) > ONES) || (w == ONES && was == 0)
  {
    hide Sum, Fold, Stored;
    SumStored(data, k, 0);
    SumStored(data, k, w);
    FoldsToOnes(Sum(data));
    hide LoadLE;
    WordOf(data[k], data[k + 1]);
    ChangedSum(Sum(data), LoadLE(data[k], data[k + 1]), w);
  }

  lemma WordOf(a: byte, b: byte)
    ensures LoadLE(a, b) <= ONES
  {
  }

  lemma ChangedSum(sum: nat, was: uint16, w: uint16)
    requires sum > 0 && sum % ONES == 0 && was <= sum
    ensures Fold(sum - was + w) == ONES <==>
      w == was || (w == 0 && was == ONES && sum > ONES) || (w == ONES && was == 0)
  {
    hide Fold;
    FoldsToOnes(sum - was + w);
    MultipleAfter(sum, was, w);
  }

  lemma FoldsToOnes(sum: nat)
    ensures Fold(sum) == ONES <==> sum > 0 && sum % ONES == 0
  {
    FoldIs(sum);
    if sum > 0 {
      var q, r := sum / ONES, sum % ONES;
      if r == 0 {
        assert sum - 1 == (q - 1) * ONES + (ONES - 1);
        RestOf(q - 1, ONES - 1);
      } else {
        RestOf(q, r - 1);
      }
    }
  }

  /** Taking one word for another keeps a multiple of 65535 one exactly if the words are equal or 0 and 65535. */
  lemma MultipleAfter(sum: nat, was: uint16, w: uint16)
    requires sum % ONES == 0 && was <= sum
    ensures (sum - was + w) % ONES == 0 <==> w == was || (w == 0 && was == ONES) || (w == ONES && was == 0)
  {
    var q := sum / ONES;
    var d: int := w as int - was as int;
    if 0 <= d < ONES { RestOf(q, d); }
    else if d == ONES { RestOf(q + 1, 0); }
    else if d == -65535 { RestOf(q - 1, 0); }
    else {
      assert sum + d == (q - 1) * ONES + (ONES + d);
      if q > 0 { RestOf(q - 1, ONES + d); }
    }
  }

  // ------------------------------------------------------------- byte order

  function HighBytes(data: Bytes): nat {
    if |data| < 2 then 0 else data[1] as int + HighBytes(data[2..])
  }

  /** 256 times the machine's sum is the network-order sum but for a multiple of 65535. */
  lemma {:induction false} SumsRelated(data: Bytes)
    ensures 256 * Sum(data) == SumBE(data) + HighBytes(data) * ONES
    ensures Sum(data) == 0 <==> SumBE(data) == 0
  {
    if |data| >= 2 { SumsRelated(data[2..]); }
  }

  lemma SwapTimes256(x: uint16)
    ensures 256 * x == Swap16(x) + (x / 256) * ONES
    ensures x == 0 <==> Swap16(x) == 0
    ensures Swap16(ONES - x) == ONES - Swap16(x)
  {
  }

  /**
   The checksum stored by the little-endian machine puts the same two bytes on
   the wire as the definition on network-order words stored in network order.
   */
  lemma SameBytesOnTheWire(data: Bytes)
    ensures 0 <= Check(data) <= ONES && 0 <= CheckBE(data) <= ONES
    ensures Swap16(Check(data)) == CheckBE(data)
    ensures [Check(data) % 256, Check(data) / 256] == NetworkOrder16(CheckBE(data))
  {
    var sum, be := Sum(data), SumBE(data);
    var f := Fold(sum);
    FoldIs(sum);
    FoldIs(be);
    SumsRelated(data);
    SwapTimes256(f);
    FoldOfSwapped(sum, be, HighBytes(data));
  }

  /** If 256 times a sum is another up to a multiple of 65535, what they fold to are each other's byte swaps. */
  lemma FoldOfSwapped(sum: nat, be: nat, h: nat)
    requires 256 * sum == be + h * ONES && (sum == 0 <==> be == 0)
    ensures Fold(sum) <= ONES && Fold(be) == Swap16(Fold(sum))
  {
    FoldIs(sum);
    var f := Fold(sum);
    SwapTimes256(f);
    if sum > 0 {
      var q := (sum - 1) / ONES;
      assert sum == f + q * ONES;
      hide Fold, Swap16;
      var turns := f / 256 + 256 * q - h;
      assert be == Swap16(f) + turns * ONES;
      assert turns >= 0;
      FoldSame(be, Swap16(f), turns);
    }
    FoldsToItself(Swap16(f));
  }

  lemma FoldsToItself(x: uint16)
    ensures Fold(x) == x
  {
  }
}
