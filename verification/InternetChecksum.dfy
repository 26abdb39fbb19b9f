/** The Internet checksum of icmp_checksum.c, proved against the one's-complement sum of RFC 1071. */
module InternetChecksum {
  import opened Bytes

  // ---------- Reference definition (RFC 1071, section 1) ----------

  /** 16-bit one's-complement addition: the carry out of bit 15 is added back in. */
  function OnesAdd(a: u16, b: u16): u16 {
    if a + b >= 0x1_0000 then a + b - 0xFFFF else a + b
  }

  /** One's-complement sum of the 16-bit words of s; an odd last byte is padded with a zero byte. */
  function OnesSum(s: seq<byte>): u16 {
    if |s| == 0 then 0
    else if |s| == 1 then s[0]
    else OnesAdd(Get16(s, 0), OnesSum(s[2..]))
  }

  /** The checksum field value: the complement of the one's-complement sum. */
  function ChecksumOf(s: seq<byte>): u16 {
    0xFFFF - OnesSum(s)
  }

  // ---------- The arithmetic the program uses ----------

  /** The plain sum of the words, before any carry is folded. */
  function WordSum(s: seq<byte>): nat {
    if |s| == 0 then 0
    else if |s| == 1 then s[0]
    else Get16(s, 0) + WordSum(s[2..])
  }

  /** The one representative of n modulo 65535 that one's-complement addition produces:
      0 only for 0, and 65535 (not 0) for the other multiples of 65535. */
  function Residue(n: nat): u16 {
    if n == 0 then 0 else 1 + (n - 1) % 0xFFFF
  }

  lemma ResidueFold(n: nat)
    ensures Residue(n % 0x1_0000 + n / 0x1_0000) == Residue(n)
  {
  }

  lemma ResidueAdd(a: u16, n: nat)
    ensures OnesAdd(a, Residue(n)) == Residue(a + n)
  {
  }

  /** Summing first and folding afterwards gives the one's-complement sum. */
  lemma {:induction false} OnesSumIsResidue(s: seq<byte>)
    ensures OnesSum(s) == Residue(WordSum(s))
  {
    if |s| >= 2 {
      OnesSumIsResidue(s[2..]);
      ResidueAdd(Get16(s, 0), WordSum(s[2..]));
    }
  }

  /** checksum: sum the words below addr + count, add the odd byte, fold the carries, complement. */
  method Checksum(buf: array<byte>, start: nat, len: int) returns (r: u16)
    requires -0x8000 <= len < 0x8000  // "short count"
    requires start + len <= buf.Length && start <= buf.Length
    ensures r == ChecksumOf(if len <= 0 then [] else buf[start..start + len])
  {
    ghost var data := if len <= 0 then [] else buf[start..start + len];
    var sum := 0;
    var addr, count := start, len;
    while count > 1
      invariant start <= addr && addr + count == start + len
      invariant len <= 0 ==> addr == start
      invariant len > 0 ==> count >= 0
      invariant 0 <= sum
      invariant len > 0 ==> sum + WordSum(buf[addr..addr + count]) == WordSum(data)
      invariant len <= 0 ==> sum == 0
    {
      assert buf[addr..addr + count][2..] == buf[addr + 2..addr + count];
      sum := sum + (buf[addr] as int + 256 * (buf[addr + 1] as int));
      addr := addr + 2;
      count := count - 2;
    }
    if count > 0 {
      sum := sum + buf[addr];
    }
    assert sum == WordSum(data);
    while sum / 0x1_0000 != 0
      invariant 0 <= sum && Residue(sum) == Residue(WordSum(data))
      decreases sum
    {
      ResidueFold(sum);
      sum := sum % 0x1_0000 + sum / 0x1_0000;
    }
    assert sum == Residue(sum);
    OnesSumIsResidue(data);
    r := 0xFFFF - sum;
  }

  // ---------- Zero, and the two representations of zero ----------

  ghost predicate AllZero(s: seq<byte>) {
    forall i :: 0 <= i < |s| ==> s[i] == 0
  }

  lemma AllZeroTail(s: seq<byte>)
    requires |s| >= 2
    ensures AllZero(s) <==> s[0] == 0 && s[1] == 0 && AllZero(s[2..])
  {
    if AllZero(s[2..]) {
      forall i | 2 <= i < |s| ensures s[i] == 0 {
        assert s[i] == s[2..][i - 2];
      }
    }
  }

  lemma {:induction false} WordSumZero(s: seq<byte>)
    ensures WordSum(s) == 0 <==> AllZero(s)
  {
    if |s| >= 2 {
      WordSumZero(s[2..]);
      WordZero(s[1], s[0]);
      AllZeroTail(s);
    }
  }

  lemma WordZero(hi: byte, lo: byte)
    ensures Word(hi, lo) == 0 <==> hi == 0 && lo == 0
  {
  }

  /** The folded sum is 0 exactly for all-zero data, so the checksum is 0xFFFF only then. */
  lemma OnesSumZero(s: seq<byte>)
    ensures OnesSum(s) == 0 <==> AllZero(s)
  {
    OnesSumIsResidue(s);
    WordSumZero(s);
  }

  // ---------- Splitting, storing, permuting ----------

  lemma {:induction false} WordSumConcat(a: seq<byte>, b: seq<byte>)
    requires |a| % 2 == 0
    ensures WordSum(a + b) == WordSum(a) + WordSum(b)
  {
    if |a| == 0 {
      assert a + b == b;
    } else {
      assert (a + b)[2..] == a[2..] + b;
      WordSumConcat(a[2..], b);
    }
  }

  lemma {:induction false} WordSumPut(s: seq<byte>, k: nat, v: u16)
    requires k % 2 == 0 && k + 2 <= |s|
    ensures WordSum(Put16(s, k, v)) == WordSum(s) - Get16(s, k) + v
  {
    if k == 0 {
      WordSumPutFirst(s, v);
    } else {
      WordSumPut(s[2..], k - 2, v);
      PutBehind(s, k, v);
    }
  }

  lemma WordSumPutFirst(s: seq<byte>, v: u16)
    requires 2 <= |s|
    ensures WordSum(Put16(s, 0, v)) == WordSum(s) - Get16(s, 0) + v
  {
    var r := Put16(s, 0, v);
    GetPut(s, 0, v);
    assert r[2..] == s[2..];
  }

  lemma PutBehind(s: seq<byte>, k: nat, v: u16)
    requires 2 <= k && k + 2 <= |s|
    ensures WordSum(Put16(s, k, v)) == Get16(s, 0) + WordSum(Put16(s[2..], k - 2, v))
    ensures WordSum(s) == Get16(s, 0) + WordSum(s[2..]) && Get16(s, k) == Get16(s[2..], k - 2)
  {
    var r := Put16(s, k, v);
    assert r[2..] == Put16(s[2..], k - 2, v);
    assert r[0] == s[0] && r[1] == s[1];
  }

  lemma ResidueAllOnes(n: nat)
    ensures Residue(n) == 0xFFFF <==> n > 0 && n % 0xFFFF == 0
  {
  }

  /** The field values that bring a sum n to a positive multiple of 65535. */
  lemma FieldValues(n: nat, v: u16)
    ensures (n + v > 0 && (n + v) % 0xFFFF == 0) <==>
            v == 0xFFFF - Residue(n) || (v == 0xFFFF && Residue(n) == 0xFFFF)
  {
  }

  /** Data verifies (its checksum is 0) exactly when its words sum to a positive multiple of 65535. */
  lemma {:induction false} VerifiesIff(s: seq<byte>)
    ensures ChecksumOf(s) == 0 <==> WordSum(s) > 0 && WordSum(s) % 0xFFFF == 0
  {
    OnesSumIsResidue(s);
    ResidueAllOnes(WordSum(s));
  }

  /** Of all values of a zeroed aligned field, only the checksum, or its other
      representation of zero, makes the data verify. */
  lemma StoredChecksumUnique(s: seq<byte>, k: nat, v: u16)
    requires k % 2 == 0 && k + 2 <= |s| && Get16(s, k) == 0
    ensures ChecksumOf(Put16(s, k, v)) == 0 <==>
            v == ChecksumOf(s) || (v == 0xFFFF && ChecksumOf(s) == 0)
  {
    WordSumPut(s, k, v);
    VerifiesIff(Put16(s, k, v));
    FieldOf(s, v);
  }

  lemma FieldOf(s: seq<byte>, v: u16)
    ensures (WordSum(s) + v > 0 && (WordSum(s) + v) % 0xFFFF == 0) <==>
            v == ChecksumOf(s) || (v == 0xFFFF && ChecksumOf(s) == 0)
  {
    OnesSumIsResidue(s);
    FieldValues(WordSum(s), v);
  }

  /** Storing the checksum in a zeroed, word-aligned field makes the data verify. */
  lemma StoredChecksumVerifies(s: seq<byte>, k: nat)
    requires k % 2 == 0 && k + 2 <= |s| && Get16(s, k) == 0
    ensures ChecksumOf(Put16(s, k, ChecksumOf(s))) == 0
  {
    StoredChecksumUnique(s, k, ChecksumOf(s));
  }

  // ---------- Byte order (RFC 1071, section 2(B)) ----------

  /** The one's-complement sum of the same bytes taken as network-order words. */
  function OnesSumNet(s: seq<byte>): u16 {
    if |s| == 0 then 0
    else if |s| == 1 then Word(s[0], 0)
    else OnesAdd(GetNet16(s, 0), OnesSumNet(s[2..]))
  }

  /** One's-complement addition byte by byte: the carry of each byte goes into the other one,
      so exchanging the two bytes of both operands exchanges the bytes of the result. */
  lemma AddHalves(ah: byte, al: byte, bh: byte, bl: byte) returns (hi: byte, lo: byte)
    ensures OnesAdd(Word(ah, al), Word(bh, bl)) == Word(hi, lo)
    ensures OnesAdd(Word(al, ah), Word(bl, bh)) == Word(lo, hi)
  {
    // carries out of the low and out of the high byte
    var c := if al + bl >= 256 then 1 else 0;
    var d := if ah + bh + c >= 256 then 1 else 0;
    var l, h := al + bl - 256 * c, ah + bh + c - 256 * d;
    if d == 0 {
      hi, lo := h, l;
    } else if l == 255 {
      hi, lo := h + 1, 0;
    } else {
      hi, lo := h, l + 1;
    }
  }

  lemma SwapAdd(a: u16, b: u16)
    ensures Swap(OnesAdd(a, b)) == OnesAdd(Swap(a), Swap(b))
  {
    var x, y := Halves(a), Halves(b);
    var hi, lo := AddHalves(x.0, x.1, y.0, y.1);
    SwapWord(hi, lo);
  }

  lemma SwapComplement(v: u16)
    ensures Swap(0xFFFF - v) == 0xFFFF - Swap(v)
  {
    var h := Halves(v);
    Complement(h.0, h.1);
    Complement(h.1, h.0);
    SwapWord(255 - h.0, 255 - h.1);
  }

  lemma Complement(hi: byte, lo: byte)
    ensures 0xFFFF - Word(hi, lo) == Word(255 - hi, 255 - lo)
  {
  }

  lemma {:induction false} SumByteOrder(s: seq<byte>)
    ensures OnesSumNet(s) == Swap(OnesSum(s))
  {
    if |s| == 0 {
      SwapWord(0, 0);
    } else if |s| == 1 {
      SwapWord(0, s[0]);
    } else {
      SumByteOrder(s[2..]);
      SwapWord(s[1], s[0]);
      SwapAdd(Get16(s, 0), OnesSum(s[2..]));
    }
  }

  lemma GetPut(s: seq<byte>, k: nat, v: u16)
    requires k + 2 <= |s|
    ensures Get16(Put16(s, k, v), k) == v
  {
  }

  /** Storing the natively computed checksum without htons puts on the wire, in network order,
      the checksum of the network-order words. */
  lemma {:induction false} NativeStoreIsNetworkOrder(s: seq<byte>, k: nat)
    requires k + 2 <= |s|
    ensures GetNet16(Put16(s, k, ChecksumOf(s)), k) == 0xFFFF - OnesSumNet(s)
  {
    var c := ChecksumOf(s);
    var wire := Put16(s, k, c);
    GetPut(s, k, c);
    SwapWord(wire[k + 1], wire[k]);
    SumByteOrder(s);
    SwapComplement(OnesSum(s));
  }

  /** s with the two bytes of every 16-bit word exchanged. */
  function SwapWords(s: seq<byte>): (r: seq<byte>)
    requires |s| % 2 == 0
    ensures |r| == |s|
  {
    if |s| == 0 then [] else [s[1], s[0]] + SwapWords(s[2..])
  }

  /** The checksum of byte-swapped data is the byte-swapped checksum. */
  lemma {:induction false} ChecksumOfSwappedWords(s: seq<byte>)
    requires |s| % 2 == 0
    ensures ChecksumOf(SwapWords(s)) == Swap(ChecksumOf(s))
  {
    SwappedSum(s);
    SwapComplement(OnesSum(s));
  }

  lemma {:induction false} SwappedSum(s: seq<byte>)
    requires |s| % 2 == 0
    ensures OnesSum(SwapWords(s)) == Swap(OnesSum(s))
  {
    var t := SwapWords(s);
    if |s| == 0 {
      SwapWord(0, 0);
    } else {
      assert t[2..] == SwapWords(s[2..]);
      SwappedSum(s[2..]);
      SwapWord(s[1], s[0]);
      SwapAdd(Get16(s, 0), OnesSum(s[2..]));
    }
  }
}
