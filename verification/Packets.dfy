/** The packet rewriters of network.cpp and tcpForward_secondRouter: in-place edits of an IPv4 packet buffer. */
module Packets {
  import opened Bytes
  import opened InternetChecksum

  const ICMP: byte := 1

  /** The offsets of the two address fields. */
  const ADDRESSES: set<int> := {12, 13, 14, 15, 16, 17, 18, 19}

  // ---------- Header fields (RFC 791, section 3.1) ----------

  function HeaderLen(p: seq<byte>): nat
    requires |p| >= 20
  {
    p[0] % 16 * 4
  }

  function TotalLen(p: seq<byte>): u16
    requires |p| >= 20
  {
    GetNet16(p, 2)
  }

  function Src(p: seq<byte>): seq<byte>
    requires |p| >= 20
  {
    [p[12], p[13], p[14], p[15]]
  }

  function Dst(p: seq<byte>): seq<byte>
    requires |p| >= 20
  {
    [p[16], p[17], p[18], p[19]]
  }

  /** What the editors need of the buffer: a whole IPv4 header, the declared payload, and a payload
      length that a C short holds. */
  predicate Editable(p: seq<byte>)
  {
    && |p| >= 20 && 20 <= HeaderLen(p)
    && HeaderLen(p) + 4 <= |p| && TotalLen(p) <= |p|
    && TotalLen(p) - HeaderLen(p) < 0x8000
  }

  function Header(p: seq<byte>): seq<byte>
    requires |p| >= 20 && HeaderLen(p) <= |p|
  {
    p[..HeaderLen(p)]
  }

  /** The bytes after the header that the total length covers. */
  function Payload(p: seq<byte>): seq<byte>
    requires |p| >= 20 && TotalLen(p) <= |p|
  {
    if HeaderLen(p) <= TotalLen(p) then p[HeaderLen(p)..TotalLen(p)] else []
  }

  /** Every byte outside the given offsets is unchanged. */
  ghost predicate SameExcept(p: seq<byte>, r: seq<byte>, changed: set<int>)
  {
    |p| == |r| && forall i :: 0 <= i < |p| && i !in changed ==> r[i] == p[i]
  }

  lemma SameTrans(p: seq<byte>, q: seq<byte>, r: seq<byte>, c: set<int>, d: set<int>)
    requires SameExcept(p, q, c) && SameExcept(q, r, d)
    ensures SameExcept(p, r, c + d)
  {
  }

  lemma SameFields(p: seq<byte>, r: seq<byte>, changed: set<int>)
    requires |p| >= 20 && SameExcept(p, r, changed)
    requires forall i :: i in changed ==> 10 <= i
    ensures r[9] == p[9] && HeaderLen(r) == HeaderLen(p) && TotalLen(r) == TotalLen(p)
    ensures Editable(p) ==> Editable(r)
  {
  }

  lemma PutSame(p: seq<byte>, k: nat, v: u16, w: u16)
    requires k + 2 <= |p|
    ensures SameExcept(p, Put16(Put16(p, k, v), k, w), {k, k + 1})
  {
  }

  // ---------- Writing a checksum field ----------

  /** A zeroed field at buf[f], inside the checksummed range [lo, hi), is set to the checksum of the range. */
  method FillChecksum(buf: array<byte>, lo: nat, hi: int, f: nat)
    requires lo <= f && f + 2 <= buf.Length && (f - lo) % 2 == 0 && lo <= buf.Length
    requires hi <= buf.Length && -0x8000 <= hi - lo < 0x8000
    modifies buf
    ensures SameExcept(old(buf[..]), buf[..], {f, f + 1})
    ensures f + 2 <= hi ==> ChecksumOf(buf[lo..hi]) == 0
    ensures f + 2 <= hi ==> ChecksumOf(Put16(buf[lo..hi], f - lo, 0)) == Get16(buf[..], f)
  {
    ghost var p := buf[..];
    Store(buf, f, 0);
    ghost var z := buf[..];
    GetPut(p, f, 0);
    var c := Checksum(buf, lo, hi - lo);
    Store(buf, f, c);
    PutSame(p, f, 0, c);
    if f + 2 <= hi {
      FilledRange(z, lo, hi, f, c);
      assert buf[lo..hi] == Put16(z, f, c)[lo..hi];
    }
  }

  lemma FilledRange(z: seq<byte>, lo: nat, hi: nat, f: nat, c: u16)
    requires lo <= f && f + 2 <= hi <= |z| && (f - lo) % 2 == 0
    requires Get16(z, f) == 0 && c == ChecksumOf(z[lo..hi])
    ensures ChecksumOf(Put16(z, f, c)[lo..hi]) == 0
    ensures Put16(Put16(z, f, c)[lo..hi], f - lo, 0) == z[lo..hi]
    ensures Get16(Put16(z, f, c), f) == c
  {
    PutSlice(z, lo, hi, f, c);
    GetPut(z, f, c);
    StoredChecksumVerifies(z[lo..hi], f - lo);
  }

  lemma PutSlice(z: seq<byte>, lo: nat, hi: nat, f: nat, c: u16)
    requires lo <= f && f + 2 <= hi <= |z| && Get16(z, f) == 0
    ensures Get16(z[lo..hi], f - lo) == 0
    ensures Put16(z, f, c)[lo..hi] == Put16(z[lo..hi], f - lo, c)
    ensures Put16(Put16(z, f, c)[lo..hi], f - lo, 0) == z[lo..hi]
  {
  }

  // ---------- icmpReply_Edit(char*) ----------

  /** RFC 792, Echo or Echo Reply Message: r is the reply to the echo request p. */
  ghost predicate IsEchoReply(p: seq<byte>, r: seq<byte>)
    requires Editable(p)
  {
    var h := HeaderLen(p);
    && SameExcept(p, r, {h, h + 2, h + 3, 10, 11} + ADDRESSES)
    && Editable(r) && r[h] == 0
    && Src(r) == Dst(p) && Dst(r) == Src(p)
    && ChecksumOf(Header(r)) == 0
    && ChecksumOf(Put16(Header(r), 10, 0)) == Get16(r, 10)
    && (TotalLen(p) - h >= 4 ==> ChecksumOf(Payload(r)) == 0)
  }

  /** The ICMP half: type 0 and a fresh ICMP checksum. */
  method ReplyBody(buf: array<byte>)
    requires Editable(buf[..])
    modifies buf
    ensures SameExcept(old(buf[..]), buf[..],
                       {HeaderLen(old(buf[..])), HeaderLen(old(buf[..])) + 2, HeaderLen(old(buf[..])) + 3})
    ensures buf[HeaderLen(old(buf[..]))] == 0
    ensures TotalLen(old(buf[..])) - HeaderLen(old(buf[..])) >= 4 ==>
              ChecksumOf(buf[HeaderLen(old(buf[..]))..TotalLen(old(buf[..]))]) == 0
  {
    var h := buf[0] % 16 * 4;
    var tot := 256 * (buf[2] as int) + buf[3] as int;
    buf[h] := 0;
    FillChecksum(buf, h, tot, h + 2);
  }

  method SwapAddresses(buf: array<byte>)
    requires buf.Length >= 20
    modifies buf
    ensures SameExcept(old(buf[..]), buf[..], ADDRESSES)
    ensures Src(buf[..]) == Dst(old(buf[..])) && Dst(buf[..]) == Src(old(buf[..]))
  {
    var t0, t1, t2, t3 := buf[16], buf[17], buf[18], buf[19];
    buf[16], buf[17], buf[18], buf[19] := buf[12], buf[13], buf[14], buf[15];
    buf[12], buf[13], buf[14], buf[15] := t0, t1, t2, t3;
  }

  /** ip_sum over the header. */
  method FillHeaderChecksum(buf: array<byte>)
    requires Editable(buf[..])
    modifies buf
    ensures SameExcept(old(buf[..]), buf[..], {10, 11})
    ensures Editable(buf[..])
    ensures ChecksumOf(Header(buf[..])) == 0
    ensures ChecksumOf(Put16(Header(buf[..]), 10, 0)) == Get16(buf[..], 10)
  {
    var h := buf[0] % 16 * 4;
    ghost var p := buf[..];
    FillChecksum(buf, 0, h, 10);
    SameFields(p, buf[..], {10, 11});
    assert buf[0..h] == Header(buf[..]);
  }

  method IcmpReplyEdit(buf: array<byte>)
    requires buf.Length >= 20 && (buf[9] == ICMP ==> Editable(buf[..]))
    modifies buf
    ensures old(buf[9]) != ICMP ==> buf[..] == old(buf[..])
    ensures old(buf[9]) == ICMP ==> IsEchoReply(old(buf[..]), buf[..])
  {
    if buf[9] != ICMP {
      return;
    }
    ghost var p := buf[..];
    ReplyBody(buf);
    ghost var q := buf[..];
    SwapAddresses(buf);
    ghost var q' := buf[..];
    ReplySteps(p, q, q');
    FillHeaderChecksum(buf);
    ReplyDone(p, q, q', buf[..]);
  }

  lemma ReplySteps(p: seq<byte>, q: seq<byte>, q': seq<byte>)
    requires Editable(p)
    requires SameExcept(p, q, {HeaderLen(p), HeaderLen(p) + 2, HeaderLen(p) + 3})
    requires SameExcept(q, q', ADDRESSES)
    ensures Editable(q) && Editable(q') && Src(q) == Src(p) && Dst(q) == Dst(p)
  {
  }

  lemma {:induction false} ReplyDone(p: seq<byte>, q: seq<byte>, q': seq<byte>, r: seq<byte>)
    requires Editable(p)
    requires SameExcept(p, q, {HeaderLen(p), HeaderLen(p) + 2, HeaderLen(p) + 3}) && q[HeaderLen(p)] == 0
    requires TotalLen(p) - HeaderLen(p) >= 4 ==> ChecksumOf(q[HeaderLen(p)..TotalLen(p)]) == 0
    requires SameExcept(q, q', ADDRESSES) && Src(q') == Dst(q) && Dst(q') == Src(q)
    requires SameExcept(q', r, {10, 11}) && Editable(r)
    requires ChecksumOf(Header(r)) == 0 && ChecksumOf(Put16(Header(r), 10, 0)) == Get16(r, 10)
    ensures IsEchoReply(p, r)
  {
    SameFields(q', r, {10, 11});
    var h := HeaderLen(p);
    var c := {h, h + 2, h + 3};
    ReplySteps(p, q, q');
    SameTrans(p, q, q', c, ADDRESSES);
    SameTrans(p, q', r, c + ADDRESSES, {10, 11});
    assert c + ADDRESSES + {10, 11} == {h, h + 2, h + 3, 10, 11} + ADDRESSES;
    assert Src(r) == Src(q') && Dst(r) == Dst(q');
    ReplyPayload(p, q, q', r);
  }

  lemma ReplyPayload(p: seq<byte>, q: seq<byte>, q': seq<byte>, r: seq<byte>)
    requires Editable(p) && |p| == |q|
    requires SameExcept(q, q', ADDRESSES) && SameExcept(q', r, {10, 11})
    requires Editable(r) && HeaderLen(r) == HeaderLen(p) && TotalLen(r) == TotalLen(p)
    ensures TotalLen(p) - HeaderLen(p) >= 4 ==> Payload(r) == q[HeaderLen(p)..TotalLen(p)]
  {
  }

  /** Replying twice puts the addresses back. */
  lemma ReplyTwiceRestoresAddresses(p: seq<byte>, q: seq<byte>, r: seq<byte>)
    requires Editable(p) && IsEchoReply(p, q)
    ensures Editable(q)
    ensures IsEchoReply(q, r) ==> Src(r) == Src(p) && Dst(r) == Dst(p)
  {
  }

  lemma SwappedHeaderSum(p: seq<byte>, r: seq<byte>)
    requires |p| == |r| >= 20 && |p| % 2 == 0
    requires p[..12] == r[..12] && p[20..] == r[20..]
    requires Src(r) == Dst(p) && Dst(r) == Src(p)
    ensures WordSum(r) == WordSum(p)
  {
    HeaderParts(p);
    HeaderParts(r);
  }

  /** The header sum in pieces: the words before the addresses, the addresses, the options. */
  lemma HeaderParts(p: seq<byte>)
    requires |p| >= 20 && |p| % 2 == 0
    ensures WordSum(p) == WordSum(p[..12]) + WordSum(Src(p)) + WordSum(Dst(p)) + WordSum(p[20..])
  {
    var a, d := p[..12], p[20..];
    HeaderSplit(p);
    FourParts(a, Src(p), Dst(p), d);
  }

  lemma HeaderSplit(p: seq<byte>)
    requires |p| >= 20
    ensures p == p[..12] + (Src(p) + (Dst(p) + p[20..]))
  {
  }

  lemma FourParts(a: seq<byte>, b: seq<byte>, c: seq<byte>, d: seq<byte>)
    requires |a| % 2 == 0 && |b| % 2 == 0 && |c| % 2 == 0
    ensures WordSum(a + (b + (c + d))) == WordSum(a) + WordSum(b) + WordSum(c) + WordSum(d)
  {
    WordSumConcat(a, b + (c + d));
    WordSumConcat(b, c + d);
    WordSumConcat(c, d);
  }

  /** Exchanging the addresses only permutes the header words, so the recomputed IP checksum is the received one,
      with one exception: a received field of 0xFFFF comes back as 0. */
  lemma ReplyKeepsIpChecksum(p: seq<byte>, r: seq<byte>)
    requires Editable(p) && IsEchoReply(p, r)
    requires ChecksumOf(Header(p)) == 0  // the received header was valid
    ensures Get16(r, 10) == Get16(p, 10) <==> Get16(p, 10) != 0xFFFF
    ensures Get16(p, 10) == 0xFFFF ==> Get16(r, 10) == 0
  {
    var p0, r0 := Put16(Header(p), 10, 0), Put16(Header(r), 10, 0);
    SameZeroedSum(p, r);
    OnesSumIsResidue(p0);
    OnesSumIsResidue(r0);
    FieldOfValidHeader(p);
  }

  lemma SameZeroedSum(p: seq<byte>, r: seq<byte>)
    requires Editable(p) && IsEchoReply(p, r)
    ensures WordSum(Put16(Header(p), 10, 0)) == WordSum(Put16(Header(r), 10, 0))
  {
    var p0, r0 := Put16(Header(p), 10, 0), Put16(Header(r), 10, 0);
    SwappedZeroed(p, r);
    SwappedHeaderSum(p0, r0);
  }

  lemma SwappedZeroed(p: seq<byte>, r: seq<byte>)
    requires Editable(p) && Editable(r) && Src(r) == Dst(p) && Dst(r) == Src(p)
    requires SameExcept(p, r, {HeaderLen(p), HeaderLen(p) + 2, HeaderLen(p) + 3, 10, 11} + ADDRESSES)
    ensures var p0, r0 := Put16(Header(p), 10, 0), Put16(Header(r), 10, 0);
            && |p0| == |r0| && p0[..12] == r0[..12] && p0[20..] == r0[20..]
            && Src(r0) == Dst(p0) && Dst(r0) == Src(p0)
  {
  }

  /** In a valid header the checksum field is the recomputed checksum, or 0xFFFF where that is 0. */
  lemma FieldOfValidHeader(p: seq<byte>)
    requires Editable(p) && ChecksumOf(Header(p)) == 0
    ensures var c := ChecksumOf(Put16(Header(p), 10, 0));
            c != 0xFFFF && (Get16(p, 10) == c || (Get16(p, 10) == 0xFFFF && c == 0))
  {
    assert Header(p)[0] == p[0] != 0;
    FieldOfValid(Header(p));
  }

  lemma FieldOfValid(h: seq<byte>)
    requires |h| >= 20 && h[0] != 0 && ChecksumOf(h) == 0
    ensures var c, v := ChecksumOf(Put16(h, 10, 0)), Get16(h, 10);
            c != 0xFFFF && (v == c || (v == 0xFFFF && c == 0))
  {
    var h0 := Put16(h, 10, 0);
    assert h0[0] == h[0];
    OnesSumZero(h0);
    Restored(h, 10);
    GetPut(h, 10, 0);
    StoredChecksumUnique(h0, 10, Get16(h, 10));
  }

  lemma Restored(h: seq<byte>, k: nat)
    requires k + 2 <= |h|
    ensures Put16(Put16(h, k, 0), k, Get16(h, k)) == h
  {
    var v := Halves(Get16(h, k));
    WordInjective(v.0, v.1, h[k + 1], h[k]);
  }

  // ---------- icmpReply_Edit(in_addr, char*, flag): address translation ----------

  datatype Side = FromUdp | FromRawSock

  /** r is p with one address replaced and the header checksum recomputed. */
  ghost predicate IsReaddressed(p: seq<byte>, r: seq<byte>, addr: seq<byte>, side: Side)
    requires Editable(p) && |addr| == 4
  {
    && SameExcept(p, r, {10, 11} + ADDRESSES) && Editable(r)
    && Src(r) == (if side.FromUdp? then addr else Src(p))
    && Dst(r) == (if side.FromUdp? then Dst(p) else addr)
    && ChecksumOf(Header(r)) == 0
    && ChecksumOf(Put16(Header(r), 10, 0)) == Get16(r, 10)
  }

  method Readdress(addr: seq<byte>, buf: array<byte>, side: Side) returns (replaced: seq<byte>)
    requires |addr| == 4
    requires buf.Length >= 20 && (buf[9] == ICMP ==> Editable(buf[..]))
    modifies buf
    ensures old(buf[9]) != ICMP ==> buf[..] == old(buf[..]) && replaced == Src(old(buf[..]))
    ensures old(buf[9]) == ICMP ==> IsReaddressed(old(buf[..]), buf[..], addr, side)
    ensures old(buf[9]) == ICMP ==>
              replaced == if side.FromUdp? then Src(old(buf[..])) else Dst(old(buf[..]))
  {
    if buf[9] != ICMP {
      return [buf[12], buf[13], buf[14], buf[15]];
    }
    ghost var p := buf[..];
    replaced := PutAddress(addr, buf, side);
    ghost var q := buf[..];
    SameFields(p, q, ADDRESSES);
    FillHeaderChecksum(buf);
    ReaddressFrame(p, q, buf[..]);
  }

  lemma ReaddressFrame(p: seq<byte>, q: seq<byte>, r: seq<byte>)
    requires |p| >= 20 && SameExcept(p, q, ADDRESSES) && SameExcept(q, r, {10, 11})
    ensures SameExcept(p, r, {10, 11} + ADDRESSES) && Src(r) == Src(q) && Dst(r) == Dst(q)
  {
  }

  method PutAddress(addr: seq<byte>, buf: array<byte>, side: Side) returns (replaced: seq<byte>)
    requires |addr| == 4 && buf.Length >= 20
    modifies buf
    ensures SameExcept(old(buf[..]), buf[..], ADDRESSES)
    ensures Src(buf[..]) == if side.FromUdp? then addr else Src(old(buf[..]))
    ensures Dst(buf[..]) == if side.FromUdp? then Dst(old(buf[..])) else addr
    ensures replaced == if side.FromUdp? then Src(old(buf[..])) else Dst(old(buf[..]))
  {
    var at := if side.FromUdp? then 12 else 16;
    replaced := [buf[at], buf[at + 1], buf[at + 2], buf[at + 3]];
    buf[at], buf[at + 1], buf[at + 2], buf[at + 3] := addr[0], addr[1], addr[2], addr[3];
  }

  /** Translating with the returned address undoes the translation: the packet comes back byte for byte,
      if it arrived with a valid header checksum whose field was not 0xFFFF. */
  lemma ReaddressRoundTrip(p: seq<byte>, q: seq<byte>, r: seq<byte>, addr: seq<byte>, side: Side)
    requires Editable(p) && |addr| == 4 && IsReaddressed(p, q, addr, side)
    requires ChecksumOf(Header(p)) == 0
    ensures Editable(q)
    ensures IsReaddressed(q, r, if side.FromUdp? then Src(p) else Dst(p), side) ==>
              (r == p <==> Get16(p, 10) != 0xFFFF)
  {
    assert q[0] == p[0] && q[2] == p[2] && q[3] == p[3];
    if IsReaddressed(q, r, if side.FromUdp? then Src(p) else Dst(p), side) {
      assert Src(r) == Src(p) && Dst(r) == Dst(p);
      SameHeaders(p, q, r);
      SameZeroed(p, r);
      FieldOfValidHeader(p);
    }
  }

  lemma SameHeaders(p: seq<byte>, q: seq<byte>, r: seq<byte>)
    requires Editable(p) && SameExcept(p, q, {10, 11} + ADDRESSES) && SameExcept(q, r, {10, 11} + ADDRESSES)
    requires Src(r) == Src(p) && Dst(r) == Dst(p)
    ensures SameExcept(p, r, {10, 11})
  {
  }

  lemma SameZeroed(p: seq<byte>, r: seq<byte>)
    requires Editable(p) && Editable(r) && SameExcept(p, r, {10, 11})
    ensures Put16(Header(p), 10, 0) == Put16(Header(r), 10, 0)
    ensures Get16(p, 10) == Get16(r, 10) ==> r == p
  {
    assert r[0] == p[0];
    if Get16(p, 10) == Get16(r, 10) {
      WordInjective(p[11], p[10], r[11], r[10]);
    }
  }

  lemma PutBack(p: seq<byte>, q: seq<byte>, k: nat)
    requires k + 2 <= |p| && SameExcept(p, q, {k, k + 1})
    ensures q == Put16(p, k, Get16(q, k))
  {
  }

  // ---------- TCP: pseudo header and both rewriting directions ----------

  /** The 96-bit pseudo header of RFC 793, section 3.1. */
  function PseudoHeader(src: seq<byte>, dst: seq<byte>, protocol: byte, len: nat): (r: seq<byte>)
    requires |src| == 4 && |dst| == 4 && len < 0x1_0000
    ensures |r| == 12
  {
    src + dst + [0, protocol, len / 256, len % 256]
  }

  /** The segment of p verifies over its pseudo header with the given addresses. */
  predicate TcpVerifies(p: seq<byte>, src: seq<byte>, dst: seq<byte>)
    requires Editable(p) && |src| == 4 && |dst| == 4
  {
    ChecksumOf(PseudoHeader(src, dst, p[9], |Payload(p)|) + Payload(p)) == 0
  }

  /** The same without the pseudo header's bytes: addresses, protocol, length and segment, added up as the words a
      little-endian machine loads, come to a positive multiple of 65535 (RFC 793, section 3.1). */
  ghost predicate SegmentVerifies(src: seq<byte>, dst: seq<byte>, protocol: byte, segment: seq<byte>)
    requires |segment| < 0x1_0000
  {
    SumVerifies(WordSum(src) + WordSum(dst) + 256 * protocol + Swap(|segment|) + WordSum(segment))
  }

  predicate SumVerifies(sum: nat) {
    sum > 0 && sum % 0xFFFF == 0
  }

  lemma PseudoSum(header: seq<byte>, src: seq<byte>, dst: seq<byte>, protocol: byte, n: u16, segment: seq<byte>)
    requires |src| == 4 && |dst| == 4 && header == PseudoHeader(src, dst, protocol, n)
    ensures WordSum(header + segment) == WordSum(src) + WordSum(dst) + 256 * protocol + Swap(n) + WordSum(segment)
  {
    var tail := LastFour(header, src, dst, protocol, n);
    SumOfParts(header, src, dst, tail, segment);
  }

  lemma SumOfParts(header: seq<byte>, src: seq<byte>, dst: seq<byte>, tail: seq<byte>, segment: seq<byte>)
    requires |src| == 4 && |dst| == 4 && |tail| == 4 && header == src + (dst + tail)
    ensures WordSum(header + segment) == WordSum(src) + WordSum(dst) + WordSum(tail) + WordSum(segment)
  {
    FourInARow(src, dst, tail, segment);
    FourParts(src, dst, tail, segment);
  }

  /** The last four bytes of the pseudo header. */
  lemma LastFour(header: seq<byte>, src: seq<byte>, dst: seq<byte>, protocol: byte, n: u16) returns (tail: seq<byte>)
    requires |src| == 4 && |dst| == 4 && header == PseudoHeader(src, dst, protocol, n)
    ensures |tail| == 4 && WordSum(tail) == 256 * protocol + Swap(n)
    ensures header == src + (dst + tail)
  {
    HalvesOf(n);
    FourBytes(0, protocol, n / 256, n % 256);
    tail := [0, protocol, n / 256, n % 256];
  }

  lemma FourInARow(a: seq<byte>, b: seq<byte>, c: seq<byte>, d: seq<byte>)
    ensures (a + (b + c)) + d == a + (b + (c + d))
  {
  }

  lemma FourBytes(a: byte, b: byte, c: byte, d: byte)
    ensures WordSum([a, b, c, d]) == Word(b, a) + Word(d, c)
  {
    var s := [a, b, c, d];
    assert s[2..] == [c, d];
    TwoBytes(c, d);
  }

  lemma TwoBytes(c: byte, d: byte)
    ensures WordSum([c, d]) == Word(d, c)
  {
    var s := [c, d];
    assert s[2..] == [];
  }

  /** A segment's checksum over its pseudo header is 0 exactly when its sum comes to a positive multiple of 65535. */
  lemma {:induction false} TcpVerifiesIff(p: seq<byte>, src: seq<byte>, dst: seq<byte>)
    requires Editable(p) && |src| == 4 && |dst| == 4
    ensures TcpVerifies(p, src, dst) <==> SegmentVerifies(src, dst, p[9], Payload(p))
  {
    var header := PseudoHeader(src, dst, p[9], |Payload(p)|);
    PseudoSum(header, src, dst, p[9], |Payload(p)|, Payload(p));
    VerifiesIff(header + Payload(p));
  }

  /** Nothing but the TCP check field differs. */
  ghost predicate OnlyCheckChanged(p: seq<byte>, r: seq<byte>)
    requires |p| >= 20
  {
    SameExcept(p, r, {HeaderLen(p) + 16, HeaderLen(p) + 17})
  }

  method PseudoPacket(buf: array<byte>, src: seq<byte>, dst: seq<byte>, scratch: nat) returns (psd: array<byte>)
    requires |src| == 4 && |dst| == 4 && Editable(buf[..])
    requires HeaderLen(buf[..]) <= TotalLen(buf[..])
    requires TotalLen(buf[..]) - HeaderLen(buf[..]) + 12 <= scratch
    ensures fresh(psd) && psd.Length == scratch
    ensures var len := TotalLen(buf[..]) - HeaderLen(buf[..]);
            psd[..len + 12] == PseudoHeader(src, dst, buf[9], len) + Payload(buf[..])
  {
    var h := buf[0] % 16 * 4;
    var len := 256 * (buf[2] as int) + buf[3] as int - h;
    psd := new byte[scratch](_ => 0);
    var ph := PseudoHeader(src, dst, buf[9], len);
    Copy(psd, 0, ph);
    Copy(psd, 12, buf[h..h + len]);
    assert psd[..len + 12] == ph + buf[h..h + len];
  }

  method PseudoChecksum(buf: array<byte>, src: seq<byte>, dst: seq<byte>, scratch: nat) returns (c: u16)
    requires |src| == 4 && |dst| == 4 && Editable(buf[..])
    requires HeaderLen(buf[..]) <= TotalLen(buf[..])
    requires TotalLen(buf[..]) - HeaderLen(buf[..]) + 12 <= scratch
    requires TotalLen(buf[..]) - HeaderLen(buf[..]) + 12 < 0x8000
    ensures c == ChecksumOf(PseudoHeader(src, dst, buf[9], TotalLen(buf[..]) - HeaderLen(buf[..])) + Payload(buf[..]))
  {
    var psd := PseudoPacket(buf, src, dst, scratch);
    var len := 256 * (buf[2] as int) + buf[3] as int - buf[0] % 16 * 4;
    c := Checksum(psd, 0, len + 12);
    assert psd[0..len + 12] == psd[..len + 12];
  }

  /** Both directions build the pseudo packet in a scratch buffer, checksum it and store the result in the segment. */
  method FillTcpChecksum(buf: array<byte>, src: seq<byte>, dst: seq<byte>, scratch: nat)
    requires |src| == 4 && |dst| == 4 && Editable(buf[..])
    requires HeaderLen(buf[..]) + 18 <= TotalLen(buf[..])
    requires TotalLen(buf[..]) - HeaderLen(buf[..]) + 12 <= scratch
    requires TotalLen(buf[..]) - HeaderLen(buf[..]) + 12 < 0x8000
    modifies buf
    ensures OnlyCheckChanged(old(buf[..]), buf[..])
    ensures Editable(buf[..]) && TcpVerifies(buf[..], src, dst)
  {
    ghost var p := buf[..];
    var h := buf[0] % 16 * 4;
    Store(buf, h + 16, 0);
    ghost var z := buf[..];
    PayloadPut(p, 0);
    var c := PseudoChecksum(buf, src, dst, scratch);
    Store(buf, h + 16, c);
    TcpFilled(p, z, src, dst, c);
  }

  lemma TcpFilled(p: seq<byte>, z: seq<byte>, src: seq<byte>, dst: seq<byte>, c: u16)
    requires |src| == 4 && |dst| == 4 && Editable(p) && HeaderLen(p) + 18 <= TotalLen(p)
    requires z == Put16(p, HeaderLen(p) + 16, 0)
    requires c == ChecksumOf(PseudoHeader(src, dst, p[9], TotalLen(p) - HeaderLen(p)) + Put16(Payload(p), 16, 0))
    ensures var r := Put16(z, HeaderLen(p) + 16, c);
            OnlyCheckChanged(p, r) && Editable(r) && TcpVerifies(r, src, dst)
  {
    var ph := PseudoHeader(src, dst, p[9], TotalLen(p) - HeaderLen(p));
    var body := Put16(Payload(p), 16, 0);
    PayloadPut(p, 0);
    PayloadPut(z, c);
    PutSame(p, HeaderLen(p) + 16, 0, c);
    ConcatPut(ph, body, 16, c);
    assert Get16(ph + body, 28) == 0;
    StoredChecksumVerifies(ph + body, 28);
  }

  lemma PayloadPut(z: seq<byte>, v: u16)
    requires Editable(z) && HeaderLen(z) + 18 <= TotalLen(z)
    ensures var r := Put16(z, HeaderLen(z) + 16, v);
            && Editable(r) && r[9] == z[9] && HeaderLen(r) == HeaderLen(z) && TotalLen(r) == TotalLen(z)
            && Payload(r) == Put16(Payload(z), 16, v)
  {
  }

  lemma ConcatPut(a: seq<byte>, b: seq<byte>, k: nat, v: u16)
    requires k + 2 <= |b|
    ensures a + Put16(b, k, v) == Put16(a + b, |a| + k, v)
  {
  }

  /** tcpForward_secondRouter: outgoing segments verify with the router's external address as source;
      nothing but the TCP check field changes. */
  method TcpForward(buf: array<byte>, external: seq<byte>)
    requires |external| == 4 && Editable(buf[..])
    requires HeaderLen(buf[..]) + 18 <= TotalLen(buf[..])
    requires TotalLen(buf[..]) - HeaderLen(buf[..]) + 12 <= 2048
    modifies buf
    ensures OnlyCheckChanged(old(buf[..]), buf[..])
    ensures Editable(buf[..]) && TcpVerifies(buf[..], external, Dst(old(buf[..])))
    ensures SegmentVerifies(external, old(buf[..])[16..20], old(buf[9]), Payload(buf[..]))
  {
    ghost var p := buf[..];
    var dst := [buf[16], buf[17], buf[18], buf[19]];
    FillTcpChecksum(buf, external, dst, 2048);
    CheckOnly(p, buf[..]);
    FieldBytes(p);
    TcpVerifiesIff(buf[..], external, dst);
  }

  lemma CheckOnly(p: seq<byte>, r: seq<byte>)
    requires Editable(p) && OnlyCheckChanged(p, r)
    ensures r[9] == p[9]
  {
  }

  /** Where the header fields are (RFC 791, section 3.1). */
  lemma FieldBytes(p: seq<byte>)
    requires |p| >= 20
    ensures HeaderLen(p) == 4 * (p[0] % 16) && TotalLen(p) / 256 == p[2] && TotalLen(p) % 256 == p[3]
    ensures Src(p) == p[12..16] && Dst(p) == p[16..20]
  {
  }

  /** A new destination address and the header checksum for it. */
  method Redirect(addr: seq<byte>, buf: array<byte>)
    requires |addr| == 4 && Editable(buf[..])
    modifies buf
    ensures SameExcept(old(buf[..]), buf[..], {16, 17, 18, 19, 10, 11})
    ensures Editable(buf[..]) && Dst(buf[..]) == addr && Src(buf[..]) == Src(old(buf[..]))
    ensures ChecksumOf(Header(buf[..])) == 0
  {
    ghost var p := buf[..];
    buf[16], buf[17], buf[18], buf[19] := addr[0], addr[1], addr[2], addr[3];
    ghost var q := buf[..];
    SameFields(p, q, {16, 17, 18, 19});
    FillHeaderChecksum(buf);
    SameTrans(p, q, buf[..], {16, 17, 18, 19}, {10, 11});
    assert {16, 17, 18, 19} + {10, 11} == {16, 17, 18, 19, 10, 11};
  }

  /** r is the incoming segment p redirected to the original source address: IP header and segment both verify. */
  ghost predicate IsTcpReply(p: seq<byte>, r: seq<byte>, original: seq<byte>)
    requires Editable(p) && |original| == 4
  {
    && SameExcept(p, r, {16, 17, 18, 19, 10, 11} + {HeaderLen(p) + 16, HeaderLen(p) + 17})
    && Editable(r) && Dst(r) == original
    && ChecksumOf(Header(r)) == 0
    && TcpVerifies(r, Src(p), original)
  }

  lemma TcpReplyFrame(p: seq<byte>, q: seq<byte>, r: seq<byte>)
    requires Editable(p) && Editable(q)
    requires SameExcept(p, q, {16, 17, 18, 19, 10, 11}) && OnlyCheckChanged(q, r)
    ensures SameExcept(p, r, {16, 17, 18, 19, 10, 11} + {HeaderLen(p) + 16, HeaderLen(p) + 17})
    ensures Editable(r) && Header(r) == Header(q) && Dst(r) == Dst(q)
  {
  }

  /** tcpReply_Edit: incoming segments, checksummed against the remote and the original source address. */
  method TcpReplyEdit(original: seq<byte>, buf: array<byte>) returns (len: int)
    requires |original| == 4 && Editable(buf[..])
    requires HeaderLen(buf[..]) + 18 <= TotalLen(buf[..])
    requires TotalLen(buf[..]) - HeaderLen(buf[..]) + 12 < 0x8000
    modifies buf
    ensures len == TotalLen(old(buf[..]))
    ensures IsTcpReply(old(buf[..]), buf[..], original)
    ensures SegmentVerifies(old(buf[..])[12..16], original, old(buf[9]), Payload(buf[..]))
  {
    ghost var p := buf[..];
    Redirect(original, buf);
    ghost var q := buf[..];
    SameFields(p, q, {16, 17, 18, 19, 10, 11});
    len := 256 * (buf[2] as int) + buf[3] as int;
    var src := [buf[12], buf[13], buf[14], buf[15]];
    FillTcpChecksum(buf, src, original, 65535);
    TcpReplyFrame(p, q, buf[..]);
    CheckOnly(q, buf[..]);
    FieldBytes(p);
    TcpVerifiesIff(buf[..], src, original);
  }

  /** The stored TCP check field is forced: two rewrites of one packet for the same addresses agree byte for byte,
      up to the two representations of zero in the check field. */
  lemma TcpRewriteUnique(p: seq<byte>, q: seq<byte>, r: seq<byte>, src: seq<byte>, dst: seq<byte>)
    requires Editable(p) && |src| == 4 && |dst| == 4
    requires HeaderLen(p) + 18 <= TotalLen(p)
    requires OnlyCheckChanged(p, q)
    requires OnlyCheckChanged(p, r)
    requires Editable(q) && Editable(r)
    requires TcpVerifies(q, src, dst) && TcpVerifies(r, src, dst)
    ensures var vq, vr := Get16(q, HeaderLen(p) + 16), Get16(r, HeaderLen(p) + 16);
            q == r || (vq == 0 && vr == 0xFFFF) || (vq == 0xFFFF && vr == 0)
  {
    TcpCheckField(p, q, src, dst);
    TcpCheckField(p, r, src, dst);
    SameCheckSamePacket(p, q, r);
  }

  lemma SameCheckSamePacket(p: seq<byte>, q: seq<byte>, r: seq<byte>)
    requires |p| >= 20 && HeaderLen(p) + 18 <= |p| && OnlyCheckChanged(p, q) && OnlyCheckChanged(p, r)
    ensures Get16(q, HeaderLen(p) + 16) == Get16(r, HeaderLen(p) + 16) ==> q == r
  {
  }

  /** The checksum of the segment with its check field zeroed. */
  ghost function TcpCheck(p: seq<byte>, src: seq<byte>, dst: seq<byte>): u16
    requires Editable(p) && |src| == 4 && |dst| == 4
    requires HeaderLen(p) + 18 <= TotalLen(p)
  {
    ChecksumOf(PseudoHeader(src, dst, p[9], TotalLen(p) - HeaderLen(p)) + Put16(Payload(p), 16, 0))
  }

  /** The check field of a verifying segment is determined by the other bytes. */
  lemma TcpCheckField(p: seq<byte>, q: seq<byte>, src: seq<byte>, dst: seq<byte>)
    requires Editable(p) && |src| == 4 && |dst| == 4
    requires HeaderLen(p) + 18 <= TotalLen(p)
    requires OnlyCheckChanged(p, q)
    requires Editable(q) && TcpVerifies(q, src, dst)
    ensures var v := Get16(q, HeaderLen(p) + 16);
            v == TcpCheck(p, src, dst) || (v == 0xFFFF && TcpCheck(p, src, dst) == 0)
  {
    SegmentAfter(p, q, src, dst);
    FieldDetermined(PseudoHeader(src, dst, p[9], TotalLen(p) - HeaderLen(p)), Payload(p), Get16(q, HeaderLen(p) + 16));
  }

  /** The verifying segment in terms of the old one. */
  lemma SegmentAfter(p: seq<byte>, q: seq<byte>, src: seq<byte>, dst: seq<byte>)
    requires Editable(p) && |src| == 4 && |dst| == 4
    requires HeaderLen(p) + 18 <= TotalLen(p)
    requires OnlyCheckChanged(p, q)
    requires Editable(q) && TcpVerifies(q, src, dst)
    ensures var ph := PseudoHeader(src, dst, p[9], TotalLen(p) - HeaderLen(p));
            ChecksumOf(ph + Put16(Payload(p), 16, Get16(q, HeaderLen(p) + 16))) == 0
  {
    PutBack(p, q, HeaderLen(p) + 16);
    PayloadPut(p, Get16(q, HeaderLen(p) + 16));
  }

  lemma FieldDetermined(ph: seq<byte>, payload: seq<byte>, v: u16)
    requires |ph| == 12 && |payload| >= 18 && ChecksumOf(ph + Put16(payload, 16, v)) == 0
    ensures var c := ChecksumOf(ph + Put16(payload, 16, 0)); v == c || (v == 0xFFFF && c == 0)
  {
    RestoredSegment(ph, payload, v);
    StoredChecksumUnique(ph + Put16(payload, 16, 0), 28, v);
  }

  lemma RestoredSegment(ph: seq<byte>, payload: seq<byte>, v: u16)
    requires |ph| == 12 && |payload| >= 18
    ensures ph + Put16(payload, 16, v) == Put16(ph + Put16(payload, 16, 0), 28, v)
    ensures Get16(ph + Put16(payload, 16, 0), 28) == 0
  {
    var base := Put16(payload, 16, 0);
    assert Put16(base, 16, v) == Put16(payload, 16, v);
    ConcatPut(ph, base, 16, v);
    GetPut(payload, 16, 0);
    assert (ph + base)[28] == base[16] && (ph + base)[29] == base[17];
  }
}
