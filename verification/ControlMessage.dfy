/** The Octane control message: its ordering, its 20-byte memory image and its journey in an IP packet. */
module ControlMessage {
  import opened Bytes
  import opened InternetChecksum
  import opened Packets

  const OCTANE: byte := 253
  const ANY_IP: u32 := 0xFFFF_FFFF
  const ANY_PORT: u16 := 0xFFFF

  /** struct octane_control; addresses and ports hold the words as loaded from the packet. */
  datatype OctaneControl = OctaneControl(
    action: byte, flags: byte, seqno: u16,
    srcIp: u32, dstIp: u32, srcPort: u16, dstPort: u16,
    protocol: u16, port: u16)

  // ---------- octane_control::operator< ----------

  predicate Less(a: OctaneControl, b: OctaneControl) {
    if a.srcIp != b.srcIp && a.srcIp != ANY_IP then a.srcIp < b.srcIp
    else if a.srcPort != b.srcPort && a.srcPort != ANY_PORT then a.srcPort < b.srcPort
    else if a.dstIp != b.dstIp && a.dstIp != ANY_IP then a.dstIp < b.dstIp
    else if a.dstPort != b.dstPort && a.dstPort != ANY_PORT then a.dstPort < b.dstPort
    else if a.action < b.action then true
    else a.port < b.port
  }

  /** The four fields compared first, in the order of comparison, and what each holds as a wildcard. */
  function Fields(m: OctaneControl): (r: seq<int>)
    ensures |r| == 4
  {
    [m.srcIp, m.srcPort, m.dstIp, m.dstPort]
  }

  const WILDCARDS := [0xFFFF_FFFF, 0xFFFF, 0xFFFF_FFFF, 0xFFFF]

  /** Field i separates a from b: they differ in it, and a has no wildcard there. */
  predicate Separates(a: OctaneControl, b: OctaneControl, i: nat)
    requires i < 4
  {
    Fields(a)[i] != Fields(b)[i] && Fields(a)[i] != WILDCARDS[i]
  }

  /** The comparison is decided by the first field that separates a from b; if there is none, a smaller action or a
      smaller target port makes a the lesser one. */
  lemma LessIff(a: OctaneControl, b: OctaneControl)
    ensures Less(a, b) <==>
            (exists i :: 0 <= i < 4 && Separates(a, b, i) && Fields(a)[i] < Fields(b)[i]
                         && forall j :: 0 <= j < i ==> !Separates(a, b, j))
            || ((forall j :: 0 <= j < 4 ==> !Separates(a, b, j)) && (a.action < b.action || a.port < b.port))
  {
    if i :| 0 <= i < 4 && Separates(a, b, i) && forall j :: 0 <= j < i ==> !Separates(a, b, j) {
      Decided(a, b, i);
    } else {
      NotSeparated(a, b);
    }
  }

  lemma Decided(a: OctaneControl, b: OctaneControl, i: nat)
    requires i < 4 && Separates(a, b, i) && forall j :: 0 <= j < i ==> !Separates(a, b, j)
    ensures Less(a, b) <==> Fields(a)[i] < Fields(b)[i]
  {
    assert i > 0 ==> !Separates(a, b, 0);
    assert i > 1 ==> !Separates(a, b, 1);
    assert i > 2 ==> !Separates(a, b, 2);
  }

  lemma NotSeparated(a: OctaneControl, b: OctaneControl)
    requires !exists i :: 0 <= i < 4 && Separates(a, b, i) && forall j :: 0 <= j < i ==> !Separates(a, b, j)
    ensures forall j :: 0 <= j < 4 ==> !Separates(a, b, j)
    ensures Less(a, b) <==> a.action < b.action || a.port < b.port
  {
    assert !Separates(a, b, 0);
    assert !Separates(a, b, 1);
    assert !Separates(a, b, 2);
    assert !Separates(a, b, 3);
  }

  /** What the order can tell apart. Sequence number, flags and protocol are not looked at. */
  datatype MessageClass = MessageClass(srcIp: u32, srcPort: u16, dstIp: u32, dstPort: u16, action: byte, port: u16)

  function ClassOf(m: OctaneControl): MessageClass {
    MessageClass(m.srcIp, m.srcPort, m.dstIp, m.dstPort, m.action, m.port)
  }

  /** Messages the order cannot tell apart are exactly those of one class, whatever their wildcards. */
  lemma EquivalentIffSameClass(a: OctaneControl, b: OctaneControl)
    ensures !Less(a, b) && !Less(b, a) <==> ClassOf(a) == ClassOf(b)
  {
  }

  /** No two of the messages are each less than the other. */
  ghost predicate Orderly(ms: set<OctaneControl>) {
    forall a, b :: a in ms && b in ms ==> !(Less(a, b) && Less(b, a))
  }

  /** What std::map demands of its comparison. */
  ghost predicate StrictWeakOrder(ms: set<OctaneControl>) {
    && (forall a :: a in ms ==> !Less(a, a))
    && (forall a, b, c :: a in ms && b in ms && c in ms && Less(a, b) && Less(b, c) ==> Less(a, c))
    && (forall a, b, c :: a in ms && b in ms && c in ms && Equivalent(a, b) && Equivalent(b, c) ==> Equivalent(a, c))
  }

  predicate Equivalent(a: OctaneControl, b: OctaneControl) {
    !Less(a, b) && !Less(b, a)
  }

  lemma LessTransitive(a: OctaneControl, b: OctaneControl, c: OctaneControl)
    requires Less(a, b) && Less(b, c)
    requires !Less(b, a) && !Less(c, b) && !(Less(a, c) && Less(c, a))
    ensures Less(a, c)
  {
  }

  /** The comparison orders a set of messages exactly when no two of them are each less than the other. */
  lemma {:induction false} StrictWeakOrderIff(ms: set<OctaneControl>)
    ensures StrictWeakOrder(ms) <==> Orderly(ms)
  {
    if Orderly(ms) {
      forall a, b, c | a in ms && b in ms && c in ms && Less(a, b) && Less(b, c) ensures Less(a, c) {
        LessTransitive(a, b, c);
      }
      forall a, b, c | a in ms && b in ms && c in ms && Equivalent(a, b) && Equivalent(b, c) ensures Equivalent(a, c) {
        EquivalentIffSameClass(a, b);
        EquivalentIffSameClass(b, c);
        EquivalentIffSameClass(a, c);
      }
    }
  }

  predicate SameFlow(a: OctaneControl, b: OctaneControl) {
    a.srcIp == b.srcIp && a.srcPort == b.srcPort && a.dstIp == b.dstIp && a.dstPort == b.dstPort
  }

  /** Both have a wildcard in the same fields (none at all between TCP messages, both ports between ICMP messages). */
  predicate SameWildcards(a: OctaneControl, b: OctaneControl) {
    && (a.srcIp == ANY_IP <==> b.srcIp == ANY_IP) && (a.dstIp == ANY_IP <==> b.dstIp == ANY_IP)
    && (a.srcPort == ANY_PORT <==> b.srcPort == ANY_PORT) && (a.dstPort == ANY_PORT <==> b.dstPort == ANY_PORT)
  }

  /** One flow, with action and port disagreeing about which message comes first. */
  predicate Crossing(a: OctaneControl, b: OctaneControl) {
    SameFlow(a, b) && ((a.action < b.action && b.port < a.port) || (b.action < a.action && a.port < b.port))
  }

  /** Messages with matching wildcards, such as all ICMP or all TCP messages, are ordered exactly
      when no two are crossing. */
  lemma {:induction false} OrderlyIff(ms: set<OctaneControl>)
    requires forall a, b :: a in ms && b in ms ==> SameWildcards(a, b)
    ensures Orderly(ms) <==> forall a, b :: a in ms && b in ms ==> !Crossing(a, b)
  {
    forall a, b | a in ms && b in ms ensures Less(a, b) && Less(b, a) <==> Crossing(a, b) {
      BothLessIff(a, b);
    }
  }

  lemma BothLessIff(a: OctaneControl, b: OctaneControl)
    requires SameWildcards(a, b)
    ensures Less(a, b) && Less(b, a) <==> Crossing(a, b)
  {
  }

  /** A wildcard on the left matches anything, so an ICMP message (both ports wild) and a TCP message
      from the same source can each be less than the other. */
  lemma MixedTrafficNotOrdered()
    ensures var icmp := OctaneControl(1, 0, 1, 10, 20, ANY_PORT, ANY_PORT, 1, 0);
            var tcp := OctaneControl(1, 0, 2, 10, 30, 5000, 0x5000, 6, 0);
            Less(icmp, tcp) && Less(tcp, icmp)
  {
  }

  // ---------- Memory image ----------

  /** The four bytes of a 32-bit word, lowest address first. */
  ghost function Quarters(v: u32): (r: seq<byte>)
    ensures |r| == 4 && Word32(r[0], r[1], r[2], r[3]) == v
  {
    var lo, hi := Halves(v % 0x1_0000), Halves(v / 0x1_0000);
    assert Word32(lo.1, lo.0, hi.1, hi.0) == v;
    var b0: byte, b1: byte, b2: byte, b3: byte :| Word32(b0, b1, b2, b3) == v;
    [b0, b1, b2, b3]
  }

  function Word32(b0: byte, b1: byte, b2: byte, b3: byte): u32 {
    Word(b1, b0) + 0x1_0000 * Word(b3, b2)
  }

  ghost function Pair(v: u16): (r: seq<byte>)
    ensures |r| == 2
  {
    [Halves(v).1, Halves(v).0]
  }

  /** The 20 bytes of the struct; it has no padding. */
  ghost function Encode(m: OctaneControl): (r: seq<byte>)
    ensures |r| == 20
  {
    [m.action, m.flags] + Pair(m.seqno) + Quarters(m.srcIp) + Quarters(m.dstIp)
    + Pair(m.srcPort) + Pair(m.dstPort) + Pair(m.protocol) + Pair(m.port)
  }

  function Decode(b: seq<byte>): OctaneControl
    requires |b| == 20
  {
    OctaneControl(
      b[0], b[1], Get16(b, 2), Word32(b[4], b[5], b[6], b[7]), Word32(b[8], b[9], b[10], b[11]),
      Get16(b, 12), Get16(b, 14), Get16(b, 16), Get16(b, 18))
  }

  /** Where the fields of the struct are. */
  lemma EncodeLayout(m: OctaneControl)
    ensures var b := Encode(m);
            && b[0] == m.action && b[1] == m.flags && Get16(b, 2) == m.seqno
            && Word32(b[4], b[5], b[6], b[7]) == m.srcIp && Word32(b[8], b[9], b[10], b[11]) == m.dstIp
            && Get16(b, 12) == m.srcPort && Get16(b, 14) == m.dstPort
            && Get16(b, 16) == m.protocol && Get16(b, 18) == m.port
  {
  }

  lemma DecodeEncode(m: OctaneControl)
    ensures Decode(Encode(m)) == m
  {
  }

  lemma {:induction false} EncodeDecode(b: seq<byte>)
    requires |b| == 20
    ensures Encode(Decode(b)) == b
  {
    var m := Decode(b);
    Word32Injective(Quarters(m.srcIp), b[4..8]);
    Word32Injective(Quarters(m.dstIp), b[8..12]);
    PairOfGet(b, 2);
    PairOfGet(b, 12);
    PairOfGet(b, 14);
    PairOfGet(b, 16);
    PairOfGet(b, 18);
    TenParts(b);
  }

  lemma TenParts(b: seq<byte>)
    requires |b| == 20
    ensures b == [b[0], b[1]] + b[2..4] + b[4..8] + b[8..12] + b[12..14] + b[14..16] + b[16..18] + b[18..20]
  {
  }

  lemma HighOrder(a: u16, b: u16, c: u16, d: u16)
    ensures b < d ==> a + 0x1_0000 * b < c + 0x1_0000 * d
  {
    if b < d {
      assert 0x1_0000 * (b as int) + 0x1_0000 <= 0x1_0000 * (d as int);
    }
  }

  lemma Word32Injective(x: seq<byte>, y: seq<byte>)
    requires |x| == |y| == 4 && Word32(x[0], x[1], x[2], x[3]) == Word32(y[0], y[1], y[2], y[3])
    ensures x == y
  {
    var a, b, c, d := Word(x[1], x[0]), Word(x[3], x[2]), Word(y[1], y[0]), Word(y[3], y[2]);
    HighOrder(a, b, c, d);
    HighOrder(c, d, a, b);
    assert a == c && b == d;
    WordInjective(x[1], x[0], y[1], y[0]);
    WordInjective(x[3], x[2], y[3], y[2]);
    FourEqual(x, y);
  }

  lemma FourEqual(x: seq<byte>, y: seq<byte>)
    requires |x| == |y| == 4 && x[0] == y[0] && x[1] == y[1] && x[2] == y[2] && x[3] == y[3]
    ensures x == y
  {
  }

  lemma PairOfGet(b: seq<byte>, k: nat)
    requires k + 2 <= |b|
    ensures Pair(Get16(b, k)) == b[k..k + 2]
  {
    var h := Halves(Get16(b, k));
    WordInjective(h.0, h.1, b[k + 1], b[k]);
  }

  // ---------- buildIpPacket ----------

  /** The header buildIpPacket writes; stored is the value of its ip_sum field. */
  ghost function NewHeader(n: nat, protocol: byte, src: seq<byte>, dst: seq<byte>, stored: u16): (r: seq<byte>)
    requires |src| == 4 && |dst| == 4 && 20 + n < 0x1_0000
    ensures |r| == 20
  {
    [0x45, 0, Halves(20 + n).0, Halves(20 + n).1, 0, 0, 0, 0, 255, protocol] + Pair(stored) + src + dst
  }

  /** The fields of a 20-byte header for a packet of total bytes: version 4 and 5 words, no service type, no
      identification, flags or fragment offset, time to live 255, and the checksum of the header as it was before the
      checksum was stored. */
  ghost predicate HeaderFields(h: seq<byte>, total: u16, protocol: byte, src: seq<byte>, dst: seq<byte>, unset: u16) {
    && |h| == 20
    && h[0] == 0x45 && h[1] == 0 && h[2] == total / 256 && h[3] == total % 256
    && h[4] == 0 && h[5] == 0 && h[6] == 0 && h[7] == 0 && h[8] == 255 && h[9] == protocol
    && Get16(h, 10) == ChecksumOf(Put16(h, 10, unset))
    && h[12..16] == src && h[16..20] == dst
  }

  lemma NewHeaderFields(n: nat, protocol: byte, src: seq<byte>, dst: seq<byte>, unset: u16, h: seq<byte>)
    requires |src| == 4 && |dst| == 4 && 20 + n < 0x1_0000
    requires h == NewHeader(n, protocol, src, dst, ChecksumOf(NewHeader(n, protocol, src, dst, unset)))
    ensures HeaderFields(h, 20 + n, protocol, src, dst, unset)
  {
    var stored := ChecksumOf(NewHeader(n, protocol, src, dst, unset));
    HalvesOf(20 + n);
    RestoreField(n, protocol, src, dst, stored, unset);
    assert h[10] == Halves(stored).1 && h[11] == Halves(stored).0;
  }

  /** buf is before with a header at 0 and then the payload at its own length, where it can hide a part of the header:
      the header is whole if the payload is empty or has 20 bytes or more. */
  ghost predicate Overlaid(before: seq<byte>, buf: seq<byte>, header: seq<byte>, payload: seq<byte>)
    requires |header| == 20 && 20 + |payload| <= |before| && 2 * |payload| <= |before|
  {
    var n := |payload|;
    && |buf| == |before| && buf[n..2 * n] == payload
    && (forall i :: 0 <= i < 20 && !(n <= i < 2 * n) ==> buf[i] == header[i])
    && (forall i :: 20 <= i < |buf| && !(n <= i < 2 * n) ==> buf[i] == before[i])
    && (n == 0 || n >= 20 ==> buf[..20] == header)
  }

  lemma ImageOverlaid(before: seq<byte>, header: seq<byte>, payload: seq<byte>)
    requires |header| == 20 && 20 + |payload| <= |before| && 2 * |payload| <= |before|
    ensures Overlaid(before, Image(before, header, payload), header, payload)
  {
    var n, b := |payload|, header + before[20..];
    var r := Image(before, header, payload);
    forall i | 0 <= i < |r| && !(n <= i < 2 * n) ensures r[i] == b[i] {
    }
    forall i | 20 <= i < |r| && !(n <= i < 2 * n) ensures r[i] == before[i] {
      assert b[i] == before[i];
    }
  }

  /** The buffer after the two copies: the header at 0, then the payload at its own length. */
  function Image(initial: seq<byte>, header: seq<byte>, payload: seq<byte>): (r: seq<byte>)
    requires |header| == 20 && 20 + |payload| <= |initial| && 2 * |payload| <= |initial|
    ensures |r| == |initial|
  {
    var b := header + initial[20..];
    b[..|payload|] + payload + b[2 * |payload|..]
  }

  /** buildIpPacket; unset is whatever the uninitialised ip_sum held when the header was checksummed. */
  method BuildIpPacket(buf: array<byte>, protocol: byte, src: seq<byte>, dst: seq<byte>, payload: seq<byte>, unset: u16)
    returns (ghost header: seq<byte>)
    requires |src| == 4 && |dst| == 4 && 20 + |payload| < 0x1_0000
    requires 20 + |payload| <= buf.Length ==> 2 * |payload| <= buf.Length
    modifies buf
    ensures buf.Length < 20 + |payload| ==> buf[..] == old(buf[..])
    ensures buf.Length >= 20 + |payload| ==>
              var stored := ChecksumOf(NewHeader(|payload|, protocol, src, dst, unset));
              buf[..] == Image(old(buf[..]), NewHeader(|payload|, protocol, src, dst, stored), payload)
    ensures buf.Length >= 20 + |payload| ==>
              && HeaderFields(header, 20 + |payload|, protocol, src, dst, unset)
              && Overlaid(old(buf[..]), buf[..], header, payload)
              && (|payload| == 0 || |payload| >= 20 ==>
                  HeaderFields(buf[..20], 20 + |payload|, protocol, src, dst, unset))
  {
    var n := |payload|;
    header := [];
    if buf.Length < 20 + n {
      return;
    }
    ghost var before := buf[..];
    var filled := FillHeader(n, protocol, src, dst, unset);
    header := filled[..];
    Copy(buf, 0, filled[..]);
    assert buf[..] == header + before[20..];
    Copy(buf, n, payload);
    assert n + |payload| == 2 * n;
    ImageOverlaid(before, header, payload);
  }

  method FillHeader(n: nat, protocol: byte, src: seq<byte>, dst: seq<byte>, unset: u16) returns (header: array<byte>)
    requires |src| == 4 && |dst| == 4 && 20 + n < 0x1_0000
    ensures fresh(header) && header.Length == 20
    ensures header[..] == NewHeader(n, protocol, src, dst, ChecksumOf(NewHeader(n, protocol, src, dst, unset)))
    ensures HeaderFields(header[..], 20 + n, protocol, src, dst, unset)
  {
    HalvesOf(20 + n);
    HalvesOf(unset);
    var fixed := [0x45, 0, (20 + n) / 256, (20 + n) % 256, 0, 0, 0, 0, 255, protocol];
    var bytes: seq<byte> := fixed + [unset % 256, unset / 256] + src + dst;
    assert bytes == NewHeader(n, protocol, src, dst, unset);
    header := new byte[20](i requires 0 <= i < 20 => bytes[i]);
    assert header[..] == header[0..20] == bytes;
    var sum := Checksum(header, 0, 20);
    Store(header, 10, sum);
    RestoreField(n, protocol, src, dst, unset, sum);
    NewHeaderFields(n, protocol, src, dst, unset, header[..]);
  }

  lemma RestoreField(n: nat, protocol: byte, src: seq<byte>, dst: seq<byte>, v: u16, w: u16)
    requires |src| == 4 && |dst| == 4 && 20 + n < 0x1_0000
    ensures Put16(NewHeader(n, protocol, src, dst, v), 10, w) == NewHeader(n, protocol, src, dst, w)
  {
  }

  // ---------- octaneUnpack and octaneReply_Edit ----------

  /** Where octaneUnpack takes the message from, and how many bytes it copies. */
  function MessageAt(p: seq<byte>): nat
    requires |p| >= 20
  {
    if HeaderLen(p) == 0 then 20 else HeaderLen(p)
  }

  function MessageLen(p: seq<byte>): int
    requires |p| >= 20
  {
    if TotalLen(p) == 0 then 20 else TotalLen(p) - MessageAt(p)
  }

  predicate Unpackable(p: seq<byte>) {
    |p| >= 20 && 0 <= MessageLen(p) <= 20 && MessageAt(p) + 4 <= |p| && MessageAt(p) + MessageLen(p) <= |p|
  }

  /** The 20 bytes of the caller's struct after unpacking p over its previous contents. */
  function Unpacked(p: seq<byte>, before: seq<byte>): (r: seq<byte>)
    requires Unpackable(p) && |before| == 20
    ensures |r| == 20
  {
    p[MessageAt(p)..MessageAt(p) + MessageLen(p)] + before[MessageLen(p)..]
  }

  /** r is the struct over which the bytes that p announces behind its header have been copied. */
  ghost predicate UnpackedFrom(p: seq<byte>, before: seq<byte>, r: seq<byte>, seqno: int)
    requires |p| >= 20 && |before| == 20
  {
    var h := if p[0] % 16 == 0 then 20 else 4 * (p[0] % 16);
    var len := if p[2] == 0 && p[3] == 0 then 20 else Word(p[2], p[3]) - h;
    && 0 <= len <= 20 && h + len <= |p| && h + 4 <= |p|
    && |r| == 20 && r[..len] == p[h..h + len] && r[len..] == before[len..] && seqno == Word(p[h + 3], p[h + 2])
  }

  lemma UnpackedBytes(p: seq<byte>, before: seq<byte>, r: seq<byte>, seqno: int)
    requires Unpackable(p) && |before| == 20
    requires r == Unpacked(p, before) && seqno == Get16(p, MessageAt(p) + 2)
    ensures UnpackedFrom(p, before, r, seqno)
  {
    MessageBytes(p);
  }

  lemma MessageBytes(p: seq<byte>)
    requires |p| >= 20
    ensures MessageAt(p) == if p[0] % 16 == 0 then 20 else 4 * (p[0] % 16)
    ensures MessageLen(p) == if p[2] == 0 && p[3] == 0 then 20 else Word(p[2], p[3]) - MessageAt(p)
  {
    WordZero(p[2], p[3]);
  }

  method OctaneUnpack(buf: array<byte>, out: array<byte>) returns (seqno: int)
    requires buf != out && out.Length == 20 && Unpackable(buf[..])
    modifies out
    ensures out[..] == Unpacked(buf[..], old(out[..]))
    ensures seqno == Get16(buf[..], MessageAt(buf[..]) + 2)
    ensures UnpackedFrom(buf[..], old(out[..]), out[..], seqno)
  {
    ghost var p, before := buf[..], out[..];
    var h, len := MessageBounds(buf);
    Copy(out, 0, buf[h..h + len]);
    seqno := Load(buf, h + 2);
    UnpackedBytes(p, before, out[..], seqno);
  }

  method MessageBounds(buf: array<byte>) returns (h: nat, len: int)
    requires buf.Length >= 20
    ensures h == MessageAt(buf[..]) && len == MessageLen(buf[..])
  {
    h := buf[0] % 16 * 4;
    if h == 0 {
      h := 20;
    }
    var total := 256 * (buf[2] as int) + buf[3] as int;
    if total == 0 {
      len := 20;
    } else {
      len := total - h;
    }
  }

  /** The secondary's echo: the same buffer with the flags byte set. */
  function Acknowledged(p: seq<byte>): (r: seq<byte>)
    requires |p| >= 20 && HeaderLen(p) + 2 <= |p|
    ensures |r| == |p|
  {
    if p[9] != OCTANE then p else p[HeaderLen(p) + 1 := 1]
  }

  method OctaneReplyEdit(buf: array<byte>)
    requires buf.Length >= 20 && HeaderLen(buf[..]) + 2 <= buf.Length
    modifies buf
    ensures buf[..] == Acknowledged(old(buf[..]))
    ensures old(buf[9]) != 253 ==> buf[..] == old(buf[..])
    ensures old(buf[9]) == 253 ==> buf[..] == old(buf[..])[4 * (old(buf[0]) % 16) + 1 := 1]
  {
    if buf[9] != OCTANE {
      return;
    }
    var h := buf[0] % 16 * 4;
    buf[h + 1] := 1;
  }

  // ---------- Round trips ----------

  lemma ControlHeader(src: seq<byte>, dst: seq<byte>, stored: u16)
    requires |src| == 4 && |dst| == 4
    ensures var h := NewHeader(20, OCTANE, src, dst, stored);
            h[0] == 0x45 && h[2] == 0 && h[3] == 40 && h[9] == OCTANE
  {
    WordInjective(Halves(40).0, Halves(40).1, 0, 40);
  }

  lemma BuiltPacket(payload: seq<byte>, initial: seq<byte>, src: seq<byte>, dst: seq<byte>, stored: u16)
    requires |payload| == 20 && |initial| >= 40 && |src| == 4 && |dst| == 4
    ensures var p := Image(initial, NewHeader(20, OCTANE, src, dst, stored), payload);
            && p[20..40] == payload && p[9] == OCTANE && p[0] == 0x45
            && HeaderLen(p) == 20 && TotalLen(p) == 40 && Unpackable(p)
  {
    ImageParts(initial, NewHeader(20, OCTANE, src, dst, stored), payload);
    ControlHeader(src, dst, stored);
  }

  /** A payload of 20 bytes lands right behind the header. */
  lemma ImageParts(initial: seq<byte>, header: seq<byte>, payload: seq<byte>)
    requires |header| == |payload| == 20 && 40 <= |initial|
    ensures Image(initial, header, payload)[20..40] == payload
    ensures forall i :: 0 <= i < 20 ==> Image(initial, header, payload)[i] == header[i]
  {
  }

  /** Unpacking a built control packet gives back the message, whatever the buffers held before. */
  lemma {:induction false} ControlRoundTrip(m: OctaneControl, initial: seq<byte>, src: seq<byte>, dst: seq<byte>,
                                            stored: u16, before: seq<byte>)
    requires |initial| >= 40 && |src| == 4 && |dst| == 4 && |before| == 20
    ensures var p := Image(initial, NewHeader(20, OCTANE, src, dst, stored), Encode(m));
            Unpackable(p) && Decode(Unpacked(p, before)) == m && Get16(p, MessageAt(p) + 2) == m.seqno
  {
    var p := Image(initial, NewHeader(20, OCTANE, src, dst, stored), Encode(m));
    BuiltPacket(Encode(m), initial, src, dst, stored);
    assert Unpacked(p, before) == Encode(m);
    DecodeEncode(m);
    SliceWord(p);
  }

  /** What the primary reads from the echoed packet: the same message with only the flags set. */
  lemma AckRoundTrip(m: OctaneControl, initial: seq<byte>, src: seq<byte>, dst: seq<byte>, stored: u16,
                     before: seq<byte>)
    requires |initial| >= 40 && |src| == 4 && |dst| == 4 && |before| == 20
    ensures var p := Image(initial, NewHeader(20, OCTANE, src, dst, stored), Encode(m));
            HeaderLen(p) == 20 && Unpackable(Acknowledged(p))
            && Decode(Unpacked(Acknowledged(p), before)) == m.(flags := 1)
            && Get16(Acknowledged(p), MessageAt(Acknowledged(p)) + 2) == m.seqno
  {
    var p := Image(initial, NewHeader(20, OCTANE, src, dst, stored), Encode(m));
    BuiltPacket(Encode(m), initial, src, dst, stored);
    var q := Acknowledged(p);
    assert q[20..40] == p[20..40][1 := 1];
    FlagsByte(m);
    assert Unpacked(q, before) == Encode(m.(flags := 1));
    DecodeEncode(m.(flags := 1));
    SliceWord(q);
  }

  lemma FlagsByte(m: OctaneControl)
    ensures Encode(m)[1 := 1] == Encode(m.(flags := 1))
  {
  }

  lemma SliceWord(p: seq<byte>)
    requires |p| >= 40
    ensures Get16(p, 22) == Get16(p[20..40], 2)
  {
  }

  lemma ImageGap(initial: seq<byte>, header: seq<byte>, payload: seq<byte>, i: nat)
    requires |header| == 20 && 20 + |payload| <= |initial| && 2 * |payload| <= |initial|
    requires 20 <= i < |initial| && (i < |payload| || 2 * |payload| <= i)
    ensures Image(initial, header, payload)[i] == initial[i]
  {
    var b := header + initial[20..];
    assert b[i] == initial[i];
  }

  /** buildIpPacket copies the payload to offset |payload|, the header announces it at offset 20. In a zeroed buffer
      the two agree for every payload of n bytes exactly when n is 20 (or 0). */
  lemma PayloadWhereHeaderSays(n: nat, header: seq<byte>, size: nat)
    requires |header| == 20 && 20 + n <= size && 2 * n <= size
    ensures (forall payload: seq<byte> :: |payload| == n ==>
              Image(seq(size, _ => 0), header, payload)[20..20 + n] == payload)
            <==> n == 0 || n == 20
  {
    var zeros: seq<byte> := seq(size, _ => 0);
    if n != 0 && n != 20 {
      var ones: seq<byte> := seq(n, _ => 1);
      var p := Image(zeros, header, ones);
      var k := if n < 20 then n - 1 else 0;
      assert p[20..20 + n][k] == p[20 + k];
      ImageGap(zeros, header, ones, 20 + k);
      assert ones[k] == 1;
    } else {
      forall payload: seq<byte> | |payload| == n ensures Image(zeros, header, payload)[20..20 + n] == payload {
        if n == 20 {
          ImageParts(zeros, header, payload);
        }
      }
    }
  }
}
