/** The event loops primaryRouter_s4 to primaryRouter_s7: one class for the router state they update. */
module PrimaryRouters {
  import opened Bytes
  import opened Timevals
  import opened EventQueues
  import opened TimerLibrary
  import opened ControlMessage
  import opened PrimaryProtocol
  import opened Draining

  datatype Option<T> = None | Some(value: T)

  /** What a tunnel packet makes the primary send: nothing (the flow has a rule, or the packet is of no interest),
      one message (a local answer), a rule and its reverse, or a rule and its reverse on two routers in a row. */
  datatype TunnelInput =
    | Nothing(refresh: bool)
    | One(req: Request, dst: Addr)
    | Two(req: Request, revPort: u16, dst: Addr)
    | Four(req: Request, revPort: u16, dst: Addr, req2: Request, revPort2: u16, dst2: Addr)

  /** A control message from a secondary, or any other packet. */
  datatype SocketInput = Control(msg: OctaneControl) | Other(refresh: bool)

  /** How select returns; left is what it leaves in its timeout argument. */
  datatype Wakeup =
    | TimedOut(left: Timeval)
    | Ready(left: Timeval, tunnel: Option<TunnelInput>, socket: Option<SocketInput>)

  const IDLE := Timeval(15, 0)

  /** Clock readings of one loop iteration in order, the first two before select returns. After select the clock
      moves by less than the retransmission time. */
  ghost predicate ClockOk(clock: nat -> Timeval) {
    Rising(clock) && (forall i :: 2 <= i ==> Micros(clock(i)) < Micros(clock(2)) + WINDOW)
  }

  /** Readings of a clock that does not go back. */
  ghost predicate Rising(clock: nat -> Timeval) {
    (forall i :: Normal(clock(i))) && (forall i, j :: i <= j ==> Cmp(clock(i), clock(j)) <= 0)
  }

  /** n timers fired one after the other, each at the reading before the next check of the head. */
  ghost function Fires(clock: nat -> Timeval, n: nat): (r: seq<Action>)
    ensures |r| == n
  {
    seq(n, i requires 0 <= i < n => Fire(clock(2 + 2 * i)))
  }

  /** The check before select: a due head is fired at once. */
  ghost function HeadCheck(q: Queue, clock: nat -> Timeval): seq<Action> {
    if HeadDue(q, clock(0)) then [Fire(clock(1))] else []
  }

  /** The queue after that check. */
  ghost function Checked(q: Queue, clock: nat -> Timeval): (r: Queue)
    ensures |r| == |q|
  {
    if HeadDue(q, clock(0)) then Insert(q[1..], Rescheduled(q[0], clock(1))) else q
  }

  /** The first n timers are the head and, behind it, exactly those due at now. */
  ghost predicate HeadAndDue(q: Queue, n: nat, now: Timeval) {
    1 <= n <= |q| && forall j :: 1 <= j < |q| ==> (j < n <==> Due(q[j], now))
  }

  ghost predicate NoneDue(q: Queue, now: Timeval) {
    forall t :: t in q ==> !Due(t, now)
  }

  /** The timers fired in a turn that times out: the head if it was due, then the first n. */
  ghost function FiredTimers(q: Queue, clock: nat -> Timeval, n: nat): Queue
    requires n <= |q|
  {
    (if HeadDue(q, clock(0)) then [q[0]] else []) + Checked(q, clock)[..n]
  }

  ghost function TunnelActions(t: Option<TunnelInput>, clock: nat -> Timeval): seq<Action> {
    match t
    case None => []
    case Some(Nothing(_)) => []
    case Some(One(req, dst)) => [Send(req, dst, clock(2))]
    case Some(Two(req, rev, dst)) => TwoSends(req, rev, dst, clock(2), clock(3))
    case Some(Four(req, rev, dst, req2, rev2, dst2)) =>
      TwoSends(req, rev, dst, clock(2), clock(3)) + TwoSends(req2, rev2, dst2, clock(4), clock(5))
  }

  /** A rule for a flow and one for its reverse. */
  function TwoSends(req: Request, revPort: u16, dst: Addr, now1: Timeval, now2: Timeval): seq<Action> {
    [Send(req, dst, now1), Send(Reverse(req, revPort), dst, now2)]
  }

  ghost function SocketActions(s: Option<SocketInput>): seq<Action> {
    match s
    case Some(Control(msg)) => [Echo(msg)]
    case _ => []
  }

  /** No timer is further away than the retransmission time. */
  ghost predicate Near(q: Queue, now: Timeval) {
    forall i :: 0 <= i < |q| ==> Micros(q[i].expiry) <= Micros(now) + WINDOW
  }

  // ---------- What packets make of the state, field by field ----------

  /** m asks for the rule of r. */
  predicate Installs(m: OctaneControl, r: Request) {
    && m.flags == 0 && m.action == r.action && m.protocol == r.protocol && m.port == r.port
    && m.srcIp == r.srcIp && m.srcPort == r.srcPort && m.dstIp == r.dstIp && m.dstPort == r.dstPort
  }

  /** m asks for the rule of the flow in the other direction: both addresses and both ports are exchanged. */
  predicate InstallsReverse(m: OctaneControl, r: Request, port: u16) {
    && m.flags == 0 && m.action == r.action && m.protocol == r.protocol && m.port == port
    && m.srcIp == r.dstIp && m.srcPort == r.dstPort && m.dstIp == r.srcIp && m.dstPort == r.srcPort
  }

  /** A rule and its reverse, both to dst. */
  predicate PairTo(a: Datagram, b: Datagram, r: Request, revPort: u16, dst: Addr) {
    a.dst == dst && b.dst == dst && Installs(a.msg, r) && InstallsReverse(b.msg, r, revPort)
  }

  /** ds is what a tunnel packet makes the primary send. */
  predicate TunnelAnswered(t: Option<TunnelInput>, ds: seq<Datagram>) {
    match t
    case None => ds == []
    case Some(Nothing(_)) => ds == []
    case Some(One(req, dst)) => |ds| == 1 && ds[0].dst == dst && Installs(ds[0].msg, req)
    case Some(Two(req, rev, dst)) => |ds| == 2 && PairTo(ds[0], ds[1], req, rev, dst)
    case Some(Four(req, rev, dst, req2, rev2, dst2)) =>
      |ds| == 4 && PairTo(ds[0], ds[1], req, rev, dst) && PairTo(ds[2], ds[3], req2, rev2, dst2)
  }

  /** The timer with handle hdl that sends d again 2000 milliseconds after now. */
  ghost function TimerFor(hdl: int, d: Datagram, now: Timeval): Timer<OctaneTimer> {
    Timer(hdl, 2000, OctaneTimer(d.msg, d.msg.seqno, d.dst), Later(now, 2000))
  }

  ghost function TimersFor(hdl: int, ds: seq<Datagram>, times: seq<Timeval>): (r: Queue)
    requires |ds| <= |times|
    ensures |r| == |ds|
  {
    seq(|ds|, i requires 0 <= i < |ds| => TimerFor(hdl + i, ds[i], times[i]))
  }

  ghost predicate HasNumber(ds: seq<Datagram>, seqno: int) {
    exists i :: 0 <= i < |ds| && ds[i].msg.seqno == seqno
  }

  /** unAck' is unAck with the numbers of ds recorded under consecutive handles. */
  ghost predicate Recorded(unAck: map<int, int>, unAck': map<int, int>, hdl: int, ds: seq<Datagram>) {
    && (forall s :: s in unAck' <==> s in unAck || HasNumber(ds, s))
    && (forall i :: 0 <= i < |ds| ==> ds[i].msg.seqno in unAck' && unAck'[ds[i].msg.seqno] == hdl + i)
    && (forall s :: s in unAck && !HasNumber(ds, s) ==> unAck'[s] == unAck[s])
  }

  ghost predicate Consecutive(seqno: u16, ds: seq<Datagram>) {
    forall i :: 0 <= i < |ds| ==> ds[i].msg.seqno == (seqno + i) % 0x1_0000
  }

  /** State r comes from p by sending ds: consecutive 16-bit numbers, and for each number an entry and one timer. */
  ghost predicate SentFrom(p: Primary, r: Primary, ds: seq<Datagram>, times: seq<Timeval>)
    requires |ds| <= |times|
  {
    NumberedFrom(p, r, ds) && ArmedFrom(p, r, ds, times) && (ds == [] ==> r == p)
  }

  ghost predicate NumberedFrom(p: Primary, r: Primary, ds: seq<Datagram>) {
    && Consecutive(p.seqnoCnt, ds) && r.seqnoCnt == (p.seqnoCnt + |ds|) % 0x1_0000
    && Recorded(p.unAck, r.unAck, p.nextHandle, ds) && r.nextHandle == p.nextHandle + |ds|
  }

  ghost predicate ArmedFrom(p: Primary, r: Primary, ds: seq<Datagram>, times: seq<Timeval>)
    requires |ds| <= |times|
  {
    multiset(r.queue) == multiset(p.queue) + multiset(TimersFor(p.nextHandle, ds, times))
  }

  /** State r comes from p by a control packet: one with flags 1 takes out the entry of its number and the timer with
      that handle, which for a bijection is the one timer that carries the number; any other changes nothing. */
  ghost predicate AckedFrom(p: Primary, r: Primary, msg: OctaneControl) {
    if msg.flags != 1 then r == p
    else
      var hdl := if msg.seqno in p.unAck then p.unAck[msg.seqno] else 0;
      && r.seqnoCnt == p.seqnoCnt && r.nextHandle == p.nextHandle
      && (forall s :: s in r.unAck <==> s in p.unAck && s != msg.seqno)
      && (forall s :: s in r.unAck ==> r.unAck[s] == p.unAck[s])
      && (DistinctHandles(p.queue) ==> forall t :: t in r.queue <==> t in p.queue && t.hdl != hdl)
      && (Registered(p) ==> forall t :: t in r.queue <==> t in p.queue && t.cb.seqno != msg.seqno)
  }

  ghost predicate SocketRead(p: Primary, r: Primary, s: Option<SocketInput>) {
    match s
    case Some(Control(msg)) => AckedFrom(p, r, msg)
    case _ => r == p
  }

  /** State r comes from p by the check before select: a due head is queued again for 2000 milliseconds later. */
  ghost predicate CheckedFrom(p: Primary, r: Primary, clock: nat -> Timeval) {
    if !HeadDue(p.queue, clock(0)) then r == p
    else
      && r == p.(queue := r.queue)
      && multiset(r.queue) == multiset(p.queue[1..]) + multiset{p.queue[0].(expiry := Later(clock(1), 2000))}
  }

  /** The stages of a turn in which packets have arrived: the state after the head check, the datagrams sent for the
      tunnel packet, and the state after that. */
  datatype Work = Work(checked: Primary, sent: seq<Datagram>, numbered: Primary)

  /** What packets that arrive make of state p and socket output out. */
  ghost predicate PacketsRead(p: Primary, out: seq<Datagram>, r: Primary, o: seq<Datagram>,
                              tunnel: Option<TunnelInput>, socket: Option<SocketInput>, clock: nat -> Timeval,
                              work: Work) {
    && CheckedFrom(p, work.checked, clock)
    && TunnelAnswered(tunnel, work.sent)
    && |work.sent| <= 4
    && SentFrom(work.checked, work.numbered, work.sent, [clock(2), clock(3), clock(4), clock(5)])
    && SocketRead(work.numbered, r, socket)
    && o == out + (if HeadDue(p.queue, clock(0)) then [Datagram(p.queue[0].cb.dst, p.queue[0].cb.msg)] else [])
            + work.sent
  }

  /** Each packet read sets the flag: a control packet or a sent rule to true, other packets as they ask. */
  predicate RefreshAfter(wakeup: Wakeup, refresh0: bool) {
    match wakeup
    case TimedOut(_) => refresh0
    case Ready(_, _, Some(Control(_))) => true
    case Ready(_, _, Some(Other(r))) => r
    case Ready(_, None, None) => refresh0
    case Ready(_, Some(Nothing(r)), None) => r
    case Ready(_, Some(_), None) => true
  }

  /** The two timeouts of a turn: told is what select is given, timeout what the turn leaves for the next one. */
  ghost predicate Timed(q: Queue, now: Timeval, timeout0: Timeval, refresh0: bool, wakeup: Wakeup, told: Timeval,
                        timeout: Timeval, refresh: bool) {
    && (if q == [] then told == timeout0 else Told(q, now, told))
    && (refresh <==> RefreshAfter(wakeup, refresh0))
    && timeout == if refresh || (wakeup.TimedOut? && q != []) then Timeval(15, 0) else wakeup.left
  }

  ghost function Resends(q: Queue): (r: seq<Datagram>)
    ensures |r| == |q|
  {
    seq(|q|, i requires 0 <= i < |q| => Resend(q[i]))
  }

  class PrimaryRouter {
    var seqnoCnt: u16
    var unAck: map<int, int>
    const timers: Timers<OctaneTimer>
    var outbox: seq<Datagram>  // everything handed to sendMsg so far

    ghost predicate Valid()
      reads this, timers, timers.Repr
    {
      this !in timers.Repr && timers.Valid()
    }

    /** The retransmission state. */
    ghost function P(): Primary
      requires Valid()
      reads this, timers, timers.Repr
    {
      Primary(seqnoCnt, unAck, timers.nextHandle, timers.Live())
    }

    constructor ()
      ensures Valid() && fresh(timers.Repr) && P() == START && outbox == []
    {
      seqnoCnt, unAck, outbox := 1, map[], [];
      timers := new Timers();
    }

    method ExecuteNextTimer(now: Timeval)
      requires Valid() && Normal(now) && P().queue != []
      modifies this`outbox, timers.Repr
      ensures Valid() && fresh(timers.Repr - old(timers.Repr))
      ensures P() == Apply(old(P()), Fire(now))
      ensures outbox == old(outbox) + Emits(old(P()), Fire(now))
      ensures outbox == old(outbox) + [Datagram(old(P()).queue[0].cb.dst, old(P()).queue[0].cb.msg)]
    {
      var fired := timers.ExecuteNextTimer(_ => RESCHEDULE_SAME, now);
      outbox := outbox + [Datagram(fired.dst, fired.msg)];
    }

    // ---------- Sending ----------

    /** createOctaneMsg: a local rule (trulySend false) does not use up a sequence number. */
    method CreateOctaneMsg(req: Request, trulySend: bool) returns (msg: OctaneControl, seqno: u16)
      modifies this`seqnoCnt
      ensures seqno == old(seqnoCnt)
      ensures msg == NewMessage(req, if trulySend then seqno else 0)
      ensures Installs(msg, req) && msg.seqno == if trulySend then seqno else 0
      ensures seqnoCnt == if trulySend then (seqno + 1) % 0x1_0000 else seqno
    {
      seqno := seqnoCnt;
      msg := NewMessage(req, 0);
      if trulySend {
        msg := msg.(seqno := seqnoCnt);
        seqnoCnt := (seqnoCnt + 1) % 0x1_0000;
      }
    }

    method CreateReverseOctaneMsg(original: OctaneControl, port: u16, trulySend: bool) returns (msg: OctaneControl,
                                  seqno: u16)
      modifies this`seqnoCnt
      ensures seqno == old(seqnoCnt)
      ensures msg == NewMessage(Reverse(RequestOf(original), port), if trulySend then seqno else 0)
      ensures msg.srcIp == original.dstIp && msg.dstIp == original.srcIp
      ensures msg.srcPort == original.dstPort && msg.dstPort == original.srcPort
      ensures msg.action == original.action && msg.protocol == original.protocol && msg.port == port
      ensures msg.flags == 0 && msg.seqno == if trulySend then seqno else 0
      ensures seqnoCnt == if trulySend then (seqno + 1) % 0x1_0000 else seqno
    {
      seqno := seqnoCnt;
      msg := OctaneControl(original.action, 0, 0, original.dstIp, original.srcIp,
                           original.dstPort, original.srcPort, original.protocol, port);
      if trulySend {
        msg := msg.(seqno := seqnoCnt);
        seqnoCnt := (seqnoCnt + 1) % 0x1_0000;
      }
    }

    method Arm(cb: OctaneTimer, now: Timeval) returns (t: int)
      requires Valid() && Normal(now)
      modifies timers.Repr
      ensures Valid() && fresh(timers.Repr - old(timers.Repr)) && t == old(P()).nextHandle
      ensures P() == old(P()).(nextHandle := t + 1, queue := Insert(old(P()).queue, NewTimer(t, cb, now)))
    {
      t := timers.AddTimer(RETRANSMIT_AFTER, cb, now);
    }

    method ArmTwo(cb1: OctaneTimer, cb2: OctaneTimer, now1: Timeval, now2: Timeval) returns (t1: int, t2: int)
      requires Valid() && Normal(now1) && Normal(now2)
      modifies timers.Repr
      ensures Valid() && fresh(timers.Repr - old(timers.Repr))
      ensures t1 == old(P()).nextHandle && t2 == t1 + 1
      ensures P() == old(P()).(nextHandle := t2 + 1,
                queue := Insert(Insert(old(P()).queue, NewTimer(t1, cb1, now1)), NewTimer(t2, cb2, now2)))
    {
      t1 := Arm(cb1, now1);
      t2 := Arm(cb2, now2);
    }

    method ArmFour(cb1: OctaneTimer, cb2: OctaneTimer, cb3: OctaneTimer, cb4: OctaneTimer,
                   now1: Timeval, now2: Timeval, now3: Timeval, now4: Timeval)
      returns (t1: int, t2: int, t3: int, t4: int)
      requires Valid() && Normal(now1) && Normal(now2) && Normal(now3) && Normal(now4)
      modifies timers.Repr
      ensures Valid() && fresh(timers.Repr - old(timers.Repr))
      ensures t1 == old(P()).nextHandle && t2 == t1 + 1 && t3 == t2 + 1 && t4 == t3 + 1
      ensures P() == old(P()).(nextHandle := t4 + 1,
                queue := Insert(Insert(Insert(Insert(old(P()).queue, NewTimer(t1, cb1, now1)), NewTimer(t2, cb2, now2)),
                                       NewTimer(t3, cb3, now3)), NewTimer(t4, cb4, now4)))
    {
      t1, t2 := ArmTwo(cb1, cb2, now1, now2);
      t3, t4 := ArmTwo(cb3, cb4, now3, now4);
    }

    method Register(seqno: int, t: int)
      requires Valid()
      modifies this`unAck
      ensures Valid() && P() == old(P()).(unAck := old(P()).unAck[seqno := t])
    {
      unAck := unAck[seqno := t];
    }

    method RegisterTwo(seqno1: int, t1: int, seqno2: int, t2: int)
      requires Valid()
      modifies this`unAck
      ensures Valid() && P() == old(P()).(unAck := old(P()).unAck[seqno1 := t1][seqno2 := t2])
    {
      unAck := unAck[seqno1 := t1];
      unAck := unAck[seqno2 := t2];
    }

    method RegisterFour(seqno1: int, t1: int, seqno2: int, t2: int, seqno3: int, t3: int, seqno4: int, t4: int)
      requires Valid()
      modifies this`unAck
      ensures Valid()
      ensures P() == old(P()).(unAck := old(P()).unAck[seqno1 := t1][seqno2 := t2][seqno3 := t3][seqno4 := t4])
    {
      unAck := unAck[seqno1 := t1];
      unAck := unAck[seqno2 := t2];
      unAck := unAck[seqno3 := t3];
      unAck := unAck[seqno4 := t4];
    }

    method SendOne(req: Request, dst: Addr, now: Timeval) returns (ghost ds: seq<Datagram>)
      requires Valid() && Normal(now)
      modifies this`seqnoCnt, this`unAck, this`outbox, timers.Repr
      ensures Valid() && fresh(timers.Repr - old(timers.Repr))
      ensures P() == ApplyAll(old(P()), [Send(req, dst, now)])
      ensures outbox == old(outbox) + EmitsAll(old(P()), [Send(req, dst, now)])
      ensures outbox == old(outbox) + ds && |ds| == 1 && ds[0].dst == dst && Installs(ds[0].msg, req)
    {
      ghost var p := P();
      var cb := CreateAndSendOne(req, dst);
      var t1 := Arm(cb, now);
      Register(cb.seqno, t1);
      JustOne(p, Send(req, dst, now));
      ds := EmitsAll(p, [Send(req, dst, now)]);
    }

    method CreateAndSendOne(req: Request, dst: Addr) returns (cb: OctaneTimer)
      requires Valid()
      modifies this`seqnoCnt, this`outbox
      ensures cb == OctaneTimer(NewMessage(req, old(seqnoCnt)), old(seqnoCnt), dst)
      ensures Valid() && P() == old(P()).(seqnoCnt := Increment(cb.seqno))
      ensures outbox == old(outbox) + [Datagram(dst, cb.msg)]
    {
      var msg, seqno := CreateOctaneMsg(req, true);
      outbox := outbox + [Datagram(dst, msg)];
      cb := OctaneTimer(msg, seqno, dst);
    }

    /** A rule and its reverse: both are created and sent before their timers are armed and recorded,
        with the effect of two sends in a row. */
    method SendTwo(req: Request, revPort: u16, dst: Addr, now1: Timeval, now2: Timeval)
      returns (ghost ds: seq<Datagram>)
      requires Valid() && Normal(now1) && Normal(now2)
      modifies this`seqnoCnt, this`unAck, this`outbox, timers.Repr
      ensures Valid() && fresh(timers.Repr - old(timers.Repr))
      ensures P() == ApplyAll(old(P()), TwoSends(req, revPort, dst, now1, now2))
      ensures outbox == old(outbox) + EmitsAll(old(P()), TwoSends(req, revPort, dst, now1, now2))
      ensures outbox == old(outbox) + ds && |ds| == 2 && PairTo(ds[0], ds[1], req, revPort, dst)
    {
      ghost var p := P();
      var cb1, cb2 := CreateAndSendTwo(req, revPort, dst);
      var t1, t2 := ArmTwo(cb1, cb2, now1, now2);
      RegisterTwo(cb1.seqno, t1, cb2.seqno, t2);
      SentTwo(p, req, revPort, dst, now1, now2, t1, t2);
      ds := EmitsAll(p, TwoSends(req, revPort, dst, now1, now2));
      MadePair(req, revPort, dst, cb1.seqno, cb2.seqno);
    }

    method CreateAndSendTwo(req: Request, revPort: u16, dst: Addr) returns (cb1: OctaneTimer, cb2: OctaneTimer)
      requires Valid()
      modifies this`seqnoCnt, this`outbox
      ensures cb1 == OctaneTimer(NewMessage(req, old(seqnoCnt)), old(seqnoCnt), dst)
      ensures cb2 == OctaneTimer(NewMessage(Reverse(req, revPort), Increment(cb1.seqno)), Increment(cb1.seqno), dst)
      ensures Valid() && P() == old(P()).(seqnoCnt := Increment(cb2.seqno))
      ensures outbox == old(outbox) + [Datagram(dst, cb1.msg), Datagram(dst, cb2.msg)]
    {
      var msg1, seqno1 := CreateOctaneMsg(req, true);
      var msg1re, seqno2 := CreateReverseOctaneMsg(msg1, revPort, true);
      outbox := outbox + [Datagram(dst, msg1)];
      outbox := outbox + [Datagram(dst, msg1re)];
      cb1, cb2 := OctaneTimer(msg1, seqno1, dst), OctaneTimer(msg1re, seqno2, dst);
    }

    /** Stage 7, HTTPS: a rule and its reverse for each of two routers in a row. */
    method SendFour(req: Request, revPort: u16, dst: Addr, req2: Request, revPort2: u16, dst2: Addr,
                    now1: Timeval, now2: Timeval, now3: Timeval, now4: Timeval)
      returns (ghost ds: seq<Datagram>)
      requires Valid() && Normal(now1) && Normal(now2) && Normal(now3) && Normal(now4)
      modifies this`seqnoCnt, this`unAck, this`outbox, timers.Repr
      ensures Valid() && fresh(timers.Repr - old(timers.Repr))
      ensures P() == ApplyAll(old(P()), TwoSends(req, revPort, dst, now1, now2) + TwoSends(req2, revPort2, dst2,
              now3, now4))
      ensures outbox == old(outbox) + EmitsAll(old(P()), TwoSends(req, revPort, dst, now1, now2)
                                                          + TwoSends(req2, revPort2, dst2, now3, now4))
      ensures outbox == old(outbox) + ds && |ds| == 4
      ensures PairTo(ds[0], ds[1], req, revPort, dst) && PairTo(ds[2], ds[3], req2, revPort2, dst2)
    {
      ghost var p := P();
      var cb1, cb2, cb3, cb4 := CreateAndSendFour(req, revPort, dst, req2, revPort2, dst2);
      ghost var t1, t2, t3, t4 := RecordFour(cb1, cb2, cb3, cb4, now1, now2, now3, now4);
      SentFour(p, req, revPort, dst, req2, revPort2, dst2, now1, now2, now3, now4,
               cb1, cb2, cb3, cb4, t1, t2, t3, t4);
      ds := EmitsAll(p, TwoSends(req, revPort, dst, now1, now2) + TwoSends(req2, revPort2, dst2, now3, now4));
      MadePair(req, revPort, dst, cb1.seqno, cb2.seqno);
      MadePair(req2, revPort2, dst2, cb3.seqno, cb4.seqno);
    }

    method RecordFour(cb1: OctaneTimer, cb2: OctaneTimer, cb3: OctaneTimer, cb4: OctaneTimer,
                      now1: Timeval, now2: Timeval, now3: Timeval, now4: Timeval)
      returns (ghost t1: int, ghost t2: int, ghost t3: int, ghost t4: int)
      requires Valid() && Normal(now1) && Normal(now2) && Normal(now3) && Normal(now4)
      modifies this`unAck, timers.Repr
      ensures Valid() && fresh(timers.Repr - old(timers.Repr))
      ensures t1 == old(P()).nextHandle && t2 == t1 + 1 && t3 == t2 + 1 && t4 == t3 + 1
      ensures P() == Primary(
                old(P()).seqnoCnt,
                old(P()).unAck[cb1.seqno := t1][cb2.seqno := t2][cb3.seqno := t3][cb4.seqno := t4], t4 + 1,
                Insert(Insert(Insert(Insert(old(P()).queue, NewTimer(t1, cb1, now1)), NewTimer(t2, cb2, now2)),
                              NewTimer(t3, cb3, now3)), NewTimer(t4, cb4, now4)))
    {
      var h1, h2, h3, h4 := ArmFour(cb1, cb2, cb3, cb4, now1, now2, now3, now4);
      RegisterFour(cb1.seqno, h1, cb2.seqno, h2, cb3.seqno, h3, cb4.seqno, h4);
      t1, t2, t3, t4 := h1, h2, h3, h4;
    }

    method CreateAndSendFour(req: Request, revPort: u16, dst: Addr, req2: Request, revPort2: u16, dst2: Addr)
      returns (cb1: OctaneTimer, cb2: OctaneTimer, cb3: OctaneTimer, cb4: OctaneTimer)
      requires Valid()
      modifies this`seqnoCnt, this`outbox
      ensures cb1 == OctaneTimer(NewMessage(req, old(seqnoCnt)), old(seqnoCnt), dst)
      ensures cb2 == OctaneTimer(NewMessage(Reverse(req, revPort), Increment(cb1.seqno)), Increment(cb1.seqno), dst)
      ensures cb3 == OctaneTimer(NewMessage(req2, Increment(cb2.seqno)), Increment(cb2.seqno), dst2)
      ensures cb4 == OctaneTimer(NewMessage(Reverse(req2, revPort2), Increment(cb3.seqno)), Increment(cb3.seqno), dst2)
      ensures Valid() && P() == old(P()).(seqnoCnt := Increment(cb4.seqno))
      ensures outbox == old(outbox) + [Datagram(dst, cb1.msg), Datagram(dst, cb2.msg)]
                        + [Datagram(dst2, cb3.msg), Datagram(dst2, cb4.msg)]
    {
      cb1, cb2, cb3, cb4 := CreateFour(req, revPort, dst, req2, revPort2, dst2);
      outbox := outbox + [Datagram(dst, cb1.msg)];
      outbox := outbox + [Datagram(dst, cb2.msg)];
      outbox := outbox + [Datagram(dst2, cb3.msg)];
      outbox := outbox + [Datagram(dst2, cb4.msg)];
    }

    method CreateFour(req: Request, revPort: u16, dst: Addr, req2: Request, revPort2: u16, dst2: Addr)
      returns (cb1: OctaneTimer, cb2: OctaneTimer, cb3: OctaneTimer, cb4: OctaneTimer)
      modifies this`seqnoCnt
      ensures cb1 == OctaneTimer(NewMessage(req, old(seqnoCnt)), old(seqnoCnt), dst)
      ensures cb2 == OctaneTimer(NewMessage(Reverse(req, revPort), Increment(cb1.seqno)), Increment(cb1.seqno), dst)
      ensures cb3 == OctaneTimer(NewMessage(req2, Increment(cb2.seqno)), Increment(cb2.seqno), dst2)
      ensures cb4 == OctaneTimer(NewMessage(Reverse(req2, revPort2), Increment(cb3.seqno)), Increment(cb3.seqno), dst2)
      ensures seqnoCnt == Increment(cb4.seqno)
    {
      var msg1, seqno1 := CreateOctaneMsg(req, true);
      var msg1re, seqno2 := CreateReverseOctaneMsg(msg1, revPort, true);
      var msg2, seqno3 := CreateOctaneMsg(req2, true);
      var msg2re, seqno4 := CreateReverseOctaneMsg(msg2, revPort2, true);
      cb1, cb2 := OctaneTimer(msg1, seqno1, dst), OctaneTimer(msg1re, seqno2, dst);
      cb3, cb4 := OctaneTimer(msg2, seqno3, dst2), OctaneTimer(msg2re, seqno4, dst2);
    }

    // ---------- Receiving ----------

    /** An echo with flags 1: look up the handle (operator[] makes a missing entry 0), remove the timer, erase. */
    method HandleControl(msg: OctaneControl)
      requires Valid()
      modifies this`unAck, timers.Repr
      ensures Valid() && timers.Repr == old(timers.Repr)
      ensures P() == Apply(old(P()), Echo(msg))
    {
      if msg.flags == 1 {
        ghost var before := unAck;
        if msg.seqno !in unAck {
          Register(msg.seqno, 0);
        }
        var handle := unAck[msg.seqno];
        var found := timers.RemoveTimer(handle);
        Forget(msg.seqno);
        assert unAck == before - {msg.seqno};
      }
    }

    /** m_unAckBuffer.erase(seqno) */
    method Forget(seqno: int)
      requires Valid()
      modifies this`unAck
      ensures Valid() && P() == old(P()).(unAck := old(P()).unAck - {seqno})
    {
      unAck := unAck - {seqno};
    }

    // ---------- The event loop ----------

    /** Fire the head, then look at the new head. */
    method FireHead(now: Timeval, next: Timeval) returns (tv: Timeval)
      requires Valid() && Normal(now) && Normal(next) && P().queue != []
      modifies this`outbox, timers.Repr
      ensures Valid() && fresh(timers.Repr - old(timers.Repr))
      ensures P() == Apply(old(P()), Fire(now))
      ensures outbox == old(outbox) + Emits(old(P()), Fire(now))
      ensures tv == ZERO <==> HeadDue(P().queue, next)
    {
      ExecuteNextTimer(now);
      tv := timers.NextTimerTime(next);
    }

    /** One round of the expiry loop. */
    method FireDue(ghost d: Drain, ghost n: nat, tick: nat, clock: nat -> Timeval) returns (tv: Timeval)
      requires Valid() && d.Reached(n, tick, P(), outbox) && HeadDue(P().queue, clock(tick)) && clock == d.clock
      modifies this`outbox, timers.Repr
      ensures Valid() && fresh(timers.Repr - old(timers.Repr))
      ensures n < d.Candidates() && d.Reached(n + 1, tick + 2, P(), outbox)
      ensures tv == ZERO <==> HeadDue(P().queue, clock(tick + 2))
    {
      d.Step(n, tick, P(), outbox);
      tv := FireHead(clock(tick + 1), clock(tick + 2));
    }

    /** After select has timed out: fire the head, then every timer that is due. Exactly the first n timers are fired,
        each once and in order; behind the head these are exactly the timers due at the last clock reading. */
    method FireExpired(clock: nat -> Timeval) returns (ghost n: nat, ghost last: nat)
      requires Valid() && P().queue != [] && Retransmits(P().queue) && ClockOk(clock)
      modifies this`outbox, timers.Repr
      ensures Valid() && fresh(timers.Repr - old(timers.Repr))
      ensures n <= |old(P().queue)| && 2 <= last
      ensures P() == ApplyAll(old(P()), Fires(clock, n))
      ensures outbox == old(outbox) + Resends(old(P().queue)[..n])
      ensures EmitsAll(old(P()), Fires(clock, n)) == Resends(old(P().queue)[..n])
      ensures HeadAndDue(old(P().queue), n, clock(last))
      ensures Retransmits(P().queue) && NoneDue(P().queue, clock(last))
    {
      ghost var d := Drain(P(), outbox, clock);
      timers.LiveSorted();
      DrainStart(d, P());
      var timeout := FireHead(clock(2), clock(3));
      n, last := FireAllDue(d, timeout, clock);
      d.End(n, last, P(), outbox);
    }

    /** The expiry loop; it ends because every timer it fires is rescheduled beyond the clock's window. */
    method FireAllDue(ghost d: Drain, timeout0: Timeval, clock: nat -> Timeval) returns (ghost n: nat, ghost last: nat)
      requires Valid() && clock == d.clock && d.Reached(1, 3, P(), outbox)
      requires timeout0 == ZERO <==> HeadDue(P().queue, clock(3))
      modifies this`outbox, timers.Repr
      ensures Valid() && fresh(timers.Repr - old(timers.Repr))
      ensures d.Reached(n, last, P(), outbox) && !HeadDue(P().queue, clock(last))
    {
      var timeout, tick: nat := timeout0, 3;
      n := 1;
      while timeout == ZERO
        invariant Valid() && fresh(timers.Repr - old(timers.Repr))
        invariant d.Reached(n, tick, P(), outbox)
        invariant timeout == ZERO <==> HeadDue(P().queue, clock(tick))
        decreases d.Rest(n)
      {
        timeout := FireDue(d, n, tick, clock);
        n := n + 1;
        tick := tick + 2;
      }
      last := tick;
    }

    /** Before select: a due head is fired. bEventTimeout tells whether there is any timer to wait for; if so, select is
        told to wait until the head, as it was before, expires. */
    method CheckHead(timeout0: Timeval, clock: nat -> Timeval) returns (timeout: Timeval, bEventTimeout: bool)
      requires Valid() && ClockOk(clock) && Near(P().queue, clock(0))
      modifies this`outbox, timers.Repr
      ensures Valid() && fresh(timers.Repr - old(timers.Repr))
      ensures P() == ApplyAll(old(P()), HeadCheck(old(P().queue), clock))
      ensures outbox == old(outbox) + EmitsAll(old(P()), HeadCheck(old(P().queue), clock))
      ensures bEventTimeout <==> old(P().queue) != []
      ensures if bEventTimeout then Told(old(P().queue), clock(0), timeout) else timeout == timeout0
    {
      ghost var q := P().queue;
      timers.LiveSorted();
      timeout, bEventTimeout := FireDueHead(timeout0, clock);
      if bEventTimeout {
        ToldByMinus(q, clock(0));
      }
    }

    method FireDueHead(timeout0: Timeval, clock: nat -> Timeval) returns (timeout: Timeval, bEventTimeout: bool)
      requires Valid() && ClockOk(clock) && Near(P().queue, clock(0))
      modifies this`outbox, timers.Repr
      ensures Valid() && fresh(timers.Repr - old(timers.Repr))
      ensures P() == ApplyAll(old(P()), HeadCheck(old(P().queue), clock))
      ensures outbox == old(outbox) + EmitsAll(old(P()), HeadCheck(old(P().queue), clock))
      ensures bEventTimeout <==> old(P().queue) != []
      ensures timeout == if bEventTimeout then Minus(old(P().queue)[0].expiry, clock(0)) else timeout0
    {
      ghost var p := P();
      bEventTimeout := false;
      var temp := timeout0;
      timers.LiveSorted();
      timeout := timers.NextTimerTime(clock(0));
      if p.queue != [] {
        NearIsNotMax(p.queue[0].expiry, clock(0));
      }
      if timeout.sec == 0 && timeout.usec == 0 {
        JustOne(p, Fire(clock(1)));
        ExecuteNextTimer(clock(1));
        bEventTimeout := true;
      }
      if timeout.sec == MAXVALUE && timeout.usec == 0 {
        timeout := temp;
        bEventTimeout := false;
      } else {
        bEventTimeout := true;
      }
    }

    method ReadTunnel(t: Option<TunnelInput>, clock: nat -> Timeval, refresh0: bool) returns (refresh: bool)
      requires Valid() && ClockOk(clock)
      modifies this`seqnoCnt, this`unAck, this`outbox, timers.Repr
      ensures Valid() && fresh(timers.Repr - old(timers.Repr))
      ensures P() == ApplyAll(old(P()), TunnelActions(t, clock))
      ensures outbox == old(outbox) + EmitsAll(old(P()), TunnelActions(t, clock))
      ensures refresh == if t.None? then refresh0 else if t.value.Nothing? then t.value.refresh else true
    {
      refresh := refresh0;
      match t {
        case None =>
        case Some(Nothing(r)) => refresh := r;
        case Some(One(req, dst)) =>
          refresh := true;
          ghost var ds := SendOne(req, dst, clock(2));
        case Some(Two(req, rev, dst)) =>
          refresh := true;
          ghost var ds := SendTwo(req, rev, dst, clock(2), clock(3));
        case Some(Four(req, rev, dst, req2, rev2, dst2)) =>
          refresh := true;
          ghost var ds := SendFour(req, rev, dst, req2, rev2, dst2, clock(2), clock(3), clock(4), clock(5));
      }
    }

    method ReadSocket(s: Option<SocketInput>, refresh0: bool) returns (refresh: bool)
      requires Valid()
      modifies this`unAck, timers.Repr
      ensures Valid() && timers.Repr == old(timers.Repr)
      ensures P() == ApplyAll(old(P()), SocketActions(s)) && EmitsAll(old(P()), SocketActions(s)) == []
      ensures SocketRead(old(P()), P(), s)
      ensures refresh == if s.None? then refresh0 else if s.value.Other? then s.value.refresh else true
    {
      refresh := refresh0;
      SocketSent(P(), s);
      match s {
        case None =>
        case Some(Other(r)) => refresh := r;
        case Some(Control(msg)) =>
          refresh := true;
          JustOne(P(), Echo(msg));
          HandleControl(msg);
      }
    }

    /** One turn of the event loop: the head check, select, and then either the expired timers, or the packets that
        arrived, or, with no timer queued, the idle exit. */
    method Turn(timeout0: Timeval, refresh0: bool, wakeup: Wakeup, clock: nat -> Timeval)
      returns (exit: bool, timeout: Timeval, refresh: bool, ghost fired: nat, ghost last: nat, ghost told: Timeval,
               ghost work: Work)
      requires Valid() && ClockOk(clock) && Near(P().queue, clock(0)) && Retransmits(P().queue)
      modifies this`seqnoCnt, this`unAck, this`outbox, timers.Repr
      ensures Valid() && fresh(timers.Repr - old(timers.Repr))
      ensures exit <==> wakeup.TimedOut? && old(P().queue) == []
      ensures P() == ApplyAll(old(P()), TurnActions(old(P().queue), wakeup, clock, fired))
      ensures outbox == old(outbox) + EmitsAll(old(P()), TurnActions(old(P().queue), wakeup, clock, fired))
      ensures wakeup.TimedOut? && !exit ==>
                && TurnFires(old(P().queue), clock, fired, last)
                && outbox == old(outbox) + Resends(FiredTimers(old(P().queue), clock, fired))
                && NoneDue(P().queue, clock(last))
                && FiresDue(old(P().queue), clock, told, fired, last)
      ensures wakeup.Ready? ==>
                PacketsRead(old(P()), old(outbox), P(), outbox, wakeup.tunnel, wakeup.socket, clock, work)
      ensures Timed(old(P().queue), clock(0), timeout0, refresh0, wakeup, told, timeout, refresh)
    {
      ghost var p, out := P(), outbox;
      timers.LiveSorted();
      exit, timeout, refresh, fired, last, told := TakeTurn(timeout0, refresh0, wakeup, clock);
      work := WorkOf(p, wakeup, clock);
      if wakeup.Ready? {
        ReadyTurn(p, out, wakeup, clock, fired);
      } else if !exit {
        WaitedFiresAreDue(p.queue, clock, told, fired, last);
      }
    }

    method TakeTurn(timeout0: Timeval, refresh0: bool, wakeup: Wakeup, clock: nat -> Timeval)
      returns (exit: bool, timeout: Timeval, refresh: bool, ghost fired: nat, ghost last: nat, ghost told: Timeval)
      requires Valid() && ClockOk(clock) && Near(P().queue, clock(0)) && Retransmits(P().queue)
      modifies this`seqnoCnt, this`unAck, this`outbox, timers.Repr
      ensures Valid() && fresh(timers.Repr - old(timers.Repr))
      ensures exit <==> wakeup.TimedOut? && old(P().queue) == []
      ensures P() == ApplyAll(old(P()), TurnActions(old(P().queue), wakeup, clock, fired))
      ensures outbox == old(outbox) + EmitsAll(old(P()), TurnActions(old(P().queue), wakeup, clock, fired))
      ensures wakeup.TimedOut? && !exit ==>
                && TurnFires(old(P().queue), clock, fired, last)
                && outbox == old(outbox) + Resends(FiredTimers(old(P().queue), clock, fired))
                && NoneDue(P().queue, clock(last))
      ensures Timed(old(P().queue), clock(0), timeout0, refresh0, wakeup, told, timeout, refresh)
    {
      ghost var p0, out := P(), outbox;
      var bEventTimeout;
      timeout, bEventTimeout := CheckHead(timeout0, clock);
      told := timeout;
      exit, refresh, fired, last := AfterSelect(p0, out, bEventTimeout, refresh0, wakeup, clock);
      timeout := if refresh || (wakeup.TimedOut? && bEventTimeout) then IDLE else wakeup.left;
    }

    /** What follows select; p and out are the state and the output before the head check. */
    method AfterSelect(ghost p: Primary, ghost out: seq<Datagram>, bEventTimeout: bool, refresh0: bool, wakeup: Wakeup,
                       clock: nat -> Timeval)
      returns (exit: bool, refresh: bool, ghost fired: nat, ghost last: nat)
      requires Valid() && ClockOk(clock) && Retransmits(p.queue) && (bEventTimeout <==> p.queue != [])
      requires P() == ApplyAll(p, HeadCheck(p.queue, clock))
      requires outbox == out + EmitsAll(p, HeadCheck(p.queue, clock))
      modifies this`seqnoCnt, this`unAck, this`outbox, timers.Repr
      ensures Valid() && fresh(timers.Repr - old(timers.Repr))
      ensures exit <==> wakeup.TimedOut? && p.queue == []
      ensures refresh <==> RefreshAfter(wakeup, refresh0)
      ensures P() == ApplyAll(p, TurnActions(p.queue, wakeup, clock, fired))
      ensures outbox == out + EmitsAll(p, TurnActions(p.queue, wakeup, clock, fired))
      ensures wakeup.TimedOut? && !exit ==>
                && TurnFires(p.queue, clock, fired, last)
                && outbox == out + Resends(FiredTimers(p.queue, clock, fired))
                && NoneDue(P().queue, clock(last))
    {
      CheckKeeps(p, clock);
      exit, refresh, fired, last := OnWakeup(bEventTimeout, refresh0, wakeup, clock);
      TurnDone(p, out, wakeup, clock, fired, last, exit, P(), outbox);
    }

    method OnWakeup(bEventTimeout: bool, refresh0: bool, wakeup: Wakeup, clock: nat -> Timeval)
      returns (exit: bool, refresh: bool, ghost fired: nat, ghost last: nat)
      requires Valid() && ClockOk(clock) && Retransmits(P().queue) && (bEventTimeout <==> P().queue != [])
      modifies this`seqnoCnt, this`unAck, this`outbox, timers.Repr
      ensures Valid() && fresh(timers.Repr - old(timers.Repr))
      ensures exit <==> wakeup.TimedOut? && !bEventTimeout
      ensures refresh <==> RefreshAfter(wakeup, refresh0)
      ensures P() == ApplyAll(old(P()), WakeupActions(wakeup, clock, fired))
      ensures outbox == old(outbox) + EmitsAll(old(P()), WakeupActions(wakeup, clock, fired))
      ensures wakeup.TimedOut? && !exit ==>
                && HeadAndDue(old(P()).queue, fired, clock(last)) && 2 <= last
                && EmitsAll(old(P()), WakeupActions(wakeup, clock, fired)) == Resends(old(P()).queue[..fired])
                && NoneDue(P().queue, clock(last))
    {
      exit, refresh, fired, last := false, refresh0, 0, 0;
      match wakeup {
        case TimedOut(_) =>
          if bEventTimeout {
            fired, last := FireExpired(clock);
          } else {
            exit := true;
            assert Fires(clock, 0) == [] && EmitsAll(P(), Fires(clock, 0)) == [];
          }
        case Ready(_, tunnel, socket) =>
          refresh := ReadPackets(tunnel, socket, clock, refresh);
      }
    }

    method ReadPackets(tunnel: Option<TunnelInput>, socket: Option<SocketInput>, clock: nat -> Timeval, refresh0: bool)
      returns (refresh: bool)
      requires Valid() && ClockOk(clock)
      modifies this`seqnoCnt, this`unAck, this`outbox, timers.Repr
      ensures Valid() && fresh(timers.Repr - old(timers.Repr))
      ensures P() == ApplyAll(old(P()), TunnelActions(tunnel, clock) + SocketActions(socket))
      ensures outbox == old(outbox) + EmitsAll(old(P()), TunnelActions(tunnel, clock) + SocketActions(socket))
      ensures refresh <==> RefreshAfter(Ready(ZERO, tunnel, socket), refresh0)
    {
      ghost var p, out, t, s := P(), outbox, TunnelActions(tunnel, clock), SocketActions(socket);
      refresh := ReadTunnel(tunnel, clock, refresh0);
      refresh := ReadSocket(socket, refresh);
      ApplyConcat(p, t, s);
      Chain(out, EmitsAll(p, t), EmitsAll(ApplyAll(p, t), s));
    }

    method NextTurn(ghost p0: Primary, ghost out: seq<Datagram>, ghost actions0: seq<Action>,
                    ghost turns0: seq<TurnRecord>,
                    timeout0: Timeval, refresh0: bool, wakeups: seq<Wakeup>, i: nat, clocks: nat -> nat -> Timeval)
      returns (exited: bool, timeout: Timeval, refresh: bool, ghost actions: seq<Action>, ghost turns: seq<TurnRecord>)
      requires Valid() && ClocksOk(clocks) && i == |turns0| < |wakeups|
      requires Ran(p0, out, actions0, turns0, wakeups, clocks, P(), outbox) && (timeout0, refresh0) == Carried(turns0)
      modifies this`seqnoCnt, this`unAck, this`outbox, timers.Repr
      ensures Valid() && fresh(timers.Repr - old(timers.Repr))
      ensures Ran(p0, out, actions, turns, wakeups, clocks, P(), outbox) && |turns| == i + 1
      ensures (timeout, refresh) == Carried(turns)
      ensures exited ==> P().queue == []
    {
      ghost var p, sent, fired, last, told, work := P(), outbox, 0, 0, ZERO, Work(P(), [], P());
      exited, timeout, refresh, fired, last, told, work := Turn(timeout0, refresh0, wakeups[i], clocks(i));
      ghost var turn := TurnRecord(p, fired, last, told, timeout, refresh);
      ghost var more := TurnActions(p.queue, wakeups[i], clocks(i), fired);
      actions, turns := actions0 + more, turns0 + [turn];
      RanOneMore(p0, out, actions0, turns0, turn, wakeups, clocks, p, sent, more, turns);
      if exited {
        EmptyTurn(p, wakeups[i], clocks(i), fired);
      }
    }

    /** The event loop over any sequence of wake-ups. clocks gives the readings of each turn, turns what each turn
        did. The router comes to its idle exit only with an empty timer queue; for a run that keeps the bijection,
        nothing is unacknowledged then. */
    method Run(wakeups: seq<Wakeup>, clocks: nat -> nat -> Timeval)
      returns (exited: bool, ghost actions: seq<Action>, ghost turns: seq<TurnRecord>)
      requires Valid() && ClocksOk(clocks) && Timely(P().queue, clocks(0)(0))
      modifies this`seqnoCnt, this`unAck, this`outbox, timers.Repr
      ensures Valid() && fresh(timers.Repr - old(timers.Repr))
      ensures Ran(old(P()), old(outbox), actions, turns, wakeups, clocks, P(), outbox)
      ensures exited ==> P().queue == []
      ensures exited && Registered(old(P())) && NoReuse(old(P()), actions) ==> forall s :: s !in unAck
    {
      var timeout, refresh, i := IDLE, true, 0;
      exited, actions, turns := false, [], [];
      ghost var p0, out := P(), outbox;
      RanNothing(p0, out, wakeups, clocks);
      while i < |wakeups| && !exited
        invariant 0 <= i == |turns| <= |wakeups| && Valid() && fresh(timers.Repr - old(timers.Repr))
        invariant Ran(p0, out, actions, turns, wakeups, clocks, P(), outbox)
        invariant (timeout, refresh) == Carried(turns)
        invariant exited ==> P().queue == []
        decreases |wakeups| - i
      {
        exited, timeout, refresh, actions, turns :=
          NextTurn(p0, out, actions, turns, timeout, refresh, wakeups, i, clocks);
        i := i + 1;
      }
      if exited {
        IdleAcknowledged(p0, actions);
      }
    }
  }

  /** What the expiry loop has to show for its work: from state p0 and socket output out0, with the given clock. */
  datatype Drain = Drain(p0: Primary, out0: seq<Datagram>, clock: nat -> Timeval) {
    ghost function Until(): int {
      Micros(clock(2)) + WINDOW
    }

    /** How many timers at the front of the queue the loop could possibly fire. */
    ghost function Candidates(): nat {
      if p0.queue == [] then 0 else 1 + Early(p0.queue[1..], Until())
    }

    ghost function Rest(n: nat): int {
      Candidates() - n
    }

    /** State p and output out after n fires, with the clock last read at tick. */
    ghost predicate Reached(n: nat, tick: nat, p: Primary, out: seq<Datagram>) {
      && tick == 1 + 2 * n && ClockOk(clock)
      && Fired(p0.queue, p.queue, n, Candidates(), Until())
      && p == ApplyAll(p0, Fires(clock, n))
      && out == out0 + EmitsAll(p0, Fires(clock, n))
      && EmitsAll(p0, Fires(clock, n)) == Resends(p0.queue[..n])
      && forall j :: 1 <= j < n ==> Due(p0.queue[j], clock(tick))
    }

    lemma Step(n: nat, tick: nat, p: Primary, out: seq<Datagram>)
      requires Reached(n, tick, p, out) && HeadDue(p.queue, clock(tick))
      ensures n < Candidates()
      ensures Reached(n + 1, tick + 2, Apply(p, Fire(clock(tick + 1))), out + Emits(p, Fire(clock(tick + 1))))
    {
      NextFire(p0.queue, p.queue, n, Candidates(), Until(), clock(tick), clock(tick + 1));
      FiresStep(p0, clock, n);
      ResendsStep(p0.queue, n);
      StillDue(n, tick, p);
    }

    /** What was due stays due. */
    lemma StillDue(n: nat, tick: nat, p: Primary)
      requires ClockOk(clock) && n < |p0.queue| && p.queue != [] && p.queue[0] == p0.queue[n]
      requires HeadDue(p.queue, clock(tick)) && forall j :: 1 <= j < n ==> Due(p0.queue[j], clock(tick))
      ensures forall j :: 1 <= j < n + 1 ==> Due(p0.queue[j], clock(tick + 2))
    {
      forall j | 1 <= j < n + 1 ensures Due(p0.queue[j], clock(tick + 2)) {
        CmpTransitive(p0.queue[j].expiry, clock(tick), clock(tick + 2));
      }
    }

    lemma End(n: nat, tick: nat, p: Primary, out: seq<Datagram>)
      requires Reached(n, tick, p, out) && !HeadDue(p.queue, clock(tick))
      ensures forall j :: 1 <= j < |p0.queue| ==> (j < n <==> Due(p0.queue[j], clock(tick)))
      ensures NoneDue(p.queue, clock(tick))
    {
      NoneLeft(p0.queue, p.queue, n, Candidates(), Until(), clock(tick));
      NothingDue(p.queue, clock(tick));
    }
  }

  lemma {:induction false} DrainStart(d: Drain, p: Primary)
    requires p == d.p0 && p.queue != [] && SortedTimers(p.queue) && Retransmits(p.queue) && ClockOk(d.clock)
    ensures d.Reached(1, 3, Apply(p, Fire(d.clock(2))), d.out0 + Emits(p, Fire(d.clock(2))))
  {
    FirstFire(p.queue, d.clock(2), d.Until());
    FiresStep(p, d.clock, 0);
    assert Fires(d.clock, 0) == [];
    ResendsStep(p.queue, 0);
    assert Resends(p.queue[..0]) == [];
  }

  lemma ResendsStep(q: Queue, n: nat)
    requires n < |q|
    ensures Resends(q[..n + 1]) == Resends(q[..n]) + [Resend(q[n])]
  {
  }

  lemma FiresStep(p: Primary, clock: nat -> Timeval, n: nat)
    ensures ApplyAll(p, Fires(clock, n + 1)) == Apply(ApplyAll(p, Fires(clock, n)), Fire(clock(2 + 2 * n)))
    ensures EmitsAll(p, Fires(clock, n + 1)) ==
            EmitsAll(p, Fires(clock, n)) + Emits(ApplyAll(p, Fires(clock, n)), Fire(clock(2 + 2 * n)))
  {
    var a := Fire(clock(2 + 2 * n));
    assert Fires(clock, n + 1) == Fires(clock, n) + [a];
    ApplyConcat(p, Fires(clock, n), [a]);
    JustOne(ApplyAll(p, Fires(clock, n)), a);
  }

  /** Between fire n and the check after it the clock moves by at least the retransmission time. */
  ghost predicate Jumps(clock: nat -> Timeval, n: nat) {
    Normal(clock(3 + 2 * n)) && Micros(clock(2 + 2 * n)) + WINDOW <= Micros(clock(3 + 2 * n))
  }

  /** The window is needed: if the clock moves by the retransmission time or more between a fire and the next check,
      the head is due at every check, and the expiry loop never ends. */
  lemma {:induction false} EndlessExpiry(p: Primary, clock: nat -> Timeval, n: nat)
    requires |p.queue| == 1 && Retransmits(p.queue)
    requires forall i: nat :: Jumps(clock, i)
    ensures var q := ApplyAll(p, Fires(clock, n + 1)).queue;
            |q| == 1 && Retransmits(q) && HeadDue(q, clock(3 + 2 * n))
  {
    if n == 0 {
      assert Fires(clock, 0) == [];
    } else {
      EndlessExpiry(p, clock, n - 1);
    }
    FiresStep(p, clock, n);
    assert Jumps(clock, n);
    LoneFire(ApplyAll(p, Fires(clock, n)).queue, clock(2 + 2 * n), clock(3 + 2 * n));
  }

  // ---------- When the expiry loop ends ----------

  ghost function Instants(q: Queue): (r: seq<int>)
    ensures |r| == |q|
  {
    seq(|q|, i requires 0 <= i < |q| => Micros(q[i].expiry))
  }

  /** When the timers fired first to n-th expire again. */
  ghost function Rearmed(clock: nat -> Timeval, n: nat): (r: seq<int>)
    ensures |r| == n
  {
    seq(n, i requires 0 <= i < n => Micros(clock(2 + 2 * i)) + WINDOW)
  }

  lemma DueIsNotLater(t: Timer<OctaneTimer>, now: Timeval)
    requires Loose(t.expiry) && Normal(now)
    ensures Due(t, now) <==> Micros(t.expiry) <= Micros(now)
  {
    CmpIsTimeOrder(t.expiry, now);
    CmpIsTimeOrder(now, t.expiry);
  }

  /** A timer that expires no earlier than all others is, in real time, inserted at the end. */
  lemma InstantsInsert(q: Queue, t: Timer<OctaneTimer>)
    requires SortedTimers(q) && Loose(t.expiry) && forall i :: 0 <= i < |q| ==> Micros(q[i].expiry) <= Micros(t.expiry)
    ensures Instants(Insert(q, t)) == Instants(q) + [Micros(t.expiry)]
  {
    var k, r := Rank(Expiries(q), t.expiry), Insert(q, t);
    InsertedAt(q, k, t);
    RankSeparates(Expiries(q), t.expiry);
    forall j | k <= j < |q| ensures Micros(q[j].expiry) == Micros(t.expiry) {
      assert Cmp(t.expiry, Expiries(q)[j]) <= 0;
      CmpIsTimeOrder(q[j].expiry, t.expiry);
    }
    forall j | 0 <= j < |r| ensures Instants(r)[j] == (Instants(q) + [Micros(t.expiry)])[j] {
      assert r[j] == if j < k then q[j] else if j == k then t else q[j - 1];
    }
  }

  /** q is what n fires make of the queue q0: in real time, the first n are gone and expire again behind the others, in
      the order of the fires. */
  ghost predicate Rotated(q0: Queue, q: Queue, clock: nat -> Timeval, n: nat) {
    && |q| == |q0| && SortedTimers(q) && Retransmits(q) && Near(q, clock(2 + 2 * n))
    && Instants(q) == (Instants(q0) + Rearmed(clock, n))[n..]
  }

  ghost predicate RotatedAfter(p: Primary, clock: nat -> Timeval, n: nat) {
    Rotated(p.queue, ApplyAll(p, Fires(clock, n)).queue, clock, n)
  }

  lemma {:induction false} FiredQueue(p: Primary, clock: nat -> Timeval, n: nat)
    requires p.queue != [] && Rising(clock) && RotatedAfter(p, clock, 0)
    ensures RotatedAfter(p, clock, n)
  {
    if n != 0 {
      FiredQueue(p, clock, n - 1);
      RotatedAgain(p, clock, n - 1, n);
    }
  }

  lemma RotatedAgain(p: Primary, clock: nat -> Timeval, n: nat, n': nat)
    requires p.queue != [] && Rising(clock) && RotatedAfter(p, clock, n) && n' == n + 1
    ensures RotatedAfter(p, clock, n')
  {
    AfterFire(p, clock, n);
    RotatedNext(p.queue, ApplyAll(p, Fires(clock, n)).queue, clock, n, ApplyAll(p, Fires(clock, n')).queue, n');
  }

  lemma AfterFire(p: Primary, clock: nat -> Timeval, n: nat)
    requires ApplyAll(p, Fires(clock, n)).queue != []
    ensures var q := ApplyAll(p, Fires(clock, n)).queue;
            ApplyAll(p, Fires(clock, n + 1)).queue == Insert(q[1..], Rescheduled(q[0], clock(2 + 2 * n)))
  {
    FiresStep(p, clock, n);
  }

  lemma RotatedStart(p: Primary, clock: nat -> Timeval)
    requires SortedTimers(p.queue) && Retransmits(p.queue) && Near(p.queue, clock(2))
    ensures RotatedAfter(p, clock, 0)
  {
    assert Fires(clock, 0) == [];
    assert (Instants(p.queue) + Rearmed(clock, 0))[0..] == Instants(p.queue);
  }

  lemma RotatedNext(q0: Queue, q: Queue, clock: nat -> Timeval, n: nat, r: Queue, n': nat)
    requires q0 != [] && Rising(clock) && Rotated(q0, q, clock, n)
    requires r == Insert(q[1..], Rescheduled(q[0], clock(2 + 2 * n))) && n' == n + 1
    ensures Rotated(q0, r, clock, n')
  {
    FireRearms(q, clock(2 + 2 * n));
    RearmedNext(Instants(q0), clock, n);
    CmpIsTimeOrder(clock(2 + 2 * n), clock(2 + 2 * (n + 1)));
    assert Near(r, clock(2 + 2 * (n + 1)));
  }

  lemma RearmedNext(a: seq<int>, clock: nat -> Timeval, n: nat)
    requires a != []
    ensures (a + Rearmed(clock, n + 1))[n + 1..] ==
            (a + Rearmed(clock, n))[n..][1..] + [Micros(clock(2 + 2 * n)) + WINDOW]
  {
  }

  lemma FireRearms(q: Queue, now: Timeval)
    requires q != [] && SortedTimers(q) && Retransmits(q) && Near(q, now)
    ensures var r := Insert(q[1..], Rescheduled(q[0], now));
            && |r| == |q| && SortedTimers(r) && Timely(r, now)
            && Instants(r) == Instants(q)[1..] + [Micros(now) + WINDOW]
  {
    var t, tail := Rescheduled(q[0], now), q[1..];
    RescheduledInstant(q[0], now);
    SortedTail(q);
    SortedInsert(tail, t);
    InstantsInsert(tail, t);
    assert Instants(tail) == Instants(q)[1..];
    TimelyInsert(tail, t, now);
  }

  lemma RescheduledInstant(t: Timer<OctaneTimer>, now: Timeval)
    requires t.timeout == RETRANSMIT_AFTER
    ensures Micros(Rescheduled(t, now).expiry) == Micros(now) + WINDOW && Loose(Rescheduled(t, now).expiry)
  {
    LaterAddsExactly(now, RETRANSMIT_AFTER);
  }

  /** The check after fire n is before the instant at which the head then expires: that of the next timer of the
      queue as long as some have not been fired, and then the instant at which the timer fired |q| - 1 fires before
      it was armed to expire. */
  ghost predicate Settles(q: Queue, clock: nat -> Timeval, n: nat)
    requires q != []
  {
    Micros(clock(3 + 2 * n)) <
    if n + 1 < |q| then Micros(q[n + 1].expiry) else Micros(clock(2 + 2 * (n + 1 - |q|))) + WINDOW
  }

  /** The expiry loop finds no timer due at the check after fire n. */
  ghost predicate Stops(p: Primary, clock: nat -> Timeval, n: nat) {
    !HeadDue(ApplyAll(p, Fires(clock, n + 1)).queue, clock(3 + 2 * n))
  }

  lemma {:induction false} StopsIff(p: Primary, clock: nat -> Timeval, n: nat)
    requires p.queue != [] && SortedTimers(p.queue) && Retransmits(p.queue)
    requires Rising(clock) && Near(p.queue, clock(2))
    ensures Stops(p, clock, n) <==> Settles(p.queue, clock, n)
  {
    RotatedStart(p, clock);
    FiredQueue(p, clock, n + 1);
    RotatedHead(p.queue, ApplyAll(p, Fires(clock, n + 1)).queue, clock, n);
  }

  lemma RotatedHead(q0: Queue, q: Queue, clock: nat -> Timeval, n: nat)
    requires q0 != [] && Rising(clock) && Rotated(q0, q, clock, n + 1)
    ensures HeadDue(q, clock(3 + 2 * n)) <==> !Settles(q0, clock, n)
  {
    DueIsNotLater(q[0], clock(3 + 2 * n));
    assert Instants(q)[0] == (Instants(q0) + Rearmed(clock, n + 1))[n + 1];
  }

  /** Exactly when the expiry loop ends, for any queue and any clock that does not go back: some check reads less
      than the instant at which the head of the queue then expires. For a lone timer: less than the retransmission
      time after the fire before it. */
  lemma {:induction false} ExpiryLoopEndsIff(p: Primary, clock: nat -> Timeval)
    requires p.queue != [] && SortedTimers(p.queue) && Retransmits(p.queue)
    requires Rising(clock) && Near(p.queue, clock(2))
    ensures (exists n: nat :: Stops(p, clock, n)) <==> exists n: nat :: Settles(p.queue, clock, n)
    ensures |p.queue| == 1 ==>
              ((exists n: nat :: Stops(p, clock, n)) <==> exists n: nat :: !Jumps(clock, n))
  {
    forall n: nat ensures Stops(p, clock, n) <==> Settles(p.queue, clock, n) {
      StopsIff(p, clock, n);
    }
    if |p.queue| == 1 {
      forall n: nat ensures Settles(p.queue, clock, n) <==> !Jumps(clock, n) {
      }
    }
  }

  lemma NothingDue(q: Queue, now: Timeval)
    requires SortedTimers(q) && !HeadDue(q, now)
    ensures NoneDue(q, now)
  {
    forall i | 0 <= i < |q| ensures !Due(q[i], now) {
      if i > 0 {
        assert Cmp(Expiries(q)[0], Expiries(q)[i]) <= 0;
        CmpTransitive(q[0].expiry, q[i].expiry, now);
      }
    }
  }

  // ---------- Turns ----------

  ghost function WakeupActions(wakeup: Wakeup, clock: nat -> Timeval, fired: nat): seq<Action> {
    match wakeup
    case TimedOut(_) => Fires(clock, fired)
    case Ready(_, tunnel, socket) => TunnelActions(tunnel, clock) + SocketActions(socket)
  }

  /** The actions of one turn of the event loop. */
  ghost function TurnActions(q: Queue, wakeup: Wakeup, clock: nat -> Timeval, fired: nat): seq<Action> {
    HeadCheck(q, clock) + WakeupActions(wakeup, clock, fired)
  }

  /** What is fired in a turn that times out with a timer queued: after the head check, the head of the queue and
      exactly the timers due at the last reading behind it. */
  ghost predicate TurnFires(q: Queue, clock: nat -> Timeval, fired: nat, last: nat) {
    2 <= last && HeadAndDue(Checked(q, clock), fired, clock(last))
  }

  /** If nothing was due before select and it waited as long as it was told, whatever is fired then is due. */
  ghost predicate FiresDue(q: Queue, clock: nat -> Timeval, told: Timeval, fired: nat, last: nat)
    requires fired <= |q|
  {
    !HeadDue(q, clock(0)) && Micros(clock(2)) >= Micros(clock(0)) + Micros(told) ==>
      forall t :: t in FiredTimers(q, clock, fired) ==> Due(t, clock(last))
  }

  /** The state before a turn, how many timers were fired after the wait, at which reading the last check was made,
      what select was told to wait, and what the turn left in the two variables of the loop. */
  datatype TurnRecord = TurnRecord(before: Primary, fired: nat, last: nat, told: Timeval, timeout: Timeval,
                                   refresh: bool)

  /** The idle timeout and the refresh flag before the next turn. */
  ghost function Carried(turns: seq<TurnRecord>): (Timeval, bool) {
    if turns == [] then (Timeval(15, 0), true) else (turns[|turns| - 1].timeout, turns[|turns| - 1].refresh)
  }

  /** After a timed-out wait a turn fires exactly the timers it should, and its timeouts are right. */
  ghost predicate TurnFits(turn: TurnRecord, carried: (Timeval, bool), wakeup: Wakeup, clock: nat -> Timeval) {
    && (wakeup.TimedOut? && turn.before.queue != [] ==> TurnFires(turn.before.queue, clock, turn.fired, turn.last))
    && Timed(turn.before.queue, clock(0), carried.0, carried.1, wakeup, turn.told, turn.timeout, turn.refresh)
  }

  /** The actions of all turns. */
  ghost function Played(turns: seq<TurnRecord>, wakeups: seq<Wakeup>, clocks: nat -> nat -> Timeval): seq<Action>
    requires |turns| <= |wakeups|
    decreases |turns|
  {
    if turns == [] then []
    else
      var i := |turns| - 1;
      Played(turns[..i], wakeups, clocks) + TurnActions(turns[i].before.queue, wakeups[i], clocks(i), turns[i].fired)
  }

  /** Each turn begins where the turn before ended and does what it should. */
  ghost predicate History(p0: Primary, turns: seq<TurnRecord>, wakeups: seq<Wakeup>, clocks: nat -> nat -> Timeval)
    decreases |turns|
  {
    |turns| <= |wakeups| &&
    (turns == [] ||
     (var i := |turns| - 1;
      && History(p0, turns[..i], wakeups, clocks)
      && turns[i].before == ApplyAll(p0, Played(turns[..i], wakeups, clocks))
      && TurnFits(turns[i], Carried(turns[..i]), wakeups[i], clocks(i))))
  }

  lemma OneMoreTurn(p0: Primary, turns: seq<TurnRecord>, turn: TurnRecord, wakeups: seq<Wakeup>,
                    clocks: nat -> nat -> Timeval)
    requires |turns| < |wakeups| && History(p0, turns, wakeups, clocks)
    requires turn.before == ApplyAll(p0, Played(turns, wakeups, clocks))
    requires TurnFits(turn, Carried(turns), wakeups[|turns|], clocks(|turns|))
    ensures History(p0, turns + [turn], wakeups, clocks)
    ensures Played(turns + [turn], wakeups, clocks) ==
            Played(turns, wakeups, clocks) +
                TurnActions(turn.before.queue, wakeups[|turns|], clocks(|turns|), turn.fired)
  {
    var all := turns + [turn];
    assert all[..|all| - 1] == turns && all[|all| - 1] == turn;
  }

  /** How far a run has come after some turns: state p and socket output o. */
  ghost predicate Ran(p0: Primary, out: seq<Datagram>, actions: seq<Action>, turns: seq<TurnRecord>,
                      wakeups: seq<Wakeup>, clocks: nat -> nat -> Timeval, p: Primary, o: seq<Datagram>) {
    && History(p0, turns, wakeups, clocks) && actions == Played(turns, wakeups, clocks)
    && p == ApplyAll(p0, actions) && o == out + EmitsAll(p0, actions)
    && Timely(p.queue, clocks(|turns|)(0))
  }

  lemma RanNothing(p: Primary, out: seq<Datagram>, wakeups: seq<Wakeup>, clocks: nat -> nat -> Timeval)
    requires Timely(p.queue, clocks(0)(0))
    ensures Ran(p, out, [], [], wakeups, clocks, p, out)
  {
    assert out == out + [];
  }

  lemma PlayedOn(p0: Primary, out: seq<Datagram>, actions: seq<Action>, more: seq<Action>, p: Primary,
                 o: seq<Datagram>)
    requires p == ApplyAll(p0, actions) && o == out + EmitsAll(p0, actions)
    ensures ApplyAll(p, more) == ApplyAll(p0, actions + more)
    ensures o + EmitsAll(p, more) == out + EmitsAll(p0, actions + more)
  {
    ApplyConcat(p0, actions, more);
    Chain(out, EmitsAll(p0, actions), EmitsAll(p, more));
  }

  lemma RanOn(p0: Primary, out: seq<Datagram>, actions: seq<Action>, turns: seq<TurnRecord>, turn: TurnRecord,
              wakeups: seq<Wakeup>, clocks: nat -> nat -> Timeval, p: Primary, o: seq<Datagram>, more: seq<Action>,
              all: seq<TurnRecord>)
    requires ClocksOk(clocks) && Ran(p0, out, actions, turns, wakeups, clocks, p, o)
    requires |turns| < |wakeups| && turn.before == p && |all| == |turns| + 1
    requires more == TurnActions(p.queue, wakeups[|turns|], clocks(|turns|), turn.fired)
    requires History(p0, all, wakeups, clocks) && Played(all, wakeups, clocks) == actions + more
    ensures Ran(p0, out, actions + more, all, wakeups, clocks, ApplyAll(p, more), o + EmitsAll(p, more))
  {
    var i := |turns|;
    PlayedOn(p0, out, actions, more, p, o);
    TurnTimely(p, wakeups[i], clocks(i), turn.fired, clocks(i + 1)(0));
  }

  lemma RanOneMore(p0: Primary, out: seq<Datagram>, actions: seq<Action>, turns: seq<TurnRecord>, turn: TurnRecord,
                   wakeups: seq<Wakeup>, clocks: nat -> nat -> Timeval, p: Primary, o: seq<Datagram>, more: seq<Action>,
                   all: seq<TurnRecord>)
    requires ClocksOk(clocks) && Ran(p0, out, actions, turns, wakeups, clocks, p, o)
    requires |turns| < |wakeups| && turn.before == p && all == turns + [turn]
    requires more == TurnActions(p.queue, wakeups[|turns|], clocks(|turns|), turn.fired)
    requires TurnFits(turn, Carried(turns), wakeups[|turns|], clocks(|turns|))
    ensures Ran(p0, out, actions + more, all, wakeups, clocks, ApplyAll(p, more), o + EmitsAll(p, more))
  {
    OneMoreTurn(p0, turns, turn, wakeups, clocks);
    RanOn(p0, out, actions, turns, turn, wakeups, clocks, p, o, more, all);
  }

  lemma TurnResends(p: Primary, clock: nat -> Timeval, n: nat)
    requires n <= |p.queue|
    ensures ApplyAll(p, HeadCheck(p.queue, clock)).queue == Checked(p.queue, clock)
    ensures EmitsAll(p, HeadCheck(p.queue, clock)) + Resends(Checked(p.queue, clock)[..n]) ==
            Resends(FiredTimers(p.queue, clock, n))
  {
    var rest := Checked(p.queue, clock)[..n];
    if HeadDue(p.queue, clock(0)) {
      JustOne(p, Fire(clock(1)));
      ResendsBehind(p.queue[0], rest);
    } else {
      assert HeadCheck(p.queue, clock) == [];
      assert [] + rest == rest && [] + Resends(rest) == Resends(rest);
    }
  }

  /** The head check and what follows it make up the turn. */
  lemma TurnDone(p: Primary, out: seq<Datagram>, wakeup: Wakeup, clock: nat -> Timeval, fired: nat, last: nat,
                 exit: bool,
                 r: Primary, o: seq<Datagram>)
    requires var p1, rest := ApplyAll(p, HeadCheck(p.queue, clock)), WakeupActions(wakeup, clock, fired);
             && r == ApplyAll(p1, rest)
             && o == out + EmitsAll(p, HeadCheck(p.queue, clock)) + EmitsAll(p1, rest)
             && (wakeup.TimedOut? && !exit ==>
                 && HeadAndDue(p1.queue, fired, clock(last)) && 2 <= last
                 && EmitsAll(p1, rest) == Resends(p1.queue[..fired]))
    ensures r == ApplyAll(p, TurnActions(p.queue, wakeup, clock, fired))
    ensures o == out + EmitsAll(p, TurnActions(p.queue, wakeup, clock, fired))
    ensures wakeup.TimedOut? && !exit ==>
              TurnFires(p.queue, clock, fired, last) && o == out + Resends(FiredTimers(p.queue, clock, fired))
  {
    var check, rest := HeadCheck(p.queue, clock), WakeupActions(wakeup, clock, fired);
    var p1 := ApplyAll(p, check);
    ApplyConcat(p, check, rest);
    Chain(out, EmitsAll(p, check), EmitsAll(p1, rest));
    TurnResends(p, clock, 0);
    if wakeup.TimedOut? && !exit {
      TurnResends(p, clock, fired);
    }
  }

  lemma ResendsBehind(t: Timer<OctaneTimer>, q: Queue)
    ensures Resends([t] + q) == [Resend(t)] + Resends(q)
  {
  }

  /** Exactly when a timed-out turn fires some timer twice: the head was due before select, and fired and rescheduled
      it is at the front again, or due again at the last reading. */
  lemma {:induction false} FiredTwiceIff(q: Queue, clock: nat -> Timeval, fired: nat, last: nat)
    requires q != [] && DistinctHandles(q) && TurnFires(q, clock, fired, last)
    ensures var fs, again := FiredTimers(q, clock, fired), Rescheduled(q[0], clock(1));
            (exists i, j :: 0 <= i < j < |fs| && fs[i].hdl == fs[j].hdl) <==>
            HeadDue(q, clock(0)) && (|q| == 1 || Cmp(again.expiry, q[1].expiry) <= 0 || Due(again, clock(last)))
  {
    if HeadDue(q, clock(0)) {
      var k := Again(q, clock, fired, last);
      RepeatedIff(q[0], Checked(q, clock), k, fired);
    } else {
      assert FiredTimers(q, clock, fired) == q[..fired];
    }
  }

  lemma RepeatedIff(t: Timer<OctaneTimer>, c: Queue, k: nat, n: nat)
    requires DistinctHandles(c) && k < |c| && c[k].hdl == t.hdl && n <= |c|
    ensures var fs := [t] + c[..n]; (exists i, j :: 0 <= i < j < |fs| && fs[i].hdl == fs[j].hdl) <==> k < n
  {
    var fs := [t] + c[..n];
    if k < n {
      assert fs[0].hdl == fs[k + 1].hdl;
    } else {
      forall i, j | 0 <= i < j < |fs| ensures fs[i].hdl != fs[j].hdl {
        assert fs[j] == c[j - 1];
        assert if i == 0 then fs[i].hdl == c[k].hdl else fs[i] == c[i - 1];
      }
    }
  }

  /** Where the rescheduled head goes, and when it is fired again. */
  lemma Again(q: Queue, clock: nat -> Timeval, fired: nat, last: nat) returns (k: nat)
    requires HeadDue(q, clock(0)) && DistinctHandles(q) && TurnFires(q, clock, fired, last)
    ensures k < |q| && Checked(q, clock)[k] == Rescheduled(q[0], clock(1)) && DistinctHandles(Checked(q, clock))
    ensures var again := Rescheduled(q[0], clock(1));
            k < fired <==> |q| == 1 || Cmp(again.expiry, q[1].expiry) <= 0 || Due(again, clock(last))
  {
    var again := Rescheduled(q[0], clock(1));
    k := Rank(Expiries(q[1..]), again.expiry);
    InsertedAt(q[1..], k, again);
    TailMembers(q);
    InsertMembers(q[1..], again);
    assert Checked(q, clock)[k] == again;
    assert k == 0 <==> |q| == 1 || Cmp(again.expiry, q[1].expiry) <= 0;
  }

  /** Each turn reads a clock that has not gone back since the turn before. */
  ghost predicate ClocksOk(clocks: nat -> nat -> Timeval) {
    && (forall i: nat :: ClockOk(clocks(i)))
    && (forall i: nat, j: nat :: Cmp(clocks(i)(j), clocks(i + 1)(0)) <= 0)
  }

  ghost predicate Timely(q: Queue, now: Timeval) {
    Near(q, now) && Retransmits(q)
  }

  ghost predicate NoLater(a: Action, t: Timeval) {
    a.Echo? || Micros(a.now) <= Micros(t)
  }

  lemma TimelyInsert(q: Queue, t: Timer<OctaneTimer>, now: Timeval)
    requires Timely(q, now) && t.timeout == RETRANSMIT_AFTER && Micros(t.expiry) <= Micros(now) + WINDOW
    ensures Timely(Insert(q, t), now)
  {
  }

  lemma {:induction false} TimelyRemove(q: Queue, hdl: int, now: Timeval)
    requires Timely(q, now)
    ensures Timely(RemoveHandle(q, hdl), now)
  {
    if q != [] && q[0].hdl != hdl {
      TimelyRemove(q[1..], hdl, now);
    }
  }

  lemma ActionTimely(p: Primary, a: Action, t: Timeval)
    requires Timely(p.queue, t) && NoLater(a, t)
    ensures Timely(Apply(p, a).queue, t)
  {
    match a {
      case Send(req, dst, now) =>
        LaterAddsExactly(now, RETRANSMIT_AFTER);
        TimelyInsert(p.queue, Armed(p, req, dst, now), t);
      case Fire(now) =>
        if p.queue != [] {
          LaterAddsExactly(now, RETRANSMIT_AFTER);
          TimelyInsert(p.queue[1..], Rescheduled(p.queue[0], now), t);
        }
      case Echo(msg) =>
        TimelyRemove(p.queue, LookUp(p, msg.seqno), t);
    }
  }

  lemma {:induction false} ActionsTimely(p: Primary, actions: seq<Action>, t: Timeval)
    requires Timely(p.queue, t) && forall a :: a in actions ==> NoLater(a, t)
    ensures Timely(ApplyAll(p, actions).queue, t)
    decreases |actions|
  {
    if actions != [] {
      ActionTimely(p, actions[0], t);
      ActionsTimely(Apply(p, actions[0]), actions[1..], t);
    }
  }

  lemma TurnTimely(p: Primary, wakeup: Wakeup, clock: nat -> Timeval, fired: nat, next: Timeval)
    requires Timely(p.queue, clock(0)) && ClockOk(clock) && Normal(next)
    requires forall j :: Cmp(clock(j), next) <= 0
    ensures Timely(ApplyAll(p, TurnActions(p.queue, wakeup, clock, fired)).queue, next)
  {
    forall j ensures Micros(clock(j)) <= Micros(next) {
      CmpIsTimeOrder(clock(j), next);
    }
    var actions := TurnActions(p.queue, wakeup, clock, fired);
    assert Micros(clock(0)) <= Micros(next);
    forall a | a in actions ensures NoLater(a, next) {
      if a in WakeupActions(wakeup, clock, fired) {
        WakeupReading(a, wakeup, clock, fired);
      }
    }
    ActionsTimely(p, actions, next);
  }

  /** Whatever is done after a wake-up is done at some reading of the clock. */
  lemma WakeupReading(a: Action, wakeup: Wakeup, clock: nat -> Timeval, fired: nat)
    requires a in WakeupActions(wakeup, clock, fired)
    ensures a.Echo? || exists j :: a.now == clock(j)
  {
    if wakeup.Ready? && wakeup.tunnel.Some? && wakeup.tunnel.value.Four? && !a.Echo? {
      assert a.now == clock(2) || a.now == clock(3) || a.now == clock(4) || a.now == clock(5);
    }
  }

  lemma IdleAcknowledged(p: Primary, actions: seq<Action>)
    requires ApplyAll(p, actions).queue == []
    ensures Registered(p) && NoReuse(p, actions) ==> forall s :: s !in ApplyAll(p, actions).unAck
  {
    if Registered(p) && NoReuse(p, actions) {
      RunKeepsRegistered(p, actions);
      IdleMeansAcknowledged(ApplyAll(p, actions));
    }
  }

  lemma EmptyTurn(p: Primary, wakeup: Wakeup, clock: nat -> Timeval, fired: nat)
    requires wakeup.TimedOut? && p.queue == []
    ensures ApplyAll(p, TurnActions(p.queue, wakeup, clock, fired)).queue == []
  {
    EmptyFires(p, clock, fired);
    assert TurnActions(p.queue, wakeup, clock, fired) == Fires(clock, fired);
  }

  lemma {:induction false} EmptyFires(p: Primary, clock: nat -> Timeval, n: nat)
    requires p.queue == []
    ensures ApplyAll(p, Fires(clock, n)) == p
  {
    if n > 0 {
      EmptyFires(p, clock, n - 1);
      FiresStep(p, clock, n - 1);
    } else {
      assert Fires(clock, 0) == [];
    }
  }

  lemma Chain(a: seq<Datagram>, b: seq<Datagram>, c: seq<Datagram>)
    ensures (a + b) + c == a + (b + c)
  {
  }

  lemma NearIsNotMax(x: Timeval, now: Timeval)
    requires Loose(x) && Normal(now) && Micros(x) <= Micros(now) + WINDOW
    ensures Minus(x, now).sec < MAXVALUE
  {
  }

  lemma CheckKeeps(p: Primary, clock: nat -> Timeval)
    requires Retransmits(p.queue)
    ensures var q := ApplyAll(p, HeadCheck(p.queue, clock)).queue;
            Retransmits(q) && (q == [] <==> p.queue == [])
  {
  }

  // ---------- Actions in a row ----------

  lemma SentTwo(p: Primary, req: Request, revPort: u16, dst: Addr, now1: Timeval, now2: Timeval, t1: int, t2: int)
    requires t1 == p.nextHandle && t2 == t1 + 1
    ensures var both, seqno2 := TwoSends(req, revPort, dst, now1, now2), Increment(p.seqnoCnt);
            var msg1, msg2 := NewMessage(req, p.seqnoCnt), NewMessage(Reverse(req, revPort), seqno2);
            && ApplyAll(p, both) == Primary(
                 Increment(seqno2), p.unAck[p.seqnoCnt := t1][seqno2 := t2], t2 + 1,
                 Insert(Insert(p.queue, NewTimer(t1, OctaneTimer(msg1, p.seqnoCnt, dst), now1)),
                        NewTimer(t2, OctaneTimer(msg2, seqno2, dst), now2)))
            && EmitsAll(p, both) == [Datagram(dst, msg1), Datagram(dst, msg2)]
  {
    InARow(p, Send(req, dst, now1), Send(Reverse(req, revPort), dst, now2));
  }

  lemma SentFour(p: Primary, req: Request, revPort: u16, dst: Addr, req2: Request, revPort2: u16, dst2: Addr,
                 now1: Timeval, now2: Timeval, now3: Timeval, now4: Timeval,
                 cb1: OctaneTimer, cb2: OctaneTimer, cb3: OctaneTimer, cb4: OctaneTimer,
                 t1: int, t2: int, t3: int, t4: int)
    requires t1 == p.nextHandle && t2 == t1 + 1 && t3 == t2 + 1 && t4 == t3 + 1
    requires cb1 == OctaneTimer(NewMessage(req, p.seqnoCnt), p.seqnoCnt, dst)
    requires cb2 == OctaneTimer(NewMessage(Reverse(req, revPort), Increment(cb1.seqno)), Increment(cb1.seqno), dst)
    requires cb3 == OctaneTimer(NewMessage(req2, Increment(cb2.seqno)), Increment(cb2.seqno), dst2)
    requires cb4 == OctaneTimer(NewMessage(Reverse(req2, revPort2), Increment(cb3.seqno)), Increment(cb3.seqno), dst2)
    ensures var four := TwoSends(req, revPort, dst, now1, now2) + TwoSends(req2, revPort2, dst2, now3, now4);
            && ApplyAll(p, four) == Primary(
                 Increment(cb4.seqno),
                 p.unAck[cb1.seqno := t1][cb2.seqno := t2][cb3.seqno := t3][cb4.seqno := t4], t4 + 1,
                 Insert(Insert(Insert(Insert(p.queue, NewTimer(t1, cb1, now1)), NewTimer(t2, cb2, now2)),
                               NewTimer(t3, cb3, now3)), NewTimer(t4, cb4, now4)))
            && EmitsAll(p, four) == [Datagram(dst, cb1.msg), Datagram(dst, cb2.msg)]
                                    + [Datagram(dst2, cb3.msg), Datagram(dst2, cb4.msg)]
  {
    var ab, cd := TwoSends(req, revPort, dst, now1, now2), TwoSends(req2, revPort2, dst2, now3, now4);
    SentTwo(p, req, revPort, dst, now1, now2, t1, t2);
    SentTwo(ApplyAll(p, ab), req2, revPort2, dst2, now3, now4, t3, t4);
    ApplyConcat(p, ab, cd);
  }

  lemma MadePair(req: Request, revPort: u16, dst: Addr, seqno1: u16, seqno2: u16)
    ensures PairTo(Datagram(dst, NewMessage(req, seqno1)), Datagram(dst, NewMessage(Reverse(req, revPort), seqno2)),
                   req, revPort, dst)
  {
  }

  lemma JustOne(p: Primary, a: Action)
    ensures ApplyAll(p, [a]) == Apply(p, a) && EmitsAll(p, [a]) == Emits(p, a)
  {
  }

  lemma InARow(p: Primary, a: Action, b: Action)
    ensures ApplyAll(p, [a, b]) == Apply(Apply(p, a), b)
    ensures EmitsAll(p, [a, b]) == Emits(p, a) + Emits(Apply(p, a), b)
  {
    assert [a, b][1..] == [b];
    JustOne(Apply(p, a), b);
  }

  // ---------- The actions, field by field ----------

  lemma InsertCounts(q: Queue, t: Timer<OctaneTimer>)
    ensures multiset(Insert(q, t)) == multiset(q) + multiset{t}
  {
    var k := Rank(Expiries(q), t.expiry);
    InsertedAt(q, k, t);
    assert q == q[..k] + q[k..];
  }

  lemma MoreTimers(hdl: int, ds: seq<Datagram>, d: Datagram, times: seq<Timeval>)
    requires |ds| < |times|
    ensures TimersFor(hdl, ds + [d], times) == TimersFor(hdl, ds, times) + [TimerFor(hdl + |ds|, d, times[|ds|])]
  {
  }

  lemma NextNumber(seqno: u16, n: nat)
    ensures Increment((seqno + n) % 0x1_0000) == (seqno + (n + 1)) % 0x1_0000
  {
  }

  lemma OtherNumber(seqno: u16, i: nat, n: nat)
    requires i < n < 0x1_0000
    ensures (seqno + i) % 0x1_0000 != (seqno + n) % 0x1_0000
  {
  }

  lemma RecordedNext(unAck: map<int, int>, unAck': map<int, int>, hdl: int, seqno: u16, ds: seq<Datagram>, d: Datagram)
    requires Recorded(unAck, unAck', hdl, ds) && Consecutive(seqno, ds) && |ds| < 0x1_0000
    requires d.msg.seqno == (seqno + |ds|) % 0x1_0000
    ensures Recorded(unAck, unAck'[d.msg.seqno := hdl + |ds|], hdl, ds + [d])
  {
    var all := ds + [d];
    forall i | 0 <= i < |ds| ensures ds[i].msg.seqno != d.msg.seqno {
      OtherNumber(seqno, i, |ds|);
    }
    forall s ensures HasNumber(all, s) <==> HasNumber(ds, s) || s == d.msg.seqno {
      if HasNumber(ds, s) {
        var i :| 0 <= i < |ds| && ds[i].msg.seqno == s;
        assert all[i].msg.seqno == s;
      }
      assert all[|ds|] == d;
    }
  }

  lemma SentNothing(p: Primary, times: seq<Timeval>)
    ensures SentFrom(p, p, [], times)
  {
  }

  lemma NumberedNext(p: Primary, q: Primary, ds: seq<Datagram>, r: Primary, d: Datagram)
    requires NumberedFrom(p, q, ds) && |ds| < 0x1_0000 && d.msg.seqno == q.seqnoCnt
    requires r.seqnoCnt == Increment(q.seqnoCnt) && r.nextHandle == q.nextHandle + 1
    requires r.unAck == q.unAck[q.seqnoCnt := q.nextHandle]
    ensures NumberedFrom(p, r, ds + [d])
  {
    NextNumber(p.seqnoCnt, |ds|);
    RecordedNext(p.unAck, q.unAck, p.nextHandle, p.seqnoCnt, ds, d);
  }

  lemma ArmedNext(p: Primary, q: Primary, ds: seq<Datagram>, times: seq<Timeval>, r: Primary, d: Datagram)
    requires |ds| < |times| && ArmedFrom(p, q, ds, times) && q.nextHandle == p.nextHandle + |ds|
    requires r.queue == Insert(q.queue, TimerFor(q.nextHandle, d, times[|ds|]))
    ensures ArmedFrom(p, r, ds + [d], times)
  {
    MoreTimers(p.nextHandle, ds, d, times);
    InsertCounts(q.queue, TimerFor(q.nextHandle, d, times[|ds|]));
  }

  /** One more message sent behind the others. */
  lemma SentNext(p: Primary, q: Primary, ds: seq<Datagram>, req: Request, dst: Addr, times: seq<Timeval>)
    requires |ds| < |times| && |ds| < 0x1_0000 && SentFrom(p, q, ds, times)
    ensures var a := Send(req, dst, times[|ds|]);
            |Emits(q, a)| == 1 && SentFrom(p, Apply(q, a), ds + Emits(q, a), times)
  {
    var a, d := Send(req, dst, times[|ds|]), Datagram(dst, NewMessage(req, q.seqnoCnt));
    NumberedNext(p, q, ds, Apply(q, a), d);
    ArmedNext(p, q, ds, times, Apply(q, a), d);
  }

  lemma OneSent(p: Primary, req: Request, dst: Addr, times: seq<Timeval>)
    requires |times| >= 1
    ensures var a := [Send(req, dst, times[0])]; var ds := EmitsAll(p, a);
            |ds| == 1 && ds[0].dst == dst && Installs(ds[0].msg, req) && SentFrom(p, ApplyAll(p, a), ds, times)
  {
    var a := Send(req, dst, times[0]);
    JustOne(p, a);
    SentNothing(p, times);
    SentNext(p, p, [], req, dst, times);
    assert [] + Emits(p, a) == Emits(p, a);
  }

  /** A rule and its reverse sent behind the others. */
  lemma PairSent(p: Primary, q: Primary, ds: seq<Datagram>, req: Request, revPort: u16, dst: Addr, times: seq<Timeval>)
    requires |ds| + 1 < |times| && |ds| + 1 < 0x1_0000 && SentFrom(p, q, ds, times)
    ensures var both := TwoSends(req, revPort, dst, times[|ds|], times[|ds| + 1]); var more := EmitsAll(q, both);
            && |more| == 2 && PairTo(more[0], more[1], req, revPort, dst)
            && SentFrom(p, ApplyAll(q, both), ds + more, times)
  {
    var a, b := Send(req, dst, times[|ds|]), Send(Reverse(req, revPort), dst, times[|ds| + 1]);
    InARow(q, a, b);
    SentNext(p, q, ds, req, dst, times);
    SentNext(p, Apply(q, a), ds + Emits(q, a), Reverse(req, revPort), dst, times);
    Chain(ds, Emits(q, a), Emits(Apply(q, a), b));
  }

  lemma TwoSent(p: Primary, req: Request, revPort: u16, dst: Addr, times: seq<Timeval>)
    requires |times| >= 2
    ensures var both := TwoSends(req, revPort, dst, times[0], times[1]); var ds := EmitsAll(p, both);
            && |ds| == 2 && PairTo(ds[0], ds[1], req, revPort, dst)
            && SentFrom(p, ApplyAll(p, both), ds, times)
  {
    SentNothing(p, times);
    PairSent(p, p, [], req, revPort, dst, times);
    var ds := EmitsAll(p, TwoSends(req, revPort, dst, times[0], times[1]));
    assert [] + ds == ds;
  }

  lemma FourSent(p: Primary, req: Request, revPort: u16, dst: Addr, req2: Request, revPort2: u16, dst2: Addr,
                 times: seq<Timeval>)
    requires |times| >= 4
    ensures var four := TwoSends(req, revPort, dst, times[0], times[1])
                        + TwoSends(req2, revPort2, dst2, times[2], times[3]);
            var ds := EmitsAll(p, four);
            && |ds| == 4 && PairTo(ds[0], ds[1], req, revPort, dst) && PairTo(ds[2], ds[3], req2, revPort2, dst2)
            && SentFrom(p, ApplyAll(p, four), ds, times)
  {
    var ab := TwoSends(req, revPort, dst, times[0], times[1]);
    var cd := TwoSends(req2, revPort2, dst2, times[2], times[3]);
    TwoSent(p, req, revPort, dst, times);
    PairSent(p, ApplyAll(p, ab), EmitsAll(p, ab), req2, revPort2, dst2, times);
    ApplyConcat(p, ab, cd);
  }

  lemma EchoAcks(p: Primary, msg: OctaneControl)
    ensures AckedFrom(p, Apply(p, Echo(msg)), msg)
  {
    if msg.flags == 1 {
      if DistinctHandles(p.queue) {
        RemoveMembers(p.queue, LookUp(p, msg.seqno));
      }
      if Registered(p) {
        EchoRemovesItsTimer(p, msg);
      }
    }
  }

  lemma HeadChecked(p: Primary, clock: nat -> Timeval)
    requires Retransmits(p.queue)
    ensures CheckedFrom(p, ApplyAll(p, HeadCheck(p.queue, clock)), clock)
    ensures EmitsAll(p, HeadCheck(p.queue, clock)) ==
            if HeadDue(p.queue, clock(0)) then [Datagram(p.queue[0].cb.dst, p.queue[0].cb.msg)] else []
  {
    if HeadDue(p.queue, clock(0)) {
      JustOne(p, Fire(clock(1)));
      InsertCounts(p.queue[1..], Rescheduled(p.queue[0], clock(1)));
    }
  }

  lemma TunnelSent(p: Primary, t: Option<TunnelInput>, clock: nat -> Timeval)
    ensures var a := TunnelActions(t, clock); var ds := EmitsAll(p, a);
            && TunnelAnswered(t, ds) && |ds| <= 4
            && SentFrom(p, ApplyAll(p, a), ds, [clock(2), clock(3), clock(4), clock(5)])
  {
    var times := [clock(2), clock(3), clock(4), clock(5)];
    match t {
      case None => SentNothing(p, times);
      case Some(Nothing(_)) => SentNothing(p, times);
      case Some(One(req, dst)) => OneSent(p, req, dst, times);
      case Some(Two(req, rev, dst)) => TwoSent(p, req, rev, dst, times);
      case Some(Four(req, rev, dst, req2, rev2, dst2)) => FourSent(p, req, rev, dst, req2, rev2, dst2, times);
    }
  }

  lemma SocketSent(p: Primary, s: Option<SocketInput>)
    ensures SocketRead(p, ApplyAll(p, SocketActions(s)), s) && EmitsAll(p, SocketActions(s)) == []
  {
    match s {
      case Some(Control(msg)) =>
        JustOne(p, Echo(msg));
        EchoAcks(p, msg);
      case _ =>
    }
  }

  /** The stages of a turn in which packets have arrived. */
  ghost function WorkOf(p: Primary, wakeup: Wakeup, clock: nat -> Timeval): Work {
    var checked := ApplyAll(p, HeadCheck(p.queue, clock));
    var a := if wakeup.Ready? then TunnelActions(wakeup.tunnel, clock) else [];
    Work(checked, EmitsAll(checked, a), ApplyAll(checked, a))
  }

  /** The actions of a turn in which packets have arrived, field by field. */
  lemma ReadyTurn(p: Primary, out: seq<Datagram>, wakeup: Wakeup, clock: nat -> Timeval, fired: nat)
    requires wakeup.Ready? && Retransmits(p.queue)
    ensures var actions := TurnActions(p.queue, wakeup, clock, fired);
            PacketsRead(p, out, ApplyAll(p, actions), out + EmitsAll(p, actions), wakeup.tunnel, wakeup.socket, clock,
                        WorkOf(p, wakeup, clock))
  {
    var work := WorkOf(p, wakeup, clock);
    var check, t, s := HeadCheck(p.queue, clock), TunnelActions(wakeup.tunnel, clock), SocketActions(wakeup.socket);
    HeadChecked(p, clock);
    TunnelSent(work.checked, wakeup.tunnel, clock);
    SocketSent(work.numbered, wakeup.socket);
    ApplyConcat(p, check, t + s);
    ApplyConcat(work.checked, t, s);
    Chain(out, EmitsAll(p, check), work.sent);
    assert work.sent + [] == work.sent;
  }

  /** An acknowledgement that arrives alone, with the head not due: exactly its number and its timer are gone. */
  lemma AckTurn(p: Primary, msg: OctaneControl, left: Timeval, clock: nat -> Timeval, fired: nat)
    requires Registered(p) && !HeadDue(p.queue, clock(0)) && msg.flags == 1
    ensures var actions := TurnActions(p.queue, Ready(left, None, Some(Control(msg))), clock, fired);
            var r := ApplyAll(p, actions);
            && EmitsAll(p, actions) == [] && r.seqnoCnt == p.seqnoCnt && r.nextHandle == p.nextHandle
            && r.unAck == (map s | s in p.unAck && s != msg.seqno :: p.unAck[s])
            && (forall t :: t in r.queue <==> t in p.queue && t.cb.seqno != msg.seqno)
  {
    var actions := TurnActions(p.queue, Ready(left, None, Some(Control(msg))), clock, fired);
    assert actions == [Echo(msg)];
    JustOne(p, Echo(msg));
    EchoAcks(p, msg);
  }

  lemma WaitedFiresAreDue(q: Queue, clock: nat -> Timeval, told: Timeval, fired: nat, last: nat)
    requires q != [] && SortedTimers(q) && ClockOk(clock) && Told(q, clock(0), told)
    requires TurnFires(q, clock, fired, last)
    ensures FiresDue(q, clock, told, fired, last)
  {
    if !HeadDue(q, clock(0)) && Micros(clock(2)) >= Micros(clock(0)) + Micros(told) {
      WaitedFireIsDue(q, clock(0), told, clock(2));
      CmpTransitive(q[0].expiry, clock(2), clock(last));
      assert FiredTimers(q, clock, fired) == q[..fired];
    }
  }
}
