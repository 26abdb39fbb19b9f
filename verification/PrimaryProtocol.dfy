/** What the primary router does to its retransmission state: send, fire a timer, handle an echo. */
module PrimaryProtocol {
  import opened Bytes
  import opened Timevals
  import opened EventQueues
  import opened TimerLibrary
  import opened ControlMessage

  /** Socket address of a secondary router. */
  type Addr = nat

  const RETRANSMIT_AFTER: nat := 2000

  /** cOctaneTimer: what Expire sends again. */
  datatype OctaneTimer = OctaneTimer(msg: OctaneControl, seqno: int, dst: Addr)

  datatype Datagram = Datagram(dst: Addr, msg: OctaneControl)

  /** What a rule-installation message is made from: the tunnelled packet's flow, an action and a target port. */
  datatype Request = Request(action: byte, srcIp: u32, dstIp: u32, srcPort: u16, dstPort: u16, protocol: u16, port: u16)

  function NewMessage(r: Request, seqno: u16): OctaneControl {
    OctaneControl(r.action, 0, seqno, r.srcIp, r.dstIp, r.srcPort, r.dstPort, r.protocol, r.port)
  }

  function RequestOf(m: OctaneControl): Request {
    Request(m.action, m.srcIp, m.dstIp, m.srcPort, m.dstPort, m.protocol, m.port)
  }

  /** createReverseOctaneMsg. Its test for a target port of -1 compares a uint16_t with -1 and never holds,
      so the given port is always used. */
  function Reverse(r: Request, port: u16): Request {
    Request(r.action, r.dstIp, r.srcIp, r.dstPort, r.srcPort, r.protocol, port)
  }

  /** seqnoCnt is m_iSeqnoCnt, unAck is m_unAckBuffer, nextHandle and queue belong to the timer library. */
  datatype Primary = Primary(seqnoCnt: u16, unAck: map<int, int>, nextHandle: int, queue: seq<Timer<OctaneTimer>>)

  const START := Primary(1, map[], 1, [])

  datatype Action =
    | Send(req: Request, dst: Addr, now: Timeval)
    | Fire(now: Timeval)
    | Echo(msg: OctaneControl)

  function Increment(seqno: u16): u16 {
    if seqno == 0xFFFF then 0 else seqno + 1
  }

  function Armed(p: Primary, req: Request, dst: Addr, now: Timeval): Timer<OctaneTimer> {
    NewTimer(p.nextHandle, OctaneTimer(NewMessage(req, p.seqnoCnt), p.seqnoCnt, dst), now)
  }

  function NewTimer(hdl: int, cb: OctaneTimer, now: Timeval): Timer<OctaneTimer> {
    Timer(hdl, RETRANSMIT_AFTER, cb, Later(now, RETRANSMIT_AFTER))
  }

  /** The timer handle an echo looks up; a missing entry of m_unAckBuffer reads as 0. */
  function LookUp(p: Primary, seqno: int): int {
    if seqno in p.unAck then p.unAck[seqno] else 0
  }

  ghost function Rescheduled(t: Timer<OctaneTimer>, now: Timeval): Timer<OctaneTimer>
  {
    t.(expiry := Later(now, if t.timeout < 0 then 0 else t.timeout))
  }

  ghost function Apply(p: Primary, a: Action): Primary {
    match a
    case Send(req, dst, now) =>
      Primary(Increment(p.seqnoCnt), p.unAck[p.seqnoCnt := p.nextHandle], p.nextHandle + 1,
              Insert(p.queue, Armed(p, req, dst, now)))
    case Fire(now) =>
      if p.queue == [] then p
      else p.(queue := Insert(p.queue[1..], Rescheduled(p.queue[0], now)))
    case Echo(msg) =>
      if msg.flags != 1 then p
      else p.(queue := RemoveHandle(p.queue, LookUp(p, msg.seqno)), unAck := p.unAck - {msg.seqno})
  }

  /** The datagrams an action hands to the socket. */
  function Emits(p: Primary, a: Action): seq<Datagram> {
    match a
    case Send(req, dst, now) => [Datagram(dst, NewMessage(req, p.seqnoCnt))]
    case Fire(now) => if p.queue == [] then [] else [Resend(p.queue[0])]
    case Echo(msg) => []
  }

  function Resend(t: Timer<OctaneTimer>): Datagram {
    Datagram(t.cb.dst, t.cb.msg)
  }

  ghost function ApplyAll(p: Primary, actions: seq<Action>): Primary
    decreases |actions|
  {
    if actions == [] then p else ApplyAll(Apply(p, actions[0]), actions[1..])
  }

  ghost function EmitsAll(p: Primary, actions: seq<Action>): seq<Datagram>
    decreases |actions|
  {
    if actions == [] then [] else Emits(p, actions[0]) + EmitsAll(Apply(p, actions[0]), actions[1..])
  }

  lemma {:induction false} ApplyConcat(p: Primary, a: seq<Action>, b: seq<Action>)
    ensures ApplyAll(p, a + b) == ApplyAll(ApplyAll(p, a), b)
    ensures EmitsAll(p, a + b) == EmitsAll(p, a) + EmitsAll(ApplyAll(p, a), b)
    decreases |a|
  {
    if a == [] {
      assert a + b == b;
    } else {
      assert (a + b)[1..] == a[1..] + b;
      ApplyConcat(Apply(p, a[0]), a[1..], b);
    }
  }

  // ---------- The timer queue as a set of timers ----------

  ghost predicate DistinctHandles(q: seq<Timer<OctaneTimer>>) {
    forall i, j :: 0 <= i < j < |q| ==> q[i].hdl != q[j].hdl
  }

  lemma InsertMembers(q: seq<Timer<OctaneTimer>>, t: Timer<OctaneTimer>)
    ensures forall x :: x in Insert(q, t) <==> x == t || x in q
    ensures DistinctHandles(q) && (forall x :: x in q ==> x.hdl != t.hdl) ==> DistinctHandles(Insert(q, t))
  {
  }

  lemma {:induction false} RemoveMembers(q: seq<Timer<OctaneTimer>>, hdl: int)
    requires DistinctHandles(q)
    ensures forall x :: x in RemoveHandle(q, hdl) <==> x in q && x.hdl != hdl
    ensures DistinctHandles(RemoveHandle(q, hdl))
  {
    if q != [] {
      assert q == [q[0]] + q[1..];
      if q[0].hdl != hdl {
        RemoveMembers(q[1..], hdl);
        var r := RemoveHandle(q[1..], hdl);
        assert RemoveHandle(q, hdl) == [q[0]] + r;
        forall i | 0 <= i < |r| ensures r[i].hdl != q[0].hdl {
          assert r[i] in q[1..];
        }
      }
    }
  }

  lemma TailMembers(q: seq<Timer<OctaneTimer>>)
    requires q != [] && DistinctHandles(q)
    ensures DistinctHandles(q[1..])
    ensures forall x :: x in q[1..] <==> x in q && x.hdl != q[0].hdl
  {
  }

  // ---------- m_unAckBuffer is a bijection onto the live timers ----------

  /** t is the retransmission timer of the unacknowledged message that its callback carries. */
  predicate Records(p: Primary, t: Timer<OctaneTimer>) {
    && t.cb.seqno in p.unAck && p.unAck[t.cb.seqno] == t.hdl
    && t.cb.msg.seqno == t.cb.seqno && t.cb.msg.flags == 0
    && 1 <= t.hdl < p.nextHandle && t.timeout == RETRANSMIT_AFTER
  }

  ghost predicate HasTimer(p: Primary, seqno: int) {
    exists t :: t in p.queue && t.cb.seqno == seqno
  }

  /** Every entry has its timer, queued once, and there are no other timers. */
  ghost predicate Registered(p: Primary) {
    && 1 <= p.nextHandle
    && DistinctHandles(p.queue)
    && (forall t :: t in p.queue ==> Records(p, t))
    && forall s :: s in p.unAck ==> HasTimer(p, s)
  }

  /** Sending keeps the bijection exactly when the next sequence number is not still unacknowledged;
      otherwise the old timer is orphaned. */
  lemma SendKeepsRegistered(p: Primary, req: Request, dst: Addr, now: Timeval)
    requires Registered(p)
    ensures Registered(Apply(p, Send(req, dst, now))) <==> p.seqnoCnt !in p.unAck
  {
    var t := Armed(p, req, dst, now);
    var r := Apply(p, Send(req, dst, now));
    InsertMembers(p.queue, t);
    if p.seqnoCnt in p.unAck {
      assert HasTimer(p, p.seqnoCnt);
      var initial :| initial in p.queue && initial.cb.seqno == p.seqnoCnt;
      assert initial in r.queue && !Records(r, initial);
    } else {
      forall x | x in p.queue ensures Records(r, x) {
        assert Records(p, x);
      }
      forall s | s in r.unAck ensures HasTimer(r, s) {
        if s == p.seqnoCnt {
          assert t in r.queue;
        } else {
          assert HasTimer(p, s);
        }
      }
    }
  }

  lemma FireKeepsRegistered(p: Primary, now: Timeval)
    requires Registered(p)
    ensures Registered(Apply(p, Fire(now)))
  {
    if p.queue != [] {
      var t := Rescheduled(p.queue[0], now);
      var r := Apply(p, Fire(now));
      TailMembers(p.queue);
      InsertMembers(p.queue[1..], t);
      assert Records(p, p.queue[0]);
      forall x | x in r.queue ensures Records(r, x) {
        assert x == t || Records(p, x);
      }
      forall s | s in r.unAck ensures HasTimer(r, s) {
        assert HasTimer(p, s);
        var x :| x in p.queue && x.cb.seqno == s;
        assert (if x.hdl == t.hdl then t else x) in r.queue by {
          if x.hdl == t.hdl { SameHandle(p.queue, x, p.queue[0]); }
        }
      }
    }
  }

  lemma SameHandle(q: seq<Timer<OctaneTimer>>, x: Timer<OctaneTimer>, y: Timer<OctaneTimer>)
    requires DistinctHandles(q) && x in q && y in q && x.hdl == y.hdl
    ensures x == y
  {
  }

  /** The handle an echo looks up belongs to the timer of that sequence number and to no other. */
  lemma LookUpFindsTimer(p: Primary, t: Timer<OctaneTimer>, seqno: int)
    requires Registered(p) && t in p.queue
    ensures t.hdl == LookUp(p, seqno) <==> t.cb.seqno == seqno
  {
  }

  /** An echo takes out the timer of its sequence number and nothing else. */
  lemma EchoRemovesItsTimer(p: Primary, msg: OctaneControl)
    requires Registered(p) && msg.flags == 1
    ensures forall t :: t in Apply(p, Echo(msg)).queue <==> t in p.queue && t.cb.seqno != msg.seqno
  {
    RemoveMembers(p.queue, LookUp(p, msg.seqno));
    forall t | t in p.queue ensures t.hdl == LookUp(p, msg.seqno) <==> t.cb.seqno == msg.seqno {
      LookUpFindsTimer(p, t, msg.seqno);
    }
  }

  lemma EchoKeepsRegistered(p: Primary, msg: OctaneControl)
    requires Registered(p)
    ensures Registered(Apply(p, Echo(msg)))
  {
    if msg.flags == 1 {
      var r := Apply(p, Echo(msg));
      EchoRemovesItsTimer(p, msg);
      RemoveMembers(p.queue, LookUp(p, msg.seqno));
      forall x | x in r.queue ensures Records(r, x) {
        assert Records(p, x);
      }
      forall s | s in r.unAck ensures HasTimer(r, s) {
        assert HasTimer(p, s);
        var x :| x in p.queue && x.cb.seqno == s;
        assert x in r.queue;
      }
    }
  }

  /** A duplicate echo, or one for a sequence number never sent, changes nothing. */
  lemma DuplicateEchoChangesNothing(p: Primary, msg: OctaneControl)
    requires Registered(p) && msg.seqno !in p.unAck
    ensures Apply(p, Echo(msg)) == p
  {
    forall i | 0 <= i < |p.queue| ensures p.queue[i].hdl != 0 {
      assert Records(p, p.queue[i]);
    }
    RemoveMissingHandle(p.queue, 0);
    assert p.unAck - {msg.seqno} == p.unAck;
  }

  /** With no timer queued, which is when the idle timeout may end the router, everything is acknowledged;
      and as long as something is unacknowledged, some timer is queued. */
  lemma IdleMeansAcknowledged(p: Primary)
    requires Registered(p)
    ensures p.queue == [] <==> forall s :: s !in p.unAck
  {
    if s :| s in p.unAck {
      assert HasTimer(p, s);
    }
    if p.queue != [] {
      assert Records(p, p.queue[0]);
    }
  }

  // ---------- Whole runs of the primary ----------

  /** No action sends under a sequence number that is still unacknowledged. */
  ghost predicate NoReuse(p: Primary, actions: seq<Action>)
    decreases |actions|
  {
    actions == [] ||
    ((actions[0].Send? ==> p.seqnoCnt !in p.unAck) && NoReuse(Apply(p, actions[0]), actions[1..]))
  }

  lemma {:induction false} RunKeepsRegistered(p: Primary, actions: seq<Action>)
    requires Registered(p) && NoReuse(p, actions)
    ensures Registered(ApplyAll(p, actions))
    decreases |actions|
  {
    if actions != [] {
      match actions[0] {
        case Send(req, dst, now) => SendKeepsRegistered(p, req, dst, now);
        case Fire(now) => FireKeepsRegistered(p, now);
        case Echo(msg) => EchoKeepsRegistered(p, msg);
      }
      RunKeepsRegistered(Apply(p, actions[0]), actions[1..]);
    }
  }
}
