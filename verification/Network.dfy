/** One primary and any number of secondaries on a channel that loses, duplicates and reorders datagrams. */
module Network {
  import opened Bytes
  import opened Timevals
  import opened EventQueues
  import opened TimerLibrary
  import opened ControlMessage
  import opened OrderedMaps
  import opened PrimaryProtocol
  import opened Draining
  import PrimaryRouters
  import opened SecondaryRouters

  datatype Packet = ToSecondary(dst: Addr, msg: OctaneControl) | ToPrimary(src: Addr, msg: OctaneControl)

  /** sent is the history of rule-installation messages with the secondary each was addressed to. */
  datatype State = State(prim: Primary, secs: map<Addr, Secondary>, net: multiset<Packet>, sent: seq<Datagram>)

  datatype Step =
    | SendStep(req: Request, dst: Addr, sendTime: Timeval)
    | FireStep(fireTime: Timeval)
    | Deliver(packet: Packet)
    | Lose(packet: Packet)
    | Duplicate(packet: Packet)
    | Rebalance(at: Addr, counts: Tree<int>, dropped: Tree<FlowAction>)

  /** A fresh primary and one fresh secondary for every configured address, each with its drop_after. */
  function Init(dropAfter: map<Addr, int>): State {
    State(START, map a | a in dropAfter :: Fresh(dropAfter[a]), multiset{}, [])
  }

  function Wire(ds: seq<Datagram>): multiset<Packet> {
    multiset(seq(|ds|, i requires 0 <= i < |ds| => ToSecondary(ds[i].dst, ds[i].msg)))
  }

  function Acks(src: Addr, ms: seq<OctaneControl>): multiset<Packet> {
    multiset(seq(|ms|, i requires 0 <= i < |ms| => ToPrimary(src, ms[i])))
  }

  /** One step; a step about a packet that is not in flight does nothing. The map library of a secondary may give its
      trees another shape at any time. */
  ghost function Do(s: State, step: Step): State {
    match step
    case SendStep(req, dst, now) => ByPrimary(s, Send(req, dst, now)).(
      sent := s.sent + [Datagram(dst, NewMessage(req, s.prim.seqnoCnt))])
    case FireStep(now) => ByPrimary(s, Fire(now))
    case Deliver(p) =>
      if p !in s.net then s
      else Arrive(s.(net := s.net - multiset{p}), p)
    case Lose(p) => s.(net := s.net - multiset{p})
    case Duplicate(p) => if p !in s.net then s else s.(net := s.net + multiset{p})
    case Rebalance(a, counts, dropped) =>
      if a !in s.secs then s else s.(secs := s.secs[a := Reshape(s.secs[a], counts, dropped)])
  }

  ghost function ByPrimary(s: State, a: Action): State {
    s.(prim := Apply(s.prim, a), net := s.net + Wire(Emits(s.prim, a)))
  }

  ghost function Arrive(s: State, p: Packet): State {
    match p
    case ToPrimary(_, msg) => ByPrimary(s, Echo(msg))
    case ToSecondary(dst, msg) =>
      if dst !in s.secs then s
      else s.(secs := s.secs[dst := Receive(s.secs[dst], msg)], net := s.net + Acks(dst, Echoes(s.secs[dst], msg)))
  }

  ghost function Exec(s: State, steps: seq<Step>): State
    decreases |steps|
  {
    if steps == [] then s else Do(Exec(s, steps[..|steps| - 1]), steps[|steps| - 1])
  }

  lemma InitLast(steps: seq<Step>)
    requires steps != []
    ensures steps == steps[..|steps| - 1] + [steps[|steps| - 1]]
  {
  }

  lemma SplitLast(a: seq<Step>, b: seq<Step>)
    requires b != []
    ensures a + b != [] && (a + b)[..|a + b| - 1] == a + b[..|b| - 1] && (a + b)[|a + b| - 1] == b[|b| - 1]
  {
  }

  lemma {:induction false} ExecConcat(s: State, a: seq<Step>, b: seq<Step>)
    ensures Exec(s, a + b) == Exec(Exec(s, a), b)
    decreases |b|
  {
    if b == [] {
      assert a + b == a;
    } else {
      ExecConcat(s, a, b[..|b| - 1]);
      SplitLast(a, b);
    }
  }

  lemma WireMembers(ds: seq<Datagram>, p: Packet)
    ensures p in Wire(ds) <==> p.ToSecondary? && Datagram(p.dst, p.msg) in ds
  {
    var ps := seq(|ds|, i requires 0 <= i < |ds| => ToSecondary(ds[i].dst, ds[i].msg));
    if p.ToSecondary? && Datagram(p.dst, p.msg) in ds {
      var i :| 0 <= i < |ds| && ds[i] == Datagram(p.dst, p.msg);
      assert ps[i] == p;
    }
  }

  lemma AckMembers(src: Addr, ms: seq<OctaneControl>, p: Packet)
    ensures p in Acks(src, ms) <==> p.ToPrimary? && p.src == src && p.msg in ms
  {
    var ps := seq(|ms|, i requires 0 <= i < |ms| => ToPrimary(src, ms[i]));
    if p.ToPrimary? && p.src == src && p.msg in ms {
      var i :| 0 <= i < |ms| && ms[i] == p.msg;
      assert ps[i] == p;
    }
  }

  // ---------- The invariant ----------

  ghost predicate Installed(s: State, d: Datagram) {
    d.dst in s.secs && d.msg in s.secs[d.dst].installed
  }

  /** A timer still resends d. */
  ghost predicate Pending(s: State, d: Datagram) {
    exists t :: t in s.prim.queue && Resend(t) == d
  }

  /** The sent message that a packet is a copy or an echo of. */
  function Carried(p: Packet): Datagram {
    match p
    case ToSecondary(dst, msg) => Datagram(dst, msg)
    case ToPrimary(src, msg) => Datagram(src, msg.(flags := 0))
  }

  /** What is in flight was sent, and an echo tells the truth: the secondary it comes from has installed the message. */
  ghost predicate InFlightOk(s: State, p: Packet) {
    Carried(p) in s.sent && (p.ToPrimary? ==> p.msg.flags == 1 && Installed(s, Carried(p)))
  }

  /** A packet under the number of an unacknowledged message carries that message. */
  ghost predicate Matches(p: Packet, t: Timer<OctaneTimer>) {
    p.msg.seqno == t.cb.seqno ==> Carried(p) == Resend(t)
  }

  ghost predicate Settled(s: State, d: Datagram) {
    Pending(s, d) || Installed(s, d)
  }

  ghost predicate WasSent(s: State, a: Addr, m: OctaneControl) {
    Datagram(a, m) in s.sent
  }

  ghost predicate Inv(s: State) {
    && Registered(s.prim)
    && (forall t :: t in s.prim.queue ==> Resend(t) in s.sent)
    && (forall p :: p in s.net ==> InFlightOk(s, p))
    && (forall p, t :: p in s.net && t in s.prim.queue ==> Matches(p, t))
    && (forall d :: d in s.sent ==> d.msg.flags == 0 && Settled(s, d))
    && forall a, m :: a in s.secs && m in s.secs[a].installed ==> WasSent(s, a, m)
  }

  /** No unacknowledged message and no packet in flight has this number. */
  ghost predicate Unused(s: State, seqno: int) {
    seqno !in s.prim.unAck && forall p :: p in s.net ==> p.msg.seqno != seqno
  }

  /** A new message is sent under an unused number only. */
  ghost predicate MayDo(s: State, step: Step) {
    step.SendStep? ==> Unused(s, s.prim.seqnoCnt)
  }

  ghost predicate Guarded(s: State, steps: seq<Step>)
    decreases |steps|
  {
    steps == [] || (Guarded(s, steps[..|steps| - 1]) && MayDo(Exec(s, steps[..|steps| - 1]), steps[|steps| - 1]))
  }

  lemma SendPending(s: State, req: Request, dst: Addr, now: Timeval)
    ensures var r := Do(s, SendStep(req, dst, now));
            && (forall d :: Pending(s, d) ==> Pending(r, d))
            && Pending(r, Datagram(dst, NewMessage(req, s.prim.seqnoCnt)))
  {
    var r, t := Do(s, SendStep(req, dst, now)), Armed(s.prim, req, dst, now);
    InsertMembers(s.prim.queue, t);
    assert t in r.prim.queue && Resend(t) == Datagram(dst, NewMessage(req, s.prim.seqnoCnt));
    forall d | Pending(s, d) ensures Pending(r, d) {
      var x :| x in s.prim.queue && Resend(x) == d;
      assert x in r.prim.queue;
    }
  }

  lemma SendKeepsInv(s: State, req: Request, dst: Addr, now: Timeval)
    requires Inv(s) && Unused(s, s.prim.seqnoCnt)
    ensures Inv(Do(s, SendStep(req, dst, now)))
  {
    var r := Do(s, SendStep(req, dst, now));
    var t, d := Armed(s.prim, req, dst, now), Datagram(dst, NewMessage(req, s.prim.seqnoCnt));
    SendKeepsRegistered(s.prim, req, dst, now);
    SendPending(s, req, dst, now);
    InsertMembers(s.prim.queue, t);
    forall p | p in r.net ensures InFlightOk(r, p) && (p in s.net || p == ToSecondary(dst, d.msg)) {
      WireMembers([d], p);
      assert p in s.net ==> InFlightOk(s, p);
    }
    forall p, x | p in r.net && x in r.prim.queue ensures Matches(p, x) {
      if p in s.net && x != t {
        assert Matches(p, x);
      } else if x != t {
        assert Records(s.prim, x);
      }
    }
    forall e | e in r.sent ensures Settled(r, e) {
      assert e == d || Settled(s, e);
    }
    forall a, m | a in r.secs && m in r.secs[a].installed ensures WasSent(r, a, m) {
      assert WasSent(s, a, m);
    }
  }

  ghost predicate HasCallback(q: Queue, cb: OctaneTimer) {
    exists t :: t in q && t.cb == cb
  }

  /** After a fire the queue holds the callbacks it held before. */
  lemma FireCallbacks(p: Primary, now: Timeval, cb: OctaneTimer)
    requires Registered(p) && p.queue != []
    ensures HasCallback(Apply(p, Fire(now)).queue, cb) <==> HasCallback(p.queue, cb)
  {
    var q, r := p.queue, Apply(p, Fire(now)).queue;
    var t := Rescheduled(q[0], now);
    TailMembers(q);
    InsertMembers(q[1..], t);
    if HasCallback(r, cb) {
      var x :| x in r && x.cb == cb;
      assert (if x == t then q[0] else x) in q;
    }
    if HasCallback(q, cb) {
      var x :| x in q && x.cb == cb;
      if x.hdl == q[0].hdl { SameHandle(q, x, q[0]); }
      assert (if x.hdl == q[0].hdl then t else x) in r;
    }
  }

  lemma PendingCallback(s: State, d: Datagram)
    ensures Pending(s, d) <==> exists cb :: HasCallback(s.prim.queue, cb) && Datagram(cb.dst, cb.msg) == d
  {
    if Pending(s, d) {
      var t :| t in s.prim.queue && Resend(t) == d;
      assert HasCallback(s.prim.queue, t.cb);
    }
  }

  /** After a fire the queue resends what it resent before. */
  lemma FirePending(s: State, now: Timeval, d: Datagram)
    requires Registered(s.prim) && s.prim.queue != []
    ensures Pending(s, d) <==> Pending(Do(s, FireStep(now)), d)
  {
    PendingCallback(s, d);
    PendingCallback(Do(s, FireStep(now)), d);
    forall cb ensures HasCallback(Apply(s.prim, Fire(now)).queue, cb) <==> HasCallback(s.prim.queue, cb) {
      FireCallbacks(s.prim, now, cb);
    }
  }

  lemma SameSeqno(p: Primary, x: Timer<OctaneTimer>, y: Timer<OctaneTimer>)
    requires Registered(p) && x in p.queue && y in p.queue && x.cb.seqno == y.cb.seqno
    ensures x == y
  {
    assert Records(p, x) && Records(p, y);
    SameHandle(p.queue, x, y);
  }

  lemma FireMatches(s: State, now: Timeval, p: Packet, x: Timer<OctaneTimer>)
    requires Inv(s) && s.prim.queue != []
    requires x in Apply(s.prim, Fire(now)).queue && (p in s.net || Carried(p) == Resend(s.prim.queue[0]))
    ensures Matches(p, x) && Resend(x) in s.sent
  {
    var q := s.prim.queue;
    FireCallbacks(s.prim, now, x.cb);
    assert HasCallback(q, x.cb);
    var y :| y in q && y.cb == x.cb;
    assert Resend(y) == Resend(x);
    if p in s.net {
      assert Matches(p, y);
    } else {
      assert Records(s.prim, q[0]);
      if y.cb.seqno == q[0].cb.seqno { SameSeqno(s.prim, y, q[0]); }
    }
  }

  lemma {:induction false} FireKeepsInv(s: State, now: Timeval)
    requires Inv(s)
    ensures Inv(Do(s, FireStep(now)))
  {
    if s.prim.queue == [] {
      assert s.net + Wire([]) == s.net;
    } else {
      var head, r := s.prim.queue[0], Do(s, FireStep(now));
      FireKeepsRegistered(s.prim, now);
      forall p | p in r.net ensures InFlightOk(r, p) && (p in s.net || Carried(p) == Resend(head)) {
        WireMembers([Resend(head)], p);
        assert p in s.net ==> InFlightOk(s, p);
      }
      forall x | x in r.prim.queue ensures Resend(x) in r.sent {
        FireMatches(s, now, ToSecondary(head.cb.dst, head.cb.msg), x);
      }
      forall p, x | p in r.net && x in r.prim.queue ensures Matches(p, x) {
        FireMatches(s, now, p, x);
      }
      forall d | d in r.sent ensures Settled(r, d) {
        FirePending(s, now, d);
        assert Settled(s, d);
      }
      forall a, m | a in r.secs && m in r.secs[a].installed ensures WasSent(r, a, m) {
        assert WasSent(s, a, m);
      }
    }
  }

  /** An echo settles the message it carries and leaves the others pending. */
  lemma EchoPending(s: State, msg: OctaneControl, d: Datagram)
    requires Inv(s) && msg.flags == 1 && Pending(s, d) && d.msg.seqno != msg.seqno
    ensures Pending(ByPrimary(s, Echo(msg)), d)
  {
    EchoRemovesItsTimer(s.prim, msg);
    var t :| t in s.prim.queue && Resend(t) == d;
    assert Records(s.prim, t);
    assert t in ByPrimary(s, Echo(msg)).prim.queue;
  }

  lemma AckKeepsInv(s: State, src: Addr, msg: OctaneControl)
    requires Inv(s) && InFlightOk(s, ToPrimary(src, msg))
    requires forall t :: t in s.prim.queue ==> Matches(ToPrimary(src, msg), t)
    ensures Inv(ByPrimary(s, Echo(msg)))
  {
    var r := ByPrimary(s, Echo(msg));
    assert r.net == s.net;
    EchoKeepsRegistered(s.prim, msg);
    EchoRemovesItsTimer(s.prim, msg);
    forall p | p in r.net ensures InFlightOk(r, p) {
      assert InFlightOk(s, p);
    }
    forall p, t | p in r.net && t in r.prim.queue ensures Matches(p, t) {
      assert t in s.prim.queue;
    }
    forall d | d in r.sent ensures Settled(r, d) {
      assert Settled(s, d);
      if Pending(s, d) {
        var t :| t in s.prim.queue && Resend(t) == d;
        assert Records(s.prim, t) && Matches(ToPrimary(src, msg), t);
        if d.msg.seqno != msg.seqno { EchoPending(s, msg, d); }
      }
    }
    forall a, m | a in r.secs && m in r.secs[a].installed ensures WasSent(r, a, m) {
      assert WasSent(s, a, m);
    }
  }

  lemma ReceiveKeepsInv(s: State, dst: Addr, msg: OctaneControl)
    requires Inv(s) && dst in s.secs && InFlightOk(s, ToSecondary(dst, msg))
    requires forall t :: t in s.prim.queue ==> Matches(ToSecondary(dst, msg), t)
    ensures Inv(Arrive(s, ToSecondary(dst, msg)))
  {
    var r, echo := Arrive(s, ToSecondary(dst, msg)), ToPrimary(dst, msg.(flags := 1));
    ReceiveInstalls(s.secs[dst], msg);
    assert msg.flags == 0 && Carried(echo) == Datagram(dst, msg);
    forall d | Installed(s, d) ensures Installed(r, d) {
    }
    forall p | p in r.net ensures InFlightOk(r, p) && (p in s.net || p == echo) {
      ReceivedPacket(s, dst, msg, p);
      assert p in s.net ==> InFlightOk(s, p);
    }
    forall p, t | p in r.net && t in r.prim.queue ensures Matches(p, t) {
      assert Matches(ToSecondary(dst, msg), t);
      assert p in s.net ==> Matches(p, t);
    }
    forall d | d in r.sent ensures Settled(r, d) {
      assert Settled(s, d);
      if Pending(s, d) { assert Pending(r, d); }
    }
    forall a, m | a in r.secs && m in r.secs[a].installed ensures WasSent(r, a, m) {
      assert (a == dst && m == msg) || WasSent(s, a, m);
    }
  }

  lemma ReceivedPacket(s: State, dst: Addr, msg: OctaneControl, p: Packet)
    requires dst in s.secs && p in Arrive(s, ToSecondary(dst, msg)).net && msg.flags == 0
    ensures p in s.net || p == ToPrimary(dst, msg.(flags := 1))
    ensures p !in s.net ==> Installed(Arrive(s, ToSecondary(dst, msg)), Datagram(dst, msg))
  {
    AckMembers(dst, Echoes(s.secs[dst], msg), p);
    ReceiveInstalls(s.secs[dst], msg);
  }

  lemma LessInFlight(s: State, net: multiset<Packet>)
    requires Inv(s) && forall p :: p in net ==> p in s.net
    ensures Inv(s.(net := net))
  {
    var r := s.(net := net);
    forall p | p in net ensures InFlightOk(r, p) {
      assert InFlightOk(s, p);
    }
    forall d | d in r.sent ensures Settled(r, d) {
      assert Settled(s, d);
      if Pending(s, d) { assert Pending(r, d); }
    }
    forall a, m | a in r.secs && m in r.secs[a].installed ensures WasSent(r, a, m) {
      assert WasSent(s, a, m);
    }
  }

  lemma RebalanceKeepsInv(s: State, a: Addr, counts: Tree<int>, dropped: Tree<FlowAction>)
    requires Inv(s)
    ensures Inv(Do(s, Rebalance(a, counts, dropped)))
  {
    var r := Do(s, Rebalance(a, counts, dropped));
    forall d ensures Installed(r, d) <==> Installed(s, d) {
    }
    forall p | p in r.net ensures InFlightOk(r, p) {
      assert InFlightOk(s, p);
    }
    forall d | d in r.sent ensures Settled(r, d) {
      assert Settled(s, d);
      if Pending(s, d) { assert Pending(r, d); }
    }
    forall b, m | b in r.secs && m in r.secs[b].installed ensures WasSent(r, b, m) {
      assert WasSent(s, b, m);
    }
  }

  lemma LoseKeepsInv(s: State, p: Packet)
    requires Inv(s)
    ensures Inv(Do(s, Lose(p)))
  {
    LessInFlight(s, s.net - multiset{p});
  }

  lemma DuplicateKeepsInv(s: State, p: Packet)
    requires Inv(s)
    ensures Inv(Do(s, Duplicate(p)))
  {
    if p in s.net {
      LessInFlight(s, s.net + multiset{p});
    }
  }

  lemma DeliverKeepsInv(s: State, p: Packet)
    requires Inv(s)
    ensures Inv(Do(s, Deliver(p)))
  {
    if p in s.net {
      var t := s.(net := s.net - multiset{p});
      LessInFlight(s, t.net);
      ArriveKeepsInv(s, t, p);
    }
  }

  lemma ArriveKeepsInv(s: State, t: State, p: Packet)
    requires Inv(s) && Inv(t) && p in s.net && t == s.(net := t.net)
    ensures Inv(Arrive(t, p))
  {
    assert InFlightOk(s, p);
    assert InFlightOk(t, p);
    match p {
      case ToPrimary(src, msg) => AckKeepsInv(t, src, msg);
      case ToSecondary(dst, msg) => if dst in t.secs { ReceiveKeepsInv(t, dst, msg); }
    }
  }

  /** Every step keeps the invariant, as long as new messages get unused numbers. */
  lemma {:induction false} StepKeepsInv(s: State, step: Step)
    requires Inv(s) && MayDo(s, step)
    ensures Inv(Do(s, step))
  {
    match step {
      case SendStep(req, dst, now) => SendKeepsInv(s, req, dst, now);
      case FireStep(now) => FireKeepsInv(s, now);
      case Lose(p) => LoseKeepsInv(s, p);
      case Duplicate(p) => DuplicateKeepsInv(s, p);
      case Rebalance(a, counts, dropped) => RebalanceKeepsInv(s, a, counts, dropped);
      case Deliver(p) => DeliverKeepsInv(s, p);
    }
  }

  lemma SentGrows(s: State, step: Step)
    ensures s.sent <= Do(s, step).sent
    ensures Do(s, step).secs.Keys == s.secs.Keys
  {
  }

  lemma {:induction false} RunKeepsInv(s: State, steps: seq<Step>)
    requires Inv(s) && Guarded(s, steps)
    ensures Inv(Exec(s, steps))
    decreases |steps|
  {
    if steps != [] {
      RunKeepsInv(s, steps[..|steps| - 1]);
      StepKeepsInv(Exec(s, steps[..|steps| - 1]), steps[|steps| - 1]);
    }
  }

  lemma InitInv(dropAfter: map<Addr, int>)
    ensures Inv(Init(dropAfter))
  {
  }

  // ---------- Results over all runs ----------

  /** Each action of the primary's event loop is a step of the network, with the same effect on the primary and exactly
      its datagrams put on the wire; an echo must be in flight to be read. */
  lemma PrimaryActionIsStep(s: State, a: Action, src: Addr) returns (step: Step)
    requires a.Echo? ==> ToPrimary(src, a.msg) in s.net
    ensures var r := Do(s, step);
            && r.prim == Apply(s.prim, a) && r.secs == s.secs
            && r.net == (if a.Echo? then s.net - multiset{ToPrimary(src, a.msg)} else s.net) + Wire(Emits(s.prim, a))
  {
    match a {
      case Send(req, dst, now) => step := SendStep(req, dst, now);
      case Fire(now) => step := FireStep(now);
      case Echo(msg) => step := Deliver(ToPrimary(src, msg));
    }
  }

  /** What a step makes the primary do. */
  function ActionsOf(s: State, step: Step): seq<Action> {
    match step
    case SendStep(req, dst, now) => [Send(req, dst, now)]
    case FireStep(now) => [Fire(now)]
    case Deliver(p) => if p in s.net && p.ToPrimary? then [Echo(p.msg)] else []
    case _ => []
  }

  /** What a run of the network makes the primary do. */
  ghost function Acts(s: State, steps: seq<Step>): seq<Action>
    decreases |steps|
  {
    if steps == [] then []
    else Acts(s, steps[..|steps| - 1]) + ActionsOf(Exec(s, steps[..|steps| - 1]), steps[|steps| - 1])
  }

  lemma LastAct(s: State, steps: seq<Step>, last: Step)
    ensures Acts(s, steps + [last]) == Acts(s, steps) + ActionsOf(Exec(s, steps), last)
    ensures Exec(s, steps + [last]) == Do(Exec(s, steps), last)
    ensures Guarded(s, steps + [last]) ==> Guarded(s, steps) && MayDo(Exec(s, steps), last)
  {
    assert (steps + [last])[..|steps|] == steps;
  }

  lemma Lone(p: Primary, acts: seq<Action>)
    requires |acts| == 1
    ensures ApplyAll(p, acts) == Apply(p, acts[0]) && EmitsAll(p, acts) == Emits(p, acts[0])
    ensures NoReuse(p, acts) <==> (acts[0].Send? ==> p.seqnoCnt !in p.unAck)
  {
    assert acts == [acts[0]] && acts[1..] == [];
    PrimaryRouters.JustOne(p, acts[0]);
  }

  /** One step, seen from the primary: its state, what it hands to the socket, and the numbers it uses. */
  lemma StepActs(s: State, step: Step)
    ensures Do(s, step).prim == ApplyAll(s.prim, ActionsOf(s, step))
    ensures MayDo(s, step) ==> NoReuse(s.prim, ActionsOf(s, step))
  {
    if ActionsOf(s, step) != [] {
      Lone(s.prim, ActionsOf(s, step));
    }
  }

  lemma StepSends(s: State, step: Step)
    ensures Do(s, step).sent ==
            if step.SendStep? then s.sent + [Datagram(step.dst, NewMessage(step.req, s.prim.seqnoCnt))] else s.sent
  {
  }

  lemma ActionEmits(s: State, step: Step, d: Datagram)
    ensures d in EmitsAll(s.prim, ActionsOf(s, step)) <==>
            (step.SendStep? && d == Datagram(step.dst, NewMessage(step.req, s.prim.seqnoCnt)))
            || (step.FireStep? && s.prim.queue != [] && d == Resend(s.prim.queue[0]))
  {
    if ActionsOf(s, step) != [] {
      Lone(s.prim, ActionsOf(s, step));
    }
  }

  lemma StepEmits(s: State, step: Step, d: Datagram)
    requires forall t :: t in s.prim.queue ==> Resend(t) in s.sent
    ensures d in Do(s, step).sent <==> d in s.sent || d in EmitsAll(s.prim, ActionsOf(s, step))
  {
    StepSends(s, step);
    ActionEmits(s, step, d);
    assert s.prim.queue != [] ==> s.prim.queue[0] in s.prim.queue;
  }

  lemma {:induction false} NoReuseConcat(p: Primary, a: seq<Action>, b: seq<Action>)
    requires NoReuse(p, a) && NoReuse(ApplyAll(p, a), b)
    ensures NoReuse(p, a + b)
    decreases |a|
  {
    if a == [] {
      assert a + b == b;
    } else {
      assert (a + b)[1..] == a[1..] + b;
      NoReuseConcat(Apply(p, a[0]), a[1..], b);
    }
  }

  ghost predicate Projects(s: State, steps: seq<Step>) {
    && Exec(s, steps).prim == ApplyAll(s.prim, Acts(s, steps))
    && (Guarded(s, steps) ==> NoReuse(s.prim, Acts(s, steps)))
  }

  lemma ProjectsNext(s: State, steps: seq<Step>, last: Step, all: seq<Step>)
    requires Projects(s, steps) && all == steps + [last]
    ensures Projects(s, all)
  {
    LastAct(s, steps, last);
    StepActs(Exec(s, steps), last);
    ApplyConcat(s.prim, Acts(s, steps), ActionsOf(Exec(s, steps), last));
    if Guarded(s, all) {
      NoReuseConcat(s.prim, Acts(s, steps), ActionsOf(Exec(s, steps), last));
    }
  }

  lemma {:induction false} ProjectsAll(s: State, steps: seq<Step>)
    ensures Projects(s, steps)
    decreases |steps|
  {
    if steps != [] {
      ProjectsAll(s, steps[..|steps| - 1]);
      InitLast(steps);
      ProjectsNext(s, steps[..|steps| - 1], steps[|steps| - 1], steps);
    }
  }

  /** The primary after a run of the network is the primary after its own actions in that run; and a run under unused
      numbers reuses no unacknowledged number. */
  lemma Projection(s: State, steps: seq<Step>)
    ensures Exec(s, steps).prim == ApplyAll(s.prim, Acts(s, steps))
    ensures Guarded(s, steps) ==> NoReuse(s.prim, Acts(s, steps))
  {
    ProjectsAll(s, steps);
  }

  /** What the primary hands to the socket in a run is what counts as sent, new or again. */
  lemma {:induction false} EmitsWhatIsSent(dropAfter: map<Addr, int>, steps: seq<Step>, d: Datagram)
    requires Guarded(Init(dropAfter), steps)
    ensures Emitted(Init(dropAfter), steps, d) <==> d in Exec(Init(dropAfter), steps).sent
  {
    EmitsRightly(dropAfter, steps, d);
  }

  ghost predicate Emitted(s: State, steps: seq<Step>, d: Datagram) {
    d in EmitsAll(s.prim, Acts(s, steps))
  }

  ghost predicate EmittedIffSent(s: State, steps: seq<Step>, d: Datagram) {
    Emitted(s, steps, d) <==> d in Exec(s, steps).sent
  }

  lemma {:induction false} EmitsRightly(dropAfter: map<Addr, int>, steps: seq<Step>, d: Datagram)
    requires Guarded(Init(dropAfter), steps)
    ensures EmittedIffSent(Init(dropAfter), steps, d)
    decreases |steps|
  {
    if steps != [] {
      EmitsRightly(dropAfter, steps[..|steps| - 1], d);
      InitLast(steps);
      EmittedNext(dropAfter, steps[..|steps| - 1], steps[|steps| - 1], d, steps);
    }
  }

  lemma ReachedInv(dropAfter: map<Addr, int>, steps: seq<Step>)
    requires Guarded(Init(dropAfter), steps)
    ensures Inv(Exec(Init(dropAfter), steps))
  {
    InitInv(dropAfter);
    RunKeepsInv(Init(dropAfter), steps);
  }

  lemma EmittedNext(dropAfter: map<Addr, int>, steps: seq<Step>, last: Step, d: Datagram, all: seq<Step>)
    requires Guarded(Init(dropAfter), steps) && EmittedIffSent(Init(dropAfter), steps, d) && all == steps + [last]
    ensures EmittedIffSent(Init(dropAfter), all, d)
  {
    ReachedInv(dropAfter, steps);
    StepEmits(Exec(Init(dropAfter), steps), last, d);
    EmitsConcat(Init(dropAfter), steps, last, d);
    LastAct(Init(dropAfter), steps, last);
  }

  lemma EmitsConcat(s0: State, steps: seq<Step>, last: Step, d: Datagram)
    ensures Emitted(s0, steps + [last], d) <==>
            Emitted(s0, steps, d) || d in EmitsAll(Exec(s0, steps).prim, ActionsOf(Exec(s0, steps), last))
  {
    Projection(s0, steps);
    LastAct(s0, steps, last);
    ApplyConcat(s0.prim, Acts(s0, steps), ActionsOf(Exec(s0, steps), last));
  }

  /** The event loop and the network joined: if the loop of a primary, started afresh, has done what the primary
      does in a run of the network under unused numbers, and comes to its idle exit, then everything it handed to
      the socket is installed where it was addressed. */
  lemma {:induction false} IdleExitInstalled(dropAfter: map<Addr, int>, steps: seq<Step>, actions: seq<Action>,
                                             turns: seq<PrimaryRouters.TurnRecord>, wakeups: seq<PrimaryRouters.Wakeup>,
                                             clocks: nat -> nat -> Timeval, p: Primary, out: seq<Datagram>)
    requires Guarded(Init(dropAfter), steps) && actions == Acts(Init(dropAfter), steps)
    requires PrimaryRouters.Ran(START, [], actions, turns, wakeups, clocks, p, out) && p.queue == []
    ensures forall d :: d in out ==> Installed(Exec(Init(dropAfter), steps), d)
    ensures NoReuse(START, actions)
  {
    Projection(Init(dropAfter), steps);
    RunsAreRegistered(dropAfter, steps);
    forall d | d in out ensures Installed(Exec(Init(dropAfter), steps), d) {
      EmitsWhatIsSent(dropAfter, steps, d);
    }
  }

  /** Acknowledgement soundness: in every run, of any length, that sends under unused numbers only, a message that no
      timer resends any more is installed at the secondary it was addressed to; in particular one whose
      number has left m_unAckBuffer. */
  lemma {:induction false} GuardedSoundness(dropAfter: map<Addr, int>, steps: seq<Step>, d: Datagram)
    requires Guarded(Init(dropAfter), steps)
    requires d in Exec(Init(dropAfter), steps).sent
    ensures var s := Exec(Init(dropAfter), steps);
            && (Pending(s, d) || Installed(s, d))
            && (d.msg.seqno !in s.prim.unAck ==> Installed(s, d))
  {
    var s := Exec(Init(dropAfter), steps);
    InitInv(dropAfter);
    RunKeepsInv(Init(dropAfter), steps);
    assert Settled(s, d);
    if Pending(s, d) {
      var t :| t in s.prim.queue && Resend(t) == d;
      assert Records(s.prim, t);
    }
  }

  /** In every such run m_unAckBuffer is a bijection onto the live timers; each timer resends a sent message under that
      message's own number; and with no timer queued, when the idle timeout may end the primary, everything
      sent is installed. */
  lemma {:induction false} RunsAreRegistered(dropAfter: map<Addr, int>, steps: seq<Step>)
    requires Guarded(Init(dropAfter), steps)
    ensures var s := Exec(Init(dropAfter), steps);
            && Registered(s.prim)
            && (forall t :: t in s.prim.queue ==> Resend(t) in s.sent && t.cb.msg.seqno == t.cb.seqno)
            && (s.prim.queue == [] ==> forall d :: d in s.sent ==> Installed(s, d))
  {
    var s := Exec(Init(dropAfter), steps);
    InitInv(dropAfter);
    RunKeepsInv(Init(dropAfter), steps);
    forall t | t in s.prim.queue ensures t.cb.msg.seqno == t.cb.seqno {
      assert Records(s.prim, t);
    }
    forall d | d in s.sent && s.prim.queue == [] ensures Installed(s, d) {
      assert Settled(s, d);
    }
  }

  // ---------- One cycle of sequence numbers ----------

  /** There are this many sequence numbers; after so many messages they are used again. */
  const SEQNOS := 0x1_0000

  /** The sequence number of the message sent after n others: counting starts at 1 and wraps to 0. */
  function SeqnoAt(n: nat): u16
    requires n <= SEQNOS
  {
    if n < 0xFFFF then n + 1 else n - 0xFFFF
  }

  ghost predicate Numbered(s: State) {
    && |s.sent| <= SEQNOS
    && s.prim.seqnoCnt == SeqnoAt(|s.sent|)
    && forall i :: 0 <= i < |s.sent| ==> s.sent[i].msg.seqno == SeqnoAt(i)
  }

  /** The next number is unused while fewer than 65536 messages have been sent. */
  lemma NextSeqnoUnused(s: State)
    requires Inv(s) && Numbered(s) && |s.sent| < SEQNOS
    ensures Unused(s, s.prim.seqnoCnt)
  {
    var c := s.prim.seqnoCnt;
    forall d | d in s.sent ensures d.msg.seqno != c {
      var i :| 0 <= i < |s.sent| && s.sent[i] == d;
    }
    forall t | t in s.prim.queue ensures t.cb.seqno != c {
      assert Records(s.prim, t) && Resend(t) in s.sent;
    }
    assert c in s.prim.unAck ==> HasTimer(s.prim, c);
    forall p | p in s.net ensures p.msg.seqno != c {
      assert InFlightOk(s, p);
    }
  }

  lemma StepKeepsNumbered(s: State, step: Step)
    requires Numbered(s) && |Do(s, step).sent| <= SEQNOS
    ensures Numbered(Do(s, step))
  {
  }

  /** Runs of at most 65536 messages use no number twice. */
  lemma {:induction false} BoundedIsGuarded(dropAfter: map<Addr, int>, steps: seq<Step>)
    requires |Exec(Init(dropAfter), steps).sent| <= SEQNOS
    ensures Guarded(Init(dropAfter), steps) && Numbered(Exec(Init(dropAfter), steps))
    decreases |steps|
  {
    if steps != [] {
      var init, last := steps[..|steps| - 1], steps[|steps| - 1];
      var before := Exec(Init(dropAfter), init);
      SentGrows(before, last);
      BoundedIsGuarded(dropAfter, init);
      InitInv(dropAfter);
      RunKeepsInv(Init(dropAfter), init);
      StepKeepsNumbered(before, last);
      if last.SendStep? {
        NextSeqnoUnused(before);
      }
    }
  }

  ghost predicate Sound(s: State) {
    forall d :: d in s.sent && d.msg.seqno !in s.prim.unAck ==> Installed(s, d)
  }

  /** In every run of at most 65536 messages, a message whose number has left m_unAckBuffer is installed at the
      secondary it was addressed to. */
  lemma {:induction false} AckSoundness(dropAfter: map<Addr, int>, steps: seq<Step>)
    requires |Exec(Init(dropAfter), steps).sent| <= SEQNOS
    ensures Sound(Exec(Init(dropAfter), steps))
  {
    BoundedIsGuarded(dropAfter, steps);
    forall d | d in Exec(Init(dropAfter), steps).sent
      ensures d.msg.seqno !in Exec(Init(dropAfter), steps).prim.unAck ==> Installed(Exec(Init(dropAfter), steps), d)
    {
      GuardedSoundness(dropAfter, steps, d);
    }
  }

  /** All runs of at most n messages are sound. */
  ghost predicate SoundUpTo(n: nat) {
    forall dropAfter, steps :: |Exec(Init(dropAfter), steps).sent| <= n ==> Sound(Exec(Init(dropAfter), steps))
  }

  /** The exact bound. */
  lemma {:induction false} SoundUpToIff(n: nat)
    ensures SoundUpTo(n) <==> n <= SEQNOS
  {
    if n <= SEQNOS {
      forall dropAfter, steps | |Exec(Init(dropAfter), steps).sent| <= n ensures Sound(Exec(Init(dropAfter), steps)) {
        AckSoundness(dropAfter, steps);
      }
    } else {
      var steps, d := AckUnsoundAfterWrap();
      assert !Sound(Exec(Init(map[0 := 3]), steps));
    }
  }

  // ---------- Runs in time ----------

  /** A fire comes only when the head of the queue is due, and no reading is before the latest one. */
  ghost predicate InTime(s: State, step: Step, latest: Timeval) {
    match step
    case SendStep(_, _, t) => Normal(t) && Cmp(latest, t) <= 0
    case FireStep(t) => Normal(t) && Cmp(latest, t) <= 0 && HeadDue(s.prim.queue, t)
    case _ => true
  }

  /** The last clock reading of the steps, or now if they have none. */
  function Latest(steps: seq<Step>, now: Timeval): Timeval
    decreases |steps|
  {
    if steps == [] then now
    else match steps[|steps| - 1]
      case SendStep(_, _, t) => t
      case FireStep(t) => t
      case _ => Latest(steps[..|steps| - 1], now)
  }

  ghost predicate OnTime(s: State, steps: seq<Step>, now: Timeval)
    decreases |steps|
  {
    steps == [] ||
    (var init := steps[..|steps| - 1];
     OnTime(s, init, now) && InTime(Exec(s, init), steps[|steps| - 1], Latest(init, now)))
  }

  /** A run that keeps to the clock and sends under unused numbers. */
  ghost predicate Proper(s: State, steps: seq<Step>, now: Timeval) {
    OnTime(s, steps, now) && Guarded(s, steps)
  }

  lemma {:induction false} OnTimeConcat(s: State, a: seq<Step>, b: seq<Step>, now: Timeval)
    requires OnTime(s, a, now) && OnTime(Exec(s, a), b, Latest(a, now))
    ensures OnTime(s, a + b, now) && Latest(a + b, now) == Latest(b, Latest(a, now))
    decreases |b|
  {
    if b == [] {
      assert a + b == a;
    } else {
      var init := b[..|b| - 1];
      SplitLast(a, b);
      OnTimeConcat(s, a, init, now);
      ExecConcat(s, a, init);
    }
  }

  lemma {:induction false} ProperConcat(s: State, a: seq<Step>, b: seq<Step>, now: Timeval)
    requires Proper(s, a, now) && Proper(Exec(s, a), b, Latest(a, now))
    ensures Proper(s, a + b, now) && Latest(a + b, now) == Latest(b, Latest(a, now))
  {
    OnTimeConcat(s, a, b, now);
    GuardedConcat(s, a, b);
  }

  lemma {:induction false} GuardedConcat(s: State, a: seq<Step>, b: seq<Step>)
    requires Guarded(s, a) && Guarded(Exec(s, a), b)
    ensures Guarded(s, a + b)
    decreases |b|
  {
    if b == [] {
      assert a + b == a;
    } else {
      var init := b[..|b| - 1];
      SplitLast(a, b);
      GuardedConcat(s, a, init);
      ExecConcat(s, a, init);
    }
  }

  lemma OneStep(s: State, a: Step, now: Timeval)
    ensures Exec(s, [a]) == Do(s, a)
    ensures MayDo(s, a) && InTime(s, a, now) ==> Proper(s, [a], now)
    ensures Latest([a], now) == if a.SendStep? then a.sendTime else if a.FireStep? then a.fireTime else now
  {
    assert [a][..0] == [];
    assert Exec(s, []) == s && Latest([], now) == now;
    assert OnTime(s, [], now) && Guarded(s, []);
    assert OnTime(s, [a], now) <==> InTime(s, a, now);
    assert Guarded(s, [a]) <==> MayDo(s, a);
  }

  lemma TwoSteps(s: State, a: Step, b: Step, now: Timeval)
    ensures Exec(s, [a, b]) == Do(Do(s, a), b)
    ensures MayDo(s, a) && InTime(s, a, now) && MayDo(Do(s, a), b) && InTime(Do(s, a), b, Latest([a], now))
            ==> Proper(s, [a, b], now)
  {
    OneStep(s, a, now);
    OneStep(Do(s, a), b, Latest([a], now));
    ExecConcat(s, [a], [b]);
    assert [a] + [b] == [a, b];
    if MayDo(s, a) && InTime(s, a, now) && MayDo(Do(s, a), b) && InTime(Do(s, a), b, Latest([a], now)) {
      ProperConcat(s, [a], [b], now);
    }
  }

  // ---------- Which messages can still be acknowledged ----------

  ghost predicate AckInFlight(s: State, seqno: int) {
    exists p :: p in s.net && p.ToPrimary? && p.msg.seqno == seqno
  }

  /** What was sent to this secondary is among the messages ms. */
  ghost predicate Addressed(s: State, a: Addr, ms: set<OctaneControl>) {
    forall d :: d in s.sent && d.dst == a ==> d.msg in ms
  }

  /** What a secondary holds in its maps, when all it is sent is from ms. */
  ghost predicate Tidy(s: State, a: Addr, ms: set<OctaneControl>) {
    a in s.secs && Known(s.secs[a], ms) && Addressed(s, a, ms)
  }

  /** Some proper continuation of the run, still with messages from ms only, acknowledges d. */
  ghost predicate CanBeAcknowledged(s: State, d: Datagram, now: Timeval, ms: set<OctaneControl>) {
    exists steps :: Proper(s, steps, now) && Addressed(Exec(s, steps), d.dst, ms) && !Pending(Exec(s, steps), d)
  }

  lemma StepKeepsTidy(s: State, step: Step, a: Addr, ms: set<OctaneControl>)
    requires Orderly(ms) && Inv(s) && Tidy(s, a, ms) && Addressed(Do(s, step), a, ms)
    ensures Tidy(Do(s, step), a, ms)
  {
    match step {
      case SendStep(_, _, _) =>
      case FireStep(_) =>
      case Lose(_) =>
      case Duplicate(_) =>
      case Rebalance(b, counts, dropped) =>
        if a == b {
          ReshapeKnown(s.secs[a], counts, dropped, ms);
        }
      case Deliver(p) =>
        if p in s.net && p.ToSecondary? && p.dst == a {
          assert InFlightOk(s, p);
          KnownReceive(s.secs[a], p.msg, ms);
        }
    }
  }

  lemma InitTidy(dropAfter: map<Addr, int>, a: Addr, ms: set<OctaneControl>)
    requires a in dropAfter
    ensures Tidy(Init(dropAfter), a, ms)
  {
  }

  lemma PendingWasSent(s: State, d: Datagram)
    requires Inv(s) && Pending(s, d)
    ensures d in s.sent
  {
    var t :| t in s.prim.queue && Resend(t) == d;
    assert Resend(t) in s.sent;
  }

  lemma {:induction false} RunKeepsTidy(s: State, steps: seq<Step>, a: Addr, ms: set<OctaneControl>)
    requires Orderly(ms) && Inv(s) && Guarded(s, steps) && Tidy(s, a, ms) && Addressed(Exec(s, steps), a, ms)
    ensures Tidy(Exec(s, steps), a, ms)
    decreases |steps|
  {
    if steps != [] {
      var init := steps[..|steps| - 1];
      SentGrows(Exec(s, init), steps[|steps| - 1]);
      RunKeepsTidy(s, init, a, ms);
      RunKeepsInv(s, init);
      StepKeepsTidy(Exec(s, init), steps[|steps| - 1], a, ms);
    }
  }

  /** d is unacknowledged, its secondary no longer answers its class, and no echo of it is under way. */
  ghost predicate Stuck(s: State, d: Datagram, ms: set<OctaneControl>) {
    && Inv(s) && Pending(s, d) && d.msg in ms && Tidy(s, d.dst, ms)
    && Contains(s.secs[d.dst].dropped, d.msg) && !AckInFlight(s, d.msg.seqno)
  }

  lemma NoNewAck(s: State, r: State, seqno: int)
    requires !AckInFlight(s, seqno)
    requires forall p :: p in r.net && p.ToPrimary? && p.msg.seqno == seqno ==> p in s.net
    ensures !AckInFlight(r, seqno)
  {
  }

  lemma CopyOfPending(s: State, d: Datagram, dst: Addr, msg: OctaneControl)
    requires Inv(s) && Pending(s, d) && ToSecondary(dst, msg) in s.net
    ensures Datagram(dst, msg) in s.sent
    ensures msg.seqno == d.msg.seqno ==> Datagram(dst, msg) == d
  {
    var t :| t in s.prim.queue && Resend(t) == d;
    assert InFlightOk(s, ToSecondary(dst, msg)) && Matches(ToSecondary(dst, msg), t) && Records(s.prim, t);
  }

  /** A secondary that has dropped the class of d does not answer it when a copy arrives. */
  lemma DroppedArrive(s: State, d: Datagram, ms: set<OctaneControl>, dst: Addr, msg: OctaneControl)
    requires Orderly(ms) && d.msg in ms && dst in s.secs && (dst == d.dst ==> msg in ms)
    requires Tidy(s, d.dst, ms) && Contains(s.secs[d.dst].dropped, d.msg)
    ensures var r := Arrive(s, ToSecondary(dst, msg));
            d.dst in r.secs && Contains(r.secs[d.dst].dropped, d.msg)
    ensures Datagram(dst, msg) == d ==> Echoes(s.secs[dst], msg) == []
  {
    if dst == d.dst {
      DropStep(s.secs[dst], Received(msg), d.msg, ms);
    }
  }

  lemma SilentArrive(s: State, seqno: int, dst: Addr, msg: OctaneControl)
    requires !AckInFlight(s, seqno) && dst in s.secs && (msg.seqno == seqno ==> Echoes(s.secs[dst], msg) == [])
    ensures !AckInFlight(Arrive(s, ToSecondary(dst, msg)), seqno)
  {
    var r := Arrive(s, ToSecondary(dst, msg));
    forall x | x in r.net && x.ToPrimary? && x.msg.seqno == seqno ensures x in s.net {
      AckMembers(dst, Echoes(s.secs[dst], msg), x);
    }
    NoNewAck(s, r, seqno);
  }

  lemma {:induction false} StuckStep(s: State, d: Datagram, step: Step, ms: set<OctaneControl>)
    requires Orderly(ms) && Stuck(s, d, ms) && MayDo(s, step) && Addressed(Do(s, step), d.dst, ms)
    ensures Stuck(Do(s, step), d, ms)
  {
    StepKeepsInv(s, step);
    StepKeepsTidy(s, step, d.dst, ms);
    StuckPending(s, d, step, ms);
    StuckSilent(s, d, step, ms);
  }

  lemma StuckPending(s: State, d: Datagram, step: Step, ms: set<OctaneControl>)
    requires Stuck(s, d, ms)
    ensures Pending(Do(s, step), d)
  {
    match step {
      case SendStep(req, dst, now) => SendPending(s, req, dst, now);
      case FireStep(now) => if s.prim.queue != [] { FirePending(s, now, d); }
      case Lose(_) =>
      case Duplicate(_) =>
      case Rebalance(_, _, _) =>
      case Deliver(p) =>
        if p in s.net && p.ToPrimary? {
          assert InFlightOk(s, p);
          EchoPending(s, p.msg, d);
        }
    }
  }

  lemma StuckSilent(s: State, d: Datagram, step: Step, ms: set<OctaneControl>)
    requires Orderly(ms) && Stuck(s, d, ms)
    ensures var r := Do(s, step);
            (d.dst in r.secs ==> Contains(r.secs[d.dst].dropped, d.msg)) && !AckInFlight(r, d.msg.seqno)
  {
    if step.Deliver? {
      StuckDeliver(s, d, step.packet, ms);
    } else if step.Rebalance? {
      StuckRebalance(s, d, step.at, step.counts, step.dropped, ms);
      NoNewAck(s, Do(s, step), d.msg.seqno);
    } else {
      NoNewAck(s, Do(s, step), d.msg.seqno);
    }
  }

  lemma StuckRebalance(s: State, d: Datagram, a: Addr, counts: Tree<int>, dropped: Tree<FlowAction>,
                       ms: set<OctaneControl>)
    requires Orderly(ms) && d.msg in ms && Tidy(s, d.dst, ms) && Contains(s.secs[d.dst].dropped, d.msg)
    ensures var r := Do(s, Rebalance(a, counts, dropped));
            && (d.dst in r.secs ==> Contains(r.secs[d.dst].dropped, d.msg)) && r.net == s.net
  {
    if a == d.dst {
      ReshapeStep(s.secs[a], counts, dropped, d.msg, ms);
    }
  }

  lemma StuckDeliver(s: State, d: Datagram, p: Packet, ms: set<OctaneControl>)
    requires Orderly(ms) && Stuck(s, d, ms)
    ensures var r := Do(s, Deliver(p));
            (d.dst in r.secs ==> Contains(r.secs[d.dst].dropped, d.msg)) && !AckInFlight(r, d.msg.seqno)
  {
    if p in s.net && p.ToSecondary? && p.dst in s.secs {
      CopyOfPending(s, d, p.dst, p.msg);
      StuckCopy(s, d, p, ms);
    } else {
      NoNewAck(s, Do(s, Deliver(p)), d.msg.seqno);
    }
  }

  lemma StuckCopy(s: State, d: Datagram, p: Packet, ms: set<OctaneControl>)
    requires Orderly(ms) && d.msg in ms && Tidy(s, d.dst, ms) && Contains(s.secs[d.dst].dropped, d.msg)
    requires !AckInFlight(s, d.msg.seqno)
    requires p in s.net && p.ToSecondary? && p.dst in s.secs
    requires Datagram(p.dst, p.msg) in s.sent && (p.msg.seqno == d.msg.seqno ==> Datagram(p.dst, p.msg) == d)
    ensures var r := Do(s, Deliver(p));
            (d.dst in r.secs ==> Contains(r.secs[d.dst].dropped, d.msg)) && !AckInFlight(r, d.msg.seqno)
  {
    var t := s.(net := s.net - multiset{p});
    DroppedArrive(t, d, ms, p.dst, p.msg);
    NoNewAck(s, t, d.msg.seqno);
    SilentArrive(t, d.msg.seqno, p.dst, p.msg);
  }

  /** Once stuck, d is never acknowledged, whatever happens, as long as the secondary's messages stay orderly and new
      messages get unused numbers. */
  lemma {:induction false} StuckForever(s: State, d: Datagram, steps: seq<Step>, ms: set<OctaneControl>)
    requires Orderly(ms) && Stuck(s, d, ms) && Guarded(s, steps) && Addressed(Exec(s, steps), d.dst, ms)
    ensures Stuck(Exec(s, steps), d, ms)
    decreases |steps|
  {
    if steps != [] {
      var init := steps[..|steps| - 1];
      SentGrows(Exec(s, init), steps[|steps| - 1]);
      StuckForever(s, d, init, ms);
      StuckStep(Exec(s, init), d, steps[|steps| - 1], ms);
    }
  }

  // ---------- A run that acknowledges ----------

  /** A reading not before now and so late that every timer is due and one armed then goes to the end of the queue. */
  ghost function LateTime(q: Queue, now: Timeval): (t: Timeval)
    requires Normal(now)
    ensures Normal(t) && Cmp(now, t) <= 0 && forall i :: 0 <= i < |q| ==> q[i].expiry.sec < t.sec
  {
    if q == [] then now
    else
      var r := LateTime(q[1..], now);
      assert forall i :: 0 < i < |q| ==> q[i] == q[1..][i - 1];
      if q[0].expiry.sec < r.sec then r else Timeval(q[0].expiry.sec + 1, 0)
  }

  lemma TwoSecondsLater(t: Timeval)
    requires Normal(t)
    ensures Later(t, RETRANSMIT_AFTER) == Timeval(t.sec + 2, t.usec)
  {
    assert Micros(t) + 2_000_000 == 1_000_000 * (t.sec + 2) + t.usec;
  }

  lemma LateFireGoesLast(p: Primary, now: Timeval)
    requires Registered(p) && p.queue != [] && Normal(now)
    ensures var late := LateTime(p.queue, now);
            && HeadDue(p.queue, late)
            && Apply(p, Fire(late)).queue == p.queue[1..] + [Rescheduled(p.queue[0], late)]
  {
    var late, tail := LateTime(p.queue, now), p.queue[1..];
    var t := Rescheduled(p.queue[0], late);
    assert Records(p, p.queue[0]);
    TwoSecondsLater(late);
    var ts := Expiries(tail);
    RankIs(ts, t.expiry, |ts|);
    assert tail[..|tail|] == tail && tail[|tail|..] == [];
  }

  /** How many echoes the steps lose. */
  function LostEchoes(steps: seq<Step>): nat
    decreases |steps|
  {
    if steps == [] then 0
    else LostEchoes(steps[..|steps| - 1]) +
         if steps[|steps| - 1].Lose? && steps[|steps| - 1].packet.ToPrimary? then 1 else 0
  }

  lemma {:induction false} LostConcat(a: seq<Step>, b: seq<Step>)
    ensures LostEchoes(a + b) == LostEchoes(a) + LostEchoes(b)
    decreases |b|
  {
    if b == [] {
      assert a + b == a;
    } else {
      SplitLast(a, b);
      LostConcat(a, b[..|b| - 1]);
    }
  }

  lemma OneLost(a: Step)
    ensures LostEchoes([a]) == if a.Lose? && a.packet.ToPrimary? then 1 else 0
  {
    assert [a][..0] == [];
  }

  /** Between s and r the primary has only waited and fired timers. */
  ghost predicate OnlyFired(s: State, r: State) {
    && r.sent == s.sent && r.secs == s.secs
    && (forall t :: t in s.prim.queue ==> HasCallback(r.prim.queue, t.cb))
    && (forall p :: p in r.net && p.ToPrimary? ==> p in s.net)
  }

  lemma OnlyFiredChain(s: State, u: State, r: State)
    requires OnlyFired(s, u) && OnlyFired(u, r)
    ensures OnlyFired(s, r)
  {
    forall t | t in s.prim.queue ensures HasCallback(r.prim.queue, t.cb) {
      assert HasCallback(u.prim.queue, t.cb);
      var x :| x in u.prim.queue && x.cb == t.cb;
      assert HasCallback(r.prim.queue, x.cb);
    }
  }

  lemma FireOnly(s: State, now: Timeval)
    requires Registered(s.prim) && s.prim.queue != []
    ensures OnlyFired(s, Do(s, FireStep(now)))
  {
    var r := Do(s, FireStep(now));
    forall p | p in r.net && p.ToPrimary? ensures p in s.net {
      WireMembers([Resend(s.prim.queue[0])], p);
    }
    forall t | t in s.prim.queue ensures HasCallback(r.prim.queue, t.cb) {
      FireCallbacks(s.prim, now, t.cb);
      assert HasCallback(s.prim.queue, t.cb);
    }
  }

  /** Steps that fire the head of the queue each time it is due, and do nothing else. */
  ghost predicate Waits(s: State, steps: seq<Step>, now: Timeval)
    decreases |steps|
  {
    steps == [] ||
    (steps[0].FireStep? &&
     (var t := steps[0].fireTime;
      Normal(t) && Cmp(now, t) <= 0 && HeadDue(s.prim.queue, t) && Waits(Do(s, steps[0]), steps[1..], t)))
  }

  ghost predicate Quiet(s: State, steps: seq<Step>, now: Timeval) {
    && Proper(s, steps, now) && Normal(Latest(steps, now)) && LostEchoes(steps) == 0
    && OnlyFired(s, Exec(s, steps))
  }

  lemma QuietFront(s: State, t: Timeval, rest: seq<Step>, now: Timeval, all: seq<Step>)
    requires Registered(s.prim) && Normal(t) && Cmp(now, t) <= 0 && HeadDue(s.prim.queue, t)
    requires Quiet(Do(s, FireStep(t)), rest, t) && all == [FireStep(t)] + rest
    ensures Quiet(s, all, now)
  {
    OneStep(s, FireStep(t), now);
    OneLost(FireStep(t));
    FireOnly(s, t);
    ExecConcat(s, [FireStep(t)], rest);
    ProperConcat(s, [FireStep(t)], rest, now);
    LostConcat([FireStep(t)], rest);
    OnlyFiredChain(s, Do(s, FireStep(t)), Exec(s, all));
  }

  /** Waiting is a run in time that sends, delivers and loses nothing. */
  lemma {:induction false} WaitsQuietly(s: State, steps: seq<Step>, now: Timeval)
    requires Registered(s.prim) && Normal(now) && Waits(s, steps, now)
    ensures Quiet(s, steps, now)
    decreases |steps|
  {
    if steps == [] {
      QuietStart(s, now);
    } else {
      var t := steps[0].fireTime;
      FireKeepsRegistered(s.prim, t);
      WaitsQuietly(Do(s, FireStep(t)), steps[1..], t);
      assert [FireStep(t)] + steps[1..] == steps;
      QuietFront(s, t, steps[1..], now, steps);
    }
  }

  lemma QuietStart(s: State, now: Timeval)
    requires Normal(now)
    ensures Quiet(s, [], now)
  {
    forall t | t in s.prim.queue ensures HasCallback(s.prim.queue, t.cb) {
    }
  }

  /** The timer with callback cb is at position i. */
  ghost predicate TimerAt(s: State, i: nat, cb: OctaneTimer) {
    Registered(s.prim) && i < |s.prim.queue| && s.prim.queue[i].cb == cb
  }

  ghost predicate CopyInFlight(s: State, cb: OctaneTimer) {
    ToSecondary(cb.dst, cb.msg) in s.net
  }

  /** As soon as all timers are due, the head fires, and the others move up. */
  lemma FireLate(s: State, i: nat, cb: OctaneTimer, now: Timeval) returns (t: Timeval)
    requires TimerAt(s, i, cb) && Normal(now)
    ensures Normal(t) && Cmp(now, t) <= 0 && HeadDue(s.prim.queue, t)
    ensures i == 0 ==> CopyInFlight(Do(s, FireStep(t)), cb)
    ensures i > 0 ==> TimerAt(Do(s, FireStep(t)), i - 1, cb)
  {
    t := LateTime(s.prim.queue, now);
    LateFireGoesLast(s.prim, now);
    FireKeepsRegistered(s.prim, t);
    if i == 0 {
      WireMembers([Resend(s.prim.queue[0])], ToSecondary(cb.dst, cb.msg));
    } else {
      assert Do(s, FireStep(t)).prim.queue[i - 1] == s.prim.queue[1..][i - 1];
    }
  }

  lemma WaitsFront(s: State, t: Timeval, rest: seq<Step>, now: Timeval) returns (all: seq<Step>)
    requires Normal(t) && Cmp(now, t) <= 0 && HeadDue(s.prim.queue, t) && Waits(Do(s, FireStep(t)), rest, t)
    ensures Waits(s, all, now) && Exec(s, all) == Exec(Do(s, FireStep(t)), rest)
  {
    all := [FireStep(t)] + rest;
    assert all[1..] == rest;
    OneStep(s, FireStep(t), now);
    ExecConcat(s, [FireStep(t)], rest);
  }

  /** Waiting until the timer at position i has fired puts a copy of its message on the wire. */
  lemma {:induction false} ResendReachable(s: State, i: nat, cb: OctaneTimer, now: Timeval) returns (steps: seq<Step>)
    requires TimerAt(s, i, cb) && Normal(now)
    ensures Waits(s, steps, now) && CopyInFlight(Exec(s, steps), cb)
    decreases i
  {
    var t := FireLate(s, i, cb, now);
    var more := [];
    if i > 0 {
      more := ResendReachable(Do(s, FireStep(t)), i - 1, cb, t);
    }
    steps := WaitsFront(s, t, more, now);
  }

  lemma EchoSettles(s: State, p: Packet, d: Datagram)
    requires Inv(s) && p in s.net && p.ToPrimary? && p.msg.seqno == d.msg.seqno
    ensures !Pending(Do(s, Deliver(p)), d) && Do(s, Deliver(p)).sent == s.sent
  {
    assert InFlightOk(s, p);
    EchoRemovesItsTimer(s.prim, p.msg);
    forall t | t in Do(s, Deliver(p)).prim.queue ensures Resend(t) != d {
      assert Records(s.prim, t);
    }
  }

  lemma Witness(s: State, d: Datagram, steps: seq<Step>, now: Timeval, ms: set<OctaneControl>)
    requires Proper(s, steps, now) && Addressed(Exec(s, steps), d.dst, ms) && !Pending(Exec(s, steps), d)
    ensures CanBeAcknowledged(s, d, now, ms)
  {
  }

  lemma DeliverAndAck(r: State, d: Datagram, now: Timeval)
    requires Inv(r) && d in r.sent && ToSecondary(d.dst, d.msg) in r.net
    requires d.dst in r.secs && !Contains(r.secs[d.dst].dropped, d.msg)
    ensures var steps := [Deliver(ToSecondary(d.dst, d.msg)), Deliver(ToPrimary(d.dst, d.msg.(flags := 1)))];
            Proper(r, steps, now) && Exec(r, steps).sent == r.sent && !Pending(Exec(r, steps), d)
  {
    var copy, ack := ToSecondary(d.dst, d.msg), ToPrimary(d.dst, d.msg.(flags := 1));
    var u := Do(r, Deliver(copy));
    AckMembers(d.dst, [d.msg.(flags := 1)], ack);
    assert ack in u.net;
    StepKeepsInv(r, Deliver(copy));
    EchoSettles(u, ack, d);
    TwoSteps(r, Deliver(copy), Deliver(ack), now);
  }

  /** As long as its class is not dropped, retransmission can get a message acknowledged. */
  lemma {:induction false} ResendThenAck(s: State, d: Datagram, now: Timeval, ms: set<OctaneControl>)
    requires Inv(s) && Pending(s, d) && Normal(now) && Addressed(s, d.dst, ms)
    requires d.dst in s.secs && !Contains(s.secs[d.dst].dropped, d.msg)
    ensures CanBeAcknowledged(s, d, now, ms)
  {
    var t :| t in s.prim.queue && Resend(t) == d;
    var i :| 0 <= i < |s.prim.queue| && s.prim.queue[i] == t;
    var resend := ResendReachable(s, i, t.cb, now);
    WaitsQuietly(s, resend, now);
    RunKeepsInv(s, resend);
    var r := Exec(s, resend);
    var rest := [Deliver(ToSecondary(d.dst, d.msg)), Deliver(ToPrimary(d.dst, d.msg.(flags := 1)))];
    DeliverAndAck(r, d, Latest(resend, now));
    ExecConcat(s, resend, rest);
    ProperConcat(s, resend, rest, now);
    Witness(s, d, resend + rest, now, ms);
  }

  lemma AckableIff(s: State, d: Datagram, now: Timeval, ms: set<OctaneControl>)
    requires Orderly(ms) && Inv(s) && Pending(s, d) && Tidy(s, d.dst, ms) && Normal(now)
    ensures CanBeAcknowledged(s, d, now, ms) <==>
            !Contains(s.secs[d.dst].dropped, d.msg) || AckInFlight(s, d.msg.seqno)
  {
    var t :| t in s.prim.queue && Resend(t) == d;
    assert Resend(t) in s.sent;
    if AckInFlight(s, d.msg.seqno) {
      var p :| p in s.net && p.ToPrimary? && p.msg.seqno == d.msg.seqno;
      EchoSettles(s, p, d);
      OneStep(s, Deliver(p), now);
      Witness(s, d, [Deliver(p)], now, ms);
    } else if !Contains(s.secs[d.dst].dropped, d.msg) {
      ResendThenAck(s, d, now, ms);
    } else {
      forall steps | Proper(s, steps, now) && Addressed(Exec(s, steps), d.dst, ms) ensures Pending(Exec(s, steps), d) {
        StuckForever(s, d, steps, ms);
      }
    }
  }

  /** Exactly when a message that is still unacknowledged after a run can yet be acknowledged by a run that goes on from
      there, in time: its secondary has not dropped its class, or an echo of it is already under way. Once drop_after
      echoes of a class are lost, the primary retransmits forever and never comes to its idle exit. The messages
      to that secondary must be orderly. */
  lemma {:induction false} CanBeAcknowledgedIff(dropAfter: map<Addr, int>, run: seq<Step>, d: Datagram, now: Timeval,
                                                ms: set<OctaneControl>)
    requires Guarded(Init(dropAfter), run) && d.dst in dropAfter && Normal(now)
    requires Orderly(ms) && Addressed(Exec(Init(dropAfter), run), d.dst, ms) && Pending(Exec(Init(dropAfter), run), d)
    ensures var s := Exec(Init(dropAfter), run);
            d.dst in s.secs &&
            (CanBeAcknowledged(s, d, now, ms) <==>
             !Contains(s.secs[d.dst].dropped, d.msg) || AckInFlight(s, d.msg.seqno))
  {
    ReachedInv(dropAfter, run);
    InitInv(dropAfter);
    InitTidy(dropAfter, d.dst, ms);
    RunKeepsTidy(Init(dropAfter), run, d.dst, ms);
    AckableIff(Exec(Init(dropAfter), run), d, now, ms);
  }

  // ---------- Runs that get stuck ----------

  /** d is pending, no echo of it is under way, and its secondary has received k copies of its class. */
  ghost predicate Answering(s: State, d: Datagram, ms: set<OctaneControl>, k: nat) {
    && Inv(s) && Pending(s, d) && d.msg in ms && Tidy(s, d.dst, ms)
    && Counted(s.secs[d.dst], d.msg, k) && !AckInFlight(s, d.msg.seqno)
  }

  lemma PendingAfter(s: State, r: State, d: Datagram)
    requires Pending(s, d) && forall t :: t in s.prim.queue ==> HasCallback(r.prim.queue, t.cb)
    ensures Pending(r, d)
  {
    PendingCallback(s, d);
    PendingCallback(r, d);
    var t :| t in s.prim.queue && Resend(t) == d;
    assert HasCallback(r.prim.queue, t.cb);
  }

  /** A copy of d can be brought onto the wire without changing what is counted. */
  lemma BringCopy(s: State, d: Datagram, ms: set<OctaneControl>, k: nat, now: Timeval) returns (steps: seq<Step>)
    requires Answering(s, d, ms, k) && Normal(now)
    ensures Proper(s, steps, now) && Normal(Latest(steps, now)) && LostEchoes(steps) == 0
    ensures var r := Exec(s, steps);
            && Answering(r, d, ms, k) && ToSecondary(d.dst, d.msg) in r.net
            && r.sent == s.sent && r.secs == s.secs
  {
    if ToSecondary(d.dst, d.msg) in s.net {
      steps := [];
    } else {
      var t :| t in s.prim.queue && Resend(t) == d;
      var i :| 0 <= i < |s.prim.queue| && s.prim.queue[i] == t;
      steps := ResendReachable(s, i, t.cb, now);
      WaitsQuietly(s, steps, now);
      RunKeepsInv(s, steps);
      PendingAfter(s, Exec(s, steps), d);
      NoNewAck(s, Exec(s, steps), d.msg.seqno);
    }
  }

  /** The copy arrives, is counted and answered, and the echo is lost. */
  lemma DeliverAndLose(s: State, d: Datagram, ms: set<OctaneControl>, k: nat, now: Timeval)
    requires Orderly(ms) && Answering(s, d, ms, k) && ToSecondary(d.dst, d.msg) in s.net
    requires !Contains(s.secs[d.dst].dropped, d.msg)
    ensures var steps := [Deliver(ToSecondary(d.dst, d.msg)), Lose(ToPrimary(d.dst, d.msg.(flags := 1)))];
            var r := Exec(s, steps);
            && Proper(s, steps, now) && Latest(steps, now) == now && LostEchoes(steps) == 1
            && Answering(r, d, ms, k + 1) && r.sent == s.sent
            && r.secs[d.dst].dropAfter == s.secs[d.dst].dropAfter
  {
    var copy, echo := ToSecondary(d.dst, d.msg), ToPrimary(d.dst, d.msg.(flags := 1));
    var deliver, lose := Deliver(copy), Lose(echo);
    var u := Do(s, deliver);
    TwoSteps(s, deliver, lose, now);
    TwoLost(deliver, lose, now);
    CopyCounted(s, d, ms, k);
    var r := Do(u, lose);
    StepKeepsInv(s, deliver);
    LoseKeepsInv(u, echo);
    EchoLost(s, d);
  }

  lemma TwoLost(a: Step, b: Step, now: Timeval)
    requires a.Deliver? && b.Lose? && b.packet.ToPrimary?
    ensures LostEchoes([a, b]) == 1 && Latest([a, b], now) == now
  {
    OneLost(a);
    OneLost(b);
    LostConcat([a], [b]);
    assert [a] + [b] == [a, b];
    assert [a, b][..1] == [a] && [a][..0] == [];
    assert Latest([a], now) == Latest([], now) == now;
  }

  lemma CopyCounted(s: State, d: Datagram, ms: set<OctaneControl>, k: nat)
    requires Orderly(ms) && d.msg in ms && Tidy(s, d.dst, ms) && Counted(s.secs[d.dst], d.msg, k)
    requires ToSecondary(d.dst, d.msg) in s.net
    ensures var r := Do(s, Deliver(ToSecondary(d.dst, d.msg)));
            && Tidy(r, d.dst, ms) && Counted(r.secs[d.dst], d.msg, k + 1) && r.prim == s.prim && r.sent == s.sent
            && r.secs[d.dst].dropAfter == s.secs[d.dst].dropAfter
  {
    ReceiveStep(s.secs[d.dst], d.msg, d.msg, k, ms);
    ReceiveInstalls(s.secs[d.dst], d.msg);
  }

  lemma EchoLost(s: State, d: Datagram)
    requires d.dst in s.secs && !AckInFlight(s, d.msg.seqno) && ToSecondary(d.dst, d.msg) in s.net
    requires !Contains(s.secs[d.dst].dropped, d.msg)
    ensures var echo := ToPrimary(d.dst, d.msg.(flags := 1));
            !AckInFlight(Do(Do(s, Deliver(ToSecondary(d.dst, d.msg))), Lose(echo)), d.msg.seqno)
  {
    var echo := ToPrimary(d.dst, d.msg.(flags := 1));
    var r := Do(Do(s, Deliver(ToSecondary(d.dst, d.msg))), Lose(echo));
    OneEcho(d.dst, d.msg.(flags := 1));
    assert r.net == s.net - multiset{ToSecondary(d.dst, d.msg)} + multiset{echo} - multiset{echo};
    NoNewAck(s, r, d.msg.seqno);
  }

  lemma OneEcho(src: Addr, m: OctaneControl)
    ensures Acks(src, [m]) == multiset{ToPrimary(src, m)}
  {
    assert seq(1, i requires 0 <= i < 1 => ToPrimary(src, [m][i])) == [ToPrimary(src, m)];
  }

  /** After the remaining echoes of its class are lost, one after the other, d is stuck. */
  lemma {:induction false} GetStuck(s: State, d: Datagram, ms: set<OctaneControl>, k: nat, now: Timeval)
    returns (steps: seq<Step>)
    requires Orderly(ms) && Answering(s, d, ms, k) && Normal(now)
    requires 1 <= s.secs[d.dst].dropAfter && k <= s.secs[d.dst].dropAfter
    ensures Proper(s, steps, now) && Stuck(Exec(s, steps), d, ms) && Exec(s, steps).sent == s.sent
    ensures LostEchoes(steps) == s.secs[d.dst].dropAfter - k
    decreases s.secs[d.dst].dropAfter - k
  {
    if k == s.secs[d.dst].dropAfter {
      steps := [];
    } else {
      var bring := BringCopy(s, d, ms, k, now);
      var u, later := Exec(s, bring), Latest(bring, now);
      var round := [Deliver(ToSecondary(d.dst, d.msg)), Lose(ToPrimary(d.dst, d.msg.(flags := 1)))];
      DeliverAndLose(u, d, ms, k, later);
      var more := GetStuck(Exec(u, round), d, ms, k + 1, later);
      Chained(s, bring, round, more, now);
      steps := bring + round + more;
    }
  }

  lemma Chained(s: State, a: seq<Step>, b: seq<Step>, c: seq<Step>, now: Timeval)
    requires Proper(s, a, now) && Proper(Exec(s, a), b, Latest(a, now))
    requires Proper(Exec(Exec(s, a), b), c, Latest(b, Latest(a, now)))
    ensures Proper(s, a + b + c, now) && Exec(s, a + b + c) == Exec(Exec(Exec(s, a), b), c)
    ensures LostEchoes(a + b + c) == LostEchoes(a) + LostEchoes(b) + LostEchoes(c)
  {
    ExecConcat(s, a, b);
    ExecConcat(s, a + b, c);
    ProperConcat(s, a, b, now);
    ProperConcat(s, a + b, c, now);
    LostConcat(a, b);
    LostConcat(a + b, c);
  }

  /** Losing the echoes that are under way. */
  lemma {:induction false} LoseEchoes(s: State, d: Datagram, ms: set<OctaneControl>, now: Timeval)
    returns (steps: seq<Step>)
    requires Inv(s) && Pending(s, d) && Tidy(s, d.dst, ms)
    ensures var r := Exec(s, steps);
            && Proper(s, steps, now) && Latest(steps, now) == now
            && Inv(r) && r.prim == s.prim && r.secs == s.secs && r.sent == s.sent
            && !AckInFlight(r, d.msg.seqno)
    decreases |s.net|
  {
    if AckInFlight(s, d.msg.seqno) {
      var p :| p in s.net && p.ToPrimary? && p.msg.seqno == d.msg.seqno;
      LoseKeepsInv(s, p);
      OneStep(s, Lose(p), now);
      var more := LoseEchoes(Do(s, Lose(p)), d, ms, now);
      ExecConcat(s, [Lose(p)], more);
      ProperConcat(s, [Lose(p)], more, now);
      steps := [Lose(p)] + more;
    } else {
      steps := [];
    }
  }

  /** What a secondary knows about the class of m is the number of its copies, whatever that is. */
  ghost predicate Counts(s: State, a: Addr, m: OctaneControl) {
    a in s.secs && exists k: nat :: Counted(s.secs[a], m, k)
  }

  lemma StepKeepsCounts(s: State, step: Step, a: Addr, m: OctaneControl, ms: set<OctaneControl>)
    requires Orderly(ms) && Inv(s) && Tidy(s, a, ms) && m in ms && Counts(s, a, m)
    ensures Counts(Do(s, step), a, m)
  {
    var k: nat :| Counted(s.secs[a], m, k);
    if step.Rebalance? && step.at == a {
      ReshapeStep(s.secs[a], step.counts, step.dropped, m, ms);
      CountsAgain(Do(s, step), a, m, k);
    } else if step.Deliver? && step.packet in s.net && step.packet.ToSecondary? && step.packet.dst == a {
      assert InFlightOk(s, step.packet);
      ReceiveStep(s.secs[a], step.packet.msg, m, k, ms);
      CountsAgain(Do(s, step), a, m, if ClassOf(step.packet.msg) == ClassOf(m) then k + 1 else k);
    } else {
      OtherSecondary(s, step, a);
      CountsAgain(Do(s, step), a, m, k);
    }
  }

  lemma CountsAgain(s: State, a: Addr, m: OctaneControl, k: nat)
    requires a in s.secs && Counted(s.secs[a], m, k)
    ensures Counts(s, a, m)
  {
  }

  lemma OtherSecondary(s: State, step: Step, a: Addr)
    requires a in s.secs && !(step.Rebalance? && step.at == a)
    requires !(step.Deliver? && step.packet in s.net && step.packet.ToSecondary? && step.packet.dst == a)
    ensures a in Do(s, step).secs && Do(s, step).secs[a] == s.secs[a]
  {
  }

  lemma DropAfterKept(s: State, step: Step, a: Addr)
    requires a in s.secs
    ensures a in Do(s, step).secs && Do(s, step).secs[a].dropAfter == s.secs[a].dropAfter
  {
    if step.Deliver? && step.packet.ToSecondary? && step.packet.dst == a {
      ReceiveInstalls(s.secs[a], step.packet.msg);
    }
  }

  lemma {:induction false} RunKeepsCounts(s: State, steps: seq<Step>, a: Addr, m: OctaneControl, ms: set<OctaneControl>)
    requires Orderly(ms) && Inv(s) && Guarded(s, steps) && Tidy(s, a, ms) && m in ms && Counts(s, a, m)
    requires Addressed(Exec(s, steps), a, ms)
    ensures Counts(Exec(s, steps), a, m) && Exec(s, steps).secs[a].dropAfter == s.secs[a].dropAfter
    decreases |steps|
  {
    if steps != [] {
      var init := steps[..|steps| - 1];
      SentGrows(Exec(s, init), steps[|steps| - 1]);
      RunKeepsCounts(s, init, a, m, ms);
      RunKeepsInv(s, init);
      RunKeepsTidy(s, init, a, ms);
      StepKeepsCounts(Exec(s, init), steps[|steps| - 1], a, m, ms);
      DropAfterKept(Exec(s, init), steps[|steps| - 1], a);
    }
  }

  /** Some proper continuation, still with messages from ms only, gets d stuck. */
  ghost predicate CanGetStuck(s: State, d: Datagram, now: Timeval, ms: set<OctaneControl>) {
    exists steps :: Proper(s, steps, now) && Addressed(Exec(s, steps), d.dst, ms) && Stuck(Exec(s, steps), d, ms)
  }

  lemma StuckWitness(s: State, d: Datagram, steps: seq<Step>, now: Timeval, ms: set<OctaneControl>)
    requires Proper(s, steps, now) && Addressed(Exec(s, steps), d.dst, ms) && Stuck(Exec(s, steps), d, ms)
    ensures CanGetStuck(s, d, now, ms)
  {
  }

  lemma StuckReachable(s: State, d: Datagram, now: Timeval, ms: set<OctaneControl>, k: nat)
    requires Orderly(ms) && Inv(s) && Pending(s, d) && d.msg in ms && Tidy(s, d.dst, ms) && Normal(now)
    requires Counted(s.secs[d.dst], d.msg, k) && 1 <= s.secs[d.dst].dropAfter
    ensures CanGetStuck(s, d, now, ms)
  {
    var quiet := LoseEchoes(s, d, ms, now);
    var u := Exec(s, quiet);
    assert Pending(u, d);
    if k > s.secs[d.dst].dropAfter {
      StuckWitness(s, d, quiet, now, ms);
    } else {
      assert Answering(u, d, ms, k);
      var more := GetStuck(u, d, ms, k, now);
      ExecConcat(s, quiet, more);
      ProperConcat(s, quiet, more, now);
      StuckWitness(s, d, quiet + more, now, ms);
    }
  }

  /** Exactly when a message that is still unacknowledged after a run can get stuck: its secondary drops at all,
      that is, its drop_after is at least 1. */
  lemma {:induction false} CanGetStuckIff(dropAfter: map<Addr, int>, run: seq<Step>, d: Datagram, now: Timeval,
                                          ms: set<OctaneControl>)
    requires Guarded(Init(dropAfter), run) && d.dst in dropAfter && Normal(now)
    requires Orderly(ms) && Addressed(Exec(Init(dropAfter), run), d.dst, ms) && Pending(Exec(Init(dropAfter), run), d)
    ensures CanGetStuck(Exec(Init(dropAfter), run), d, now, ms) <==> dropAfter[d.dst] >= 1
  {
    var s := Exec(Init(dropAfter), run);
    ReachedCounts(dropAfter, run, d, ms);
    if dropAfter[d.dst] >= 1 {
      var k: nat :| Counted(s.secs[d.dst], d.msg, k);
      StuckReachable(s, d, now, ms, k);
    } else {
      NeverStuck(s, d, now, ms);
    }
  }

  /** What is known of a pending message after a run. */
  lemma ReachedCounts(dropAfter: map<Addr, int>, run: seq<Step>, d: Datagram, ms: set<OctaneControl>)
    requires Guarded(Init(dropAfter), run) && d.dst in dropAfter && Orderly(ms)
    requires Addressed(Exec(Init(dropAfter), run), d.dst, ms) && Pending(Exec(Init(dropAfter), run), d)
    ensures var s := Exec(Init(dropAfter), run);
            && Inv(s) && Tidy(s, d.dst, ms) && d.msg in ms && Counts(s, d.dst, d.msg)
            && s.secs[d.dst].dropAfter == dropAfter[d.dst]
  {
    var s0, s := Init(dropAfter), Exec(Init(dropAfter), run);
    ReachedInv(dropAfter, run);
    InitInv(dropAfter);
    PendingWasSent(s, d);
    InitTidy(dropAfter, d.dst, ms);
    RunKeepsTidy(s0, run, d.dst, ms);
    FreshCounts(dropAfter, d.dst, d.msg);
    RunKeepsCounts(s0, run, d.dst, d.msg, ms);
  }

  /** A secondary with a drop_after below 1 never drops. */
  lemma NeverStuck(s: State, d: Datagram, now: Timeval, ms: set<OctaneControl>)
    requires Orderly(ms) && Inv(s) && Tidy(s, d.dst, ms) && d.msg in ms && Counts(s, d.dst, d.msg)
    requires s.secs[d.dst].dropAfter < 1
    ensures !CanGetStuck(s, d, now, ms)
  {
    forall steps | Proper(s, steps, now) && Addressed(Exec(s, steps), d.dst, ms) ensures !Stuck(Exec(s, steps), d, ms) {
      RunKeepsCounts(s, steps, d.dst, d.msg, ms);
    }
  }

  lemma FreshCounts(dropAfter: map<Addr, int>, a: Addr, m: OctaneControl)
    requires a in dropAfter
    ensures Counts(Init(dropAfter), a, m) && Init(dropAfter).secs[a].dropAfter == dropAfter[a]
  {
    assert Counted(Fresh(dropAfter[a]), m, 0);
  }

  /** For every drop_after n of at least 1: one message is sent, n echoes of it are lost, and it is stuck. */
  lemma {:induction false} DropAfterLossesStick(a: Addr, n: int, req: Request, now: Timeval)
    returns (steps: seq<Step>, d: Datagram)
    requires n >= 1 && Normal(now)
    ensures var s := Exec(Init(map[a := n]), steps);
            && Proper(Init(map[a := n]), steps, now) && LostEchoes(steps) == n
            && d == Datagram(a, NewMessage(req, 1)) && s.sent == [d] && Stuck(s, d, {d.msg})
  {
    var s0, send := Init(map[a := n]), SendStep(req, a, now);
    d := Datagram(a, NewMessage(req, 1));
    InitInv(map[a := n]);
    SentOnce(s0, a, n, req, now);
    OneStep(s0, send, now);
    assert MayDo(s0, send) && InTime(s0, send, now);
    OneLost(send);
    var more := GetStuck(Do(s0, send), d, {d.msg}, 0, now);
    ExecConcat(s0, [send], more);
    ProperConcat(s0, [send], more, now);
    LostConcat([send], more);
    steps := [send] + more;
  }

  lemma SentOnce(s: State, a: Addr, n: int, req: Request, now: Timeval)
    requires Inv(s) && s.net == multiset{} && s.sent == [] && s.prim == START && a in s.secs && s.secs[a] == Fresh(n)
    ensures var d := Datagram(a, NewMessage(req, 1));
            var r := Do(s, SendStep(req, a, now));
            Answering(r, d, {d.msg}, 0) && r.sent == [d] && r.secs == s.secs
  {
    var d := Datagram(a, NewMessage(req, 1));
    SentPending(s, d, req, now);
    FreshCounted(n, d.msg);
    SentNothingElse(s, req, a, now);
  }

  lemma SentPending(s: State, d: Datagram, req: Request, now: Timeval)
    requires Inv(s) && s.net == multiset{} && s.prim == START && d == Datagram(d.dst, NewMessage(req, 1))
    ensures var r := Do(s, SendStep(req, d.dst, now)); Inv(r) && Pending(r, d)
  {
    SendKeepsInv(s, req, d.dst, now);
    SendPending(s, req, d.dst, now);
  }

  lemma SentNothingElse(s: State, req: Request, a: Addr, now: Timeval)
    requires s.net == multiset{} && s.sent == []
    ensures var r := Do(s, SendStep(req, a, now));
            && r.sent == [Datagram(a, NewMessage(req, s.prim.seqnoCnt))] && r.secs == s.secs
            && !AckInFlight(r, s.prim.seqnoCnt)
  {
    var r, d := Do(s, SendStep(req, a, now)), Datagram(a, NewMessage(req, s.prim.seqnoCnt));
    forall p | p in r.net ensures !p.ToPrimary? {
      WireMembers([d], p);
    }
  }

  lemma FreshCounted(n: int, m: OctaneControl)
    ensures Counted(Fresh(n), m, 0) && Known(Fresh(n), {m})
  {
  }

  /** n times a packet is duplicated and one of the two copies arrives. */
  function CopiesArrive(p: Packet, n: nat): seq<Step> {
    if n == 0 then [] else CopiesArrive(p, n - 1) + Twice(p)
  }

  function Twice(p: Packet): seq<Step> {
    [Duplicate(p), Deliver(p)]
  }

  /** d has a copy in flight, its secondary has received k copies of its class, and otherwise r is like s. */
  ghost predicate CopyAndCount(s: State, r: State, d: Datagram, k: nat) {
    && Tidy(r, d.dst, {d.msg}) && Counted(r.secs[d.dst], d.msg, k) && ToSecondary(d.dst, d.msg) in r.net
    && d.dst in s.secs && r.secs[d.dst].dropAfter == s.secs[d.dst].dropAfter && r.prim == s.prim && r.sent == s.sent
  }

  lemma OneArrives(s: State, r: State, d: Datagram, k: nat)
    requires CopyAndCount(s, r, d, k)
    ensures CopyAndCount(s, Exec(r, Twice(ToSecondary(d.dst, d.msg))), d, k + 1)
  {
    var p := ToSecondary(d.dst, d.msg);
    DoTwice(r, p);
    OneCopyLeft(r, p);
    DuplicateCounted(s, r, d, k);
    DeliverCounted(s, Do(r, Duplicate(p)), d, k);
  }

  lemma DuplicateCounted(s: State, r: State, d: Datagram, k: nat)
    requires CopyAndCount(s, r, d, k)
    ensures CopyAndCount(s, Do(r, Duplicate(ToSecondary(d.dst, d.msg))), d, k)
  {
  }

  lemma DeliverCounted(s: State, r: State, d: Datagram, k: nat)
    requires CopyAndCount(s, r, d, k)
    ensures var p := ToSecondary(d.dst, d.msg);
            p in Do(r, Deliver(p)).net ==> CopyAndCount(s, Do(r, Deliver(p)), d, k + 1)
  {
    CopyCounted(r, d, {d.msg}, k);
  }

  lemma DoTwice(r: State, p: Packet)
    ensures Exec(r, Twice(p)) == Do(Do(r, Duplicate(p)), Deliver(p))
  {
    TwoSteps(r, Duplicate(p), Deliver(p), ZERO);
  }

  lemma OneCopyLeft(r: State, p: Packet)
    requires p in r.net
    ensures p in Do(Do(r, Duplicate(p)), Deliver(p)).net
  {
    assert Do(r, Duplicate(p)).net[p] >= 2;
  }

  ghost predicate AllArrived(s: State, d: Datagram, n: nat) {
    CopyAndCount(s, Exec(s, CopiesArrive(ToSecondary(d.dst, d.msg), n)), d, n)
  }

  lemma NextCopies(p: Packet, n: nat, n': nat)
    requires n' == n + 1
    ensures CopiesArrive(p, n') == CopiesArrive(p, n) + Twice(p)
  {
  }

  lemma ExecNext(s: State, a: seq<Step>, b: seq<Step>, all: seq<Step>)
    requires all == a + b
    ensures Exec(s, all) == Exec(Exec(s, a), b)
  {
    ExecConcat(s, a, b);
  }

  lemma NextArrived(s: State, d: Datagram, n: nat, n': nat)
    requires AllArrived(s, d, n) && n' == n + 1
    ensures AllArrived(s, d, n')
  {
    var p := ToSecondary(d.dst, d.msg);
    var r := Exec(s, CopiesArrive(p, n));
    OneArrives(s, r, d, n);
    NextCopies(p, n, n');
    ExecNext(s, CopiesArrive(p, n), Twice(p), CopiesArrive(p, n'));
  }

  lemma NoneArrived(s: State, d: Datagram, n: nat)
    requires n == 0 && CopyAndCount(s, s, d, n)
    ensures AllArrived(s, d, n)
  {
  }

  lemma {:induction false} AllArrive(s: State, d: Datagram, n: nat)
    requires CopyAndCount(s, s, d, 0)
    ensures AllArrived(s, d, n)
  {
    if n == 0 {
      NoneArrived(s, d, n);
    } else {
      AllArrive(s, d, n - 1);
      NextArrived(s, d, n - 1, n);
    }
  }

  /** What the channel does needs no clock and no number. */
  predicate ByChannel(step: Step) {
    !step.SendStep? && !step.FireStep?
  }

  lemma {:induction false} ChannelIsProper(s: State, steps: seq<Step>, now: Timeval)
    requires forall i :: 0 <= i < |steps| ==> ByChannel(steps[i])
    ensures Proper(s, steps, now) && Latest(steps, now) == now
    decreases |steps|
  {
    if steps != [] {
      assert ByChannel(steps[|steps| - 1]);
      ChannelIsProper(s, steps[..|steps| - 1], now);
    }
  }

  lemma {:induction false} CopiesByChannel(p: Packet, n: nat)
    ensures forall i :: 0 <= i < |CopiesArrive(p, n)| ==> ByChannel(CopiesArrive(p, n)[i])
  {
    if n > 0 {
      CopiesByChannel(p, n - 1);
    }
  }

  /** The copies arrive one after the other, and the last one without being duplicated. */
  lemma CopiesCounted(s: State, d: Datagram, n: nat, now: Timeval, steps: seq<Step>)
    requires CopyAndCount(s, s, d, 0)
    requires steps == CopiesArrive(ToSecondary(d.dst, d.msg), n) + [Deliver(ToSecondary(d.dst, d.msg))]
    ensures var r := Exec(s, steps);
            && Proper(s, steps, now) && d.dst in r.secs && Counted(r.secs[d.dst], d.msg, n + 1)
            && r.secs[d.dst].dropAfter == s.secs[d.dst].dropAfter && r.prim == s.prim && r.sent == s.sent
  {
    var p := ToSecondary(d.dst, d.msg);
    CopiesByChannel(p, n);
    ChannelIsProper(s, steps, now);
    AllArrive(s, d, n);
    var u := Exec(s, CopiesArrive(p, n));
    CopyCounted(u, d, {d.msg}, n);
    OneStep(u, Deliver(p), now);
    ExecConcat(s, CopiesArrive(p, n), [Deliver(p)]);
  }

  /** A message that is sent once and duplicated m times, with no echo lost and no timer fired, drops its class exactly
      when drop_after is from 1 to m + 1. */
  lemma {:induction false} DuplicatesDropIff(a: Addr, n: int, m: nat, req: Request, now: Timeval)
    requires Normal(now)
    ensures var d, s0 := Datagram(a, NewMessage(req, 1)), Init(map[a := n]);
            var p := ToSecondary(a, d.msg);
            var steps := [SendStep(req, a, now)] + (CopiesArrive(p, m) + [Deliver(p)]);
            var s := Exec(s0, steps);
            && Proper(s0, steps, now) && s.sent == [d] && Pending(s, d)
            && a in s.secs && (Contains(s.secs[a].dropped, d.msg) <==> 1 <= n <= m + 1)
  {
    var s0, send, d := Init(map[a := n]), SendStep(req, a, now), Datagram(a, NewMessage(req, 1));
    InitInv(map[a := n]);
    SentOnce(s0, a, n, req, now);
    OneStep(s0, send, now);
    assert MayDo(s0, send) && InTime(s0, send, now);
    var s1, p := Do(s0, send), ToSecondary(a, d.msg);
    WireMembers([d], p);
    var rest := CopiesArrive(p, m) + [Deliver(p)];
    CopiesCounted(s1, d, m, now, rest);
    ExecConcat(s0, [send], rest);
    ProperConcat(s0, [send], rest, now);
  }

  /** A secondary's trees can take any shape with the same entries at any time. */
  lemma AnyShape(s: State, a: Addr, counts: Tree<int>, dropped: Tree<FlowAction>)
    requires a in s.secs && Entries(counts) == Entries(s.secs[a].counts)
    requires Entries(dropped) == Entries(s.secs[a].dropped)
    ensures Do(s, Rebalance(a, counts, dropped)) ==
            s.(secs := s.secs[a := s.secs[a].(counts := counts, dropped := dropped)])
  {
  }

  // ---------- Sequence numbers used again ----------

  /** The single message that the primary sends for the first ping from source address i to a host of its own
      network. */
  function PingFlow(i: nat): Request
    requires i <= SEQNOS + 1
  {
    Request(2, i, 0x0233_050A, ANY_PORT, ANY_PORT, 1, ANY_PORT)
  }

  function Pings(from: nat, n: nat, now: Timeval): (r: seq<Step>)
    requires from + n <= SEQNOS + 2
    ensures |r| == n
  {
    seq(n, i requires 0 <= i < n => SendStep(PingFlow(from + i), 0, now))
  }

  ghost predicate OneEach(s: State) {
    |s.sent| <= SEQNOS + 1 &&
    forall i :: 0 <= i < |s.sent| ==> s.sent[i].dst == 0 && RequestOf(s.sent[i].msg) == PingFlow(i + 1)
  }

  lemma SendEffect(s: State, req: Request, dst: Addr, now: Timeval)
    ensures var r := Do(s, SendStep(req, dst, now));
            && r.sent == s.sent + [Datagram(dst, NewMessage(req, s.prim.seqnoCnt))] && r.secs == s.secs
            && r.prim.seqnoCnt == Increment(s.prim.seqnoCnt)
            && forall p :: p in s.net ==> p in r.net
  {
  }

  lemma OneMorePing(s: State, r: State, m: OctaneControl)
    requires OneEach(s) && |s.sent| <= SEQNOS && RequestOf(m) == PingFlow(|s.sent| + 1)
    requires r.sent == s.sent + [Datagram(0, m)]
    ensures OneEach(r)
  {
  }

  /** The counter after n more sends. */
  function After(c: u16, n: nat): u16 {
    if n == 0 then c else Increment(After(c, n - 1))
  }

  lemma {:induction false} AfterIs(c: u16, n: nat)
    requires c + n < 2 * SEQNOS
    ensures After(c, n) == if c + n < SEQNOS then c + n else c + n - SEQNOS
  {
    if n > 0 {
      AfterIs(c, n - 1);
    }
  }

  lemma {:induction false} ManyPings(s: State, n: nat, now: Timeval)
    requires OneEach(s) && |s.sent| + n <= SEQNOS + 1
    ensures var r := Exec(s, Pings(|s.sent| + 1, n, now));
            && |r.sent| == |s.sent| + n && OneEach(r) && r.secs == s.secs
            && r.prim.seqnoCnt == After(s.prim.seqnoCnt, n)
            && forall p :: p in s.net ==> p in r.net
  {
    if n > 0 {
      var from := |s.sent| + 1;
      var init, req := Pings(from, n - 1, now), PingFlow(from + n - 1);
      ManyPings(s, n - 1, now);
      LastPing(from, n, now);
      var r := Exec(s, init);
      SendEffect(r, req, 0, now);
      OneMorePing(r, Do(r, SendStep(req, 0, now)), NewMessage(req, r.prim.seqnoCnt));
      LastStep(s, init, SendStep(req, 0, now), now);
    }
  }

  lemma {:induction false} PingsOnTime(s: State, from: nat, n: nat, now: Timeval)
    requires from + n <= SEQNOS + 2 && Normal(now)
    ensures OnTime(s, Pings(from, n, now), now) && Latest(Pings(from, n, now), now) == now
  {
    if n == 0 {
      assert Pings(from, n, now) == [];
    } else {
      PingsOnTime(s, from, n - 1, now);
      LastPing(from, n, now);
      LastStep(s, Pings(from, n - 1, now), SendStep(PingFlow(from + n - 1), 0, now), now);
    }
  }

  lemma LastPing(from: nat, n: nat, now: Timeval)
    requires n > 0 && from + n <= SEQNOS + 2
    ensures Pings(from, n, now) == Pings(from, n - 1, now) + [SendStep(PingFlow(from + n - 1), 0, now)]
  {
    var a, b := Pings(from, n, now), Pings(from, n - 1, now);
    assert a[n - 1] == SendStep(PingFlow(from + n - 1), 0, now);
    forall i | 0 <= i < n - 1 ensures a[i] == b[i] {
    }
  }

  lemma LastStep(s: State, steps: seq<Step>, last: Step, now: Timeval)
    ensures Exec(s, steps + [last]) == Do(Exec(s, steps), last)
    ensures OnTime(s, steps + [last], now) <==>
            OnTime(s, steps, now) && InTime(Exec(s, steps), last, Latest(steps, now))
    ensures last.SendStep? ==> Latest(steps + [last], now) == last.sendTime
  {
    assert (steps + [last])[..|steps|] == steps;
  }

  /** A message sent while an echo with its sequence number is under way is acknowledged by that echo. */
  lemma StaleEcho(s: State, req: Request, dst: Addr, now: Timeval, echo: Packet)
    requires echo in s.net && echo.ToPrimary? && echo.msg.flags == 1 && echo.msg.seqno == s.prim.seqnoCnt
    ensures var r := Exec(s, [SendStep(req, dst, now), Deliver(echo)]);
            && r.sent == s.sent + [Datagram(dst, NewMessage(req, s.prim.seqnoCnt))] && r.secs == s.secs
            && s.prim.seqnoCnt !in r.prim.unAck
  {
    TwoSteps(s, SendStep(req, dst, now), Deliver(echo), now);
  }

  lemma DeliverFirst(s: State, req: Request, dst: Addr, now: Timeval)
    requires dst in s.secs && !Contains(s.secs[dst].dropped, NewMessage(req, s.prim.seqnoCnt)) && Normal(now)
    ensures var m := NewMessage(req, s.prim.seqnoCnt);
            var steps := [SendStep(req, dst, now), Deliver(ToSecondary(dst, m))];
            var r := Exec(s, steps);
            && r.sent == s.sent + [Datagram(dst, m)] && r.prim.seqnoCnt == Increment(s.prim.seqnoCnt)
            && dst in r.secs && r.secs[dst].installed == s.secs[dst].installed + [m]
            && ToPrimary(dst, m.(flags := 1)) in r.net
            && OnTime(s, steps, now) && Latest(steps, now) == now
  {
    var m := NewMessage(req, s.prim.seqnoCnt);
    var arrive := ToSecondary(dst, m);
    SendEffect(s, req, dst, now);
    InOrder(s, SendStep(req, dst, now), Deliver(arrive), now);
    WireMembers([Datagram(dst, m)], arrive);
    AckMembers(dst, [m.(flags := 1)], ToPrimary(dst, m.(flags := 1)));
  }

  /** A send and a delivery at one reading. */
  lemma InOrder(s: State, a: Step, b: Step, now: Timeval)
    requires a.SendStep? && a.sendTime == now && b.Deliver? && Normal(now)
    ensures Exec(s, [a, b]) == Do(Do(s, a), b)
    ensures OnTime(s, [a, b], now) && Latest([a, b], now) == now
  {
    assert [a] == [] + [a] && [a, b] == [a] + [b];
    assert Latest([], now) == now && OnTime(s, [], now) && Exec(s, []) == s;
    LastStep(s, [], a, now);
    LastStep(s, [a], b, now);
    assert [a, b][..1] == [a];
  }

  lemma RestOfCycle(s: State, now: Timeval, n: nat) returns (steps: seq<Step>)
    requires OneEach(s) && |s.sent| == 1 && s.prim.seqnoCnt == 2 && n == SEQNOS - 1 && Normal(now)
    ensures var r := Exec(s, steps);
            && |r.sent| == SEQNOS && OneEach(r) && r.secs == s.secs && r.prim.seqnoCnt == 1
            && (forall p :: p in s.net ==> p in r.net)
            && OnTime(s, steps, now) && Latest(steps, now) == now
  {
    steps := Pings(2, n, now);
    ManyPings(s, n, now);
    PingsOnTime(s, 2, n, now);
    AfterIs(2, n);
  }

  /** One message for each of 65536 ping flows; the echo of the first is still under way. */
  lemma {:induction false} OneCycle(s0: State, now: Timeval) returns (steps: seq<Step>)
    requires s0 == Init(map[0 := 3]) && Normal(now)
    ensures var s, m := Exec(s0, steps), NewMessage(PingFlow(1), 1);
            && |s.sent| == SEQNOS && OneEach(s) && s.prim.seqnoCnt == 1
            && 0 in s.secs && s.secs[0].installed == [m] && ToPrimary(0, m.(flags := 1)) in s.net
            && OnTime(s0, steps, now) && Latest(steps, now) == now
  {
    var req, m := PingFlow(1), NewMessage(PingFlow(1), 1);
    var first := [SendStep(req, 0, now), Deliver(ToSecondary(0, m))];
    DeliverFirst(s0, req, 0, now);
    var s1 := Exec(s0, first);
    OneMorePing(s0, s1, m);
    var many := RestOfCycle(s1, now, SEQNOS - 1);
    ExecConcat(s0, first, many);
    OnTimeConcat(s0, first, many, now);
    steps := first + many;
    assert s0.secs[0].installed + [m] == [m];
  }

  lemma {:induction false} OneTooMany(s0: State, now: Timeval) returns (steps: seq<Step>, d: Datagram)
    requires s0 == Init(map[0 := 3]) && Normal(now)
    ensures var s := Exec(s0, steps);
            && |s.sent| == SEQNOS + 1 && OneEach(s) && OnTime(s0, steps, now)
            && d in s.sent && d.msg.seqno !in s.prim.unAck && !Installed(s, d)
  {
    var cycle := OneCycle(s0, now);
    var s := Exec(s0, cycle);
    var m, last := NewMessage(PingFlow(1), 1), PingFlow(SEQNOS + 1);
    var echo := ToPrimary(0, m.(flags := 1));
    var end := [SendStep(last, 0, now), Deliver(echo)];
    StaleEcho(s, last, 0, now, echo);
    InOrder(s, SendStep(last, 0, now), Deliver(echo), now);
    OneMorePing(s, Exec(s, end), NewMessage(last, 1));
    ExecConcat(s0, cycle, end);
    OnTimeConcat(s0, cycle, end, now);
    steps, d := cycle + end, Datagram(0, NewMessage(last, 1));
    assert d.msg != m;
  }

  /** The bound of 65536 messages is tight: in a run with one more, one message for each of 65537 ping flows from
      different sources, all within one clock reading, the number of the first message is used again, and a delayed
      echo of the first message acknowledges the last, which was never installed. */
  lemma {:induction false} AckUnsoundAfterWrap() returns (steps: seq<Step>, d: Datagram)
    ensures var s := Exec(Init(map[0 := 3]), steps);
            && |s.sent| == SEQNOS + 1 && OneEach(s) && OnTime(Init(map[0 := 3]), steps, ZERO)
            && d in s.sent && d.msg.seqno !in s.prim.unAck && !Installed(s, d)
  {
    steps, d := OneTooMany(Init(map[0 := 3]), ZERO);
  }
}
