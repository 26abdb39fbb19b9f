/** The control-message branch of secondRouter_s4, secondRouter_s5 and secondRouter_s6. */
module SecondaryRouters {
  import opened Bytes
  import opened ControlMessage
  import opened OrderedMaps

  /** flow_action: what m_droppedMsg keeps of a message. */
  datatype FlowAction = FlowAction(fwdPort: u16, action: byte)

  /** counts is m_MsgCount and dropped is m_droppedMsg; installed lists the messages given to flow_table.insert,
      in order. */
  datatype Secondary = Secondary(
    dropAfter: int, counts: Tree<int>, dropped: Tree<FlowAction>, installed: seq<OctaneControl>)

  function Fresh(dropAfter: int): Secondary {
    Secondary(dropAfter, Leaf, Leaf, [])
  }

  /** The count of a message after one more copy. */
  function Bumped(s: Secondary, m: OctaneControl): int {
    if Contains(s.counts, m) then At(s.counts, m) + 1 else 1
  }

  function Receive(s: Secondary, m: OctaneControl): Secondary {
    if Contains(s.dropped, m) then s
    else
      var n := Bumped(s, m);
      var t := s.(counts := Put(s.counts, m, n), installed := s.installed + [m]);
      if n == s.dropAfter
      then t.(counts := Erase(t.counts, m), dropped := Put(s.dropped, m, FlowAction(m.port, m.action)))
      else t
  }

  /** The messages echoed in answer to m: itself with the flags set, unless it is found among the dropped ones. */
  function Echoes(s: Secondary, m: OctaneControl): seq<OctaneControl> {
    if Contains(s.dropped, m) then [] else [m.(flags := 1)]
  }

  /** The map library may give its trees any shape with the same entries. */
  function Reshape(s: Secondary, counts: Tree<int>, dropped: Tree<FlowAction>): Secondary {
    if Entries(counts) == Entries(s.counts) && Entries(dropped) == Entries(s.dropped)
    then s.(counts := counts, dropped := dropped)
    else s
  }

  class SecondaryRouter {
    const dropAfter: int
    var counts: Tree<int>
    var dropped: Tree<FlowAction>
    var installed: seq<OctaneControl>
    var outbox: seq<OctaneControl>  // everything echoed so far

    ghost function S(): Secondary
      reads this
    {
      Secondary(dropAfter, counts, dropped, installed)
    }

    constructor (dropAfter: int)
      ensures S() == Fresh(dropAfter) && outbox == []
    {
      this.dropAfter := dropAfter;
      counts, dropped, installed, outbox := Leaf, Leaf, [], [];
    }

    method ReceiveControl(msg: OctaneControl)
      modifies this
      ensures S() == Receive(old(S()), msg)
      ensures outbox == old(outbox) + Echoes(old(S()), msg)
    {
      if !Contains(dropped, msg) {
        installed := installed + [msg];
        PutIsFound(counts, msg, Bumped(S(), msg));
        if !Contains(counts, msg) {
          counts := Put(counts, msg, 1);
        } else {
          var temp := At(counts, msg);
          counts := Put(counts, msg, temp + 1);
        }
        if At(counts, msg) == dropAfter {
          counts := Erase(counts, msg);
          dropped := Put(dropped, msg, FlowAction(msg.port, msg.action));
        }
        outbox := outbox + [msg.(flags := 1)];
      } else {
        assert outbox == outbox + [];
      }
    }
  }

  // ---------- Any sequence of events ----------

  datatype Event = Received(msg: OctaneControl) | Reshaped(counts: Tree<int>, dropped: Tree<FlowAction>)

  function Handle(s: Secondary, e: Event): Secondary {
    match e
    case Received(m) => Receive(s, m)
    case Reshaped(counts, dropped) => Reshape(s, counts, dropped)
  }

  function HandleAll(s: Secondary, events: seq<Event>): Secondary
    decreases |events|
  {
    if events == [] then s else Handle(HandleAll(s, events[..|events| - 1]), events[|events| - 1])
  }

  /** How many of the messages are in class c. */
  function Copies(ms: seq<OctaneControl>, c: MessageClass): (n: nat)
    ensures n <= |ms|
  {
    if ms == [] then 0
    else Copies(ms[..|ms| - 1], c) + if ClassOf(ms[|ms| - 1]) == c then 1 else 0
  }

  /** How many of the received messages are in class c. */
  function Arrivals(events: seq<Event>, c: MessageClass): nat
    decreases |events|
  {
    if events == [] then 0
    else Arrivals(events[..|events| - 1], c) + if IsOf(events[|events| - 1], c) then 1 else 0
  }

  predicate IsOf(e: Event, c: MessageClass) {
    e.Received? && ClassOf(e.msg) == c
  }

  /** How many echoes event e gives for class c. */
  function Answer(s: Secondary, e: Event, c: MessageClass): nat {
    if IsOf(e, c) then |Echoes(s, e.msg)| else 0
  }

  /** How many of the received messages of class c are echoed. */
  function Answers(s: Secondary, events: seq<Event>, c: MessageClass): nat
    decreases |events|
  {
    if events == [] then 0
    else Answers(s, events[..|events| - 1], c) + Answer(HandleAll(s, events[..|events| - 1]), events[|events| - 1], c)
  }

  ghost predicate From(events: seq<Event>, ms: set<OctaneControl>) {
    forall i :: 0 <= i < |events| && events[i].Received? ==> events[i].msg in ms
  }

  lemma OneMore(ms: seq<OctaneControl>, x: OctaneControl, c: MessageClass)
    ensures Copies(ms + [x], c) == Copies(ms, c) + if ClassOf(x) == c then 1 else 0
  {
    assert (ms + [x])[..|ms|] == ms;
  }

  /** The number of copies a secondary promises to answer. */
  function Answered(dropAfter: int, copies: nat): nat {
    if 1 <= dropAfter <= copies then dropAfter else copies
  }

  // ---------- Orderly messages ----------

  ghost predicate Known(s: Secondary, ms: set<OctaneControl>) {
    Holds(s.counts, ms) && Holds(s.dropped, ms)
  }

  /** What a secondary knows about the class of m when it has received n copies. */
  ghost predicate Counted(s: Secondary, m: OctaneControl, n: nat) {
    && (Contains(s.dropped, m) <==> 1 <= s.dropAfter <= n)
    && (Contains(s.counts, m) <==> n >= 1 && !(1 <= s.dropAfter <= n))
    && (Contains(s.counts, m) ==> At(s.counts, m) == n)
  }

  lemma KnownReceive(s: Secondary, x: OctaneControl, ms: set<OctaneControl>)
    requires Orderly(ms) && Known(s, ms) && x in ms
    ensures Known(Receive(s, x), ms)
  {
    var n := Bumped(s, x);
    PutLaw(s.counts, x, n, x, ms);
    EraseLaw(Put(s.counts, x, n), x, x, ms);
    PutLaw(s.dropped, x, FlowAction(x.port, x.action), x, ms);
  }

  /** A message counts for its own class and for no other. */
  lemma ReceiveStep(s: Secondary, x: OctaneControl, m: OctaneControl, n: nat, ms: set<OctaneControl>)
    requires Orderly(ms) && Known(s, ms) && x in ms && m in ms && Counted(s, m, n)
    ensures Known(Receive(s, x), ms)
    ensures Counted(Receive(s, x), m, if ClassOf(x) == ClassOf(m) then n + 1 else n)
  {
    if !Contains(s.dropped, x) {
      var counts := Put(s.counts, x, Bumped(s, x));
      PutLaw(s.counts, x, Bumped(s, x), m, ms);
      EraseLaw(counts, x, m, ms);
      PutLaw(s.dropped, x, FlowAction(x.port, x.action), m, ms);
    }
    if ClassOf(x) == ClassOf(m) {
      SameClassFinds(s.counts, x, m);
      SameClassFinds(s.dropped, x, m);
    }
  }

  lemma ReshapeKnown(s: Secondary, counts: Tree<int>, dropped: Tree<FlowAction>, ms: set<OctaneControl>)
    requires Known(s, ms)
    ensures Known(Reshape(s, counts, dropped), ms)
  {
  }

  lemma ReshapeStep(s: Secondary, counts: Tree<int>, dropped: Tree<FlowAction>, m: OctaneControl,
                    ms: set<OctaneControl>)
    requires Orderly(ms) && Known(s, ms) && m in ms
    ensures var r := Reshape(s, counts, dropped);
            && Known(r, ms) && r.installed == s.installed
            && (Contains(r.counts, m) <==> Contains(s.counts, m))
            && (Contains(r.dropped, m) <==> Contains(s.dropped, m))
            && (Contains(s.counts, m) ==> At(r.counts, m) == At(s.counts, m))
            && (Contains(s.dropped, m) ==> At(r.dropped, m) == At(s.dropped, m))
  {
    if Entries(counts) == Entries(s.counts) && Entries(dropped) == Entries(s.dropped) {
      ShapeLaw(s.counts, counts, m, ms);
      ShapeLaw(s.dropped, dropped, m, ms);
    }
  }

  /** State s of a secondary that has received n copies of the class of m and answered some of them. */
  ghost predicate Tally(dropAfter: int, s: Secondary, answers: nat, m: OctaneControl, n: nat, ms: set<OctaneControl>) {
    && s.dropAfter == dropAfter && Known(s, ms) && Counted(s, m, n)
    && answers == Answered(dropAfter, n) == Copies(s.installed, ClassOf(m))
  }

  lemma TallyReceived(dropAfter: int, s: Secondary, answers: nat, x: OctaneControl, m: OctaneControl, n: nat,
                      ms: set<OctaneControl>)
    requires Orderly(ms) && m in ms && x in ms && Tally(dropAfter, s, answers, m, n, ms)
    ensures Tally(dropAfter, Receive(s, x), answers + if ClassOf(x) == ClassOf(m) then |Echoes(s, x)| else 0, m,
                  n + if ClassOf(x) == ClassOf(m) then 1 else 0, ms)
  {
    ReceiveStep(s, x, m, n, ms);
    OneMore(s.installed, x, ClassOf(m));
    if ClassOf(x) == ClassOf(m) {
      SameClassFinds(s.dropped, x, m);
    }
  }

  lemma TallyReshaped(dropAfter: int, s: Secondary, answers: nat, counts: Tree<int>, dropped: Tree<FlowAction>,
                      m: OctaneControl, n: nat, ms: set<OctaneControl>)
    requires Orderly(ms) && m in ms && Tally(dropAfter, s, answers, m, n, ms)
    ensures Tally(dropAfter, Reshape(s, counts, dropped), answers, m, n, ms)
  {
    ReshapeStep(s, counts, dropped, m, ms);
  }

  lemma TallyStep(dropAfter: int, s: Secondary, answers: nat, e: Event, m: OctaneControl, n: nat,
                  ms: set<OctaneControl>, s': Secondary, answers': nat, n': nat)
    requires Orderly(ms) && m in ms && (e.Received? ==> e.msg in ms) && Tally(dropAfter, s, answers, m, n, ms)
    requires s' == Handle(s, e) && answers' == answers + Answer(s, e, ClassOf(m))
    requires n' == n + if IsOf(e, ClassOf(m)) then 1 else 0
    ensures Tally(dropAfter, s', answers', m, n', ms)
  {
    match e
    case Received(x) => TallyReceived(dropAfter, s, answers, x, m, n, ms);
    case Reshaped(counts, dropped) => TallyReshaped(dropAfter, s, answers, counts, dropped, m, n, ms);
  }

  /** One more event. */
  lemma LastEvent(s: Secondary, events: seq<Event>, e: Event, c: MessageClass)
    ensures HandleAll(s, events + [e]) == Handle(HandleAll(s, events), e)
    ensures Answers(s, events + [e], c) == Answers(s, events, c) + Answer(HandleAll(s, events), e, c)
    ensures Arrivals(events + [e], c) == Arrivals(events, c) + if IsOf(e, c) then 1 else 0
  {
    assert (events + [e])[..|events|] == events;
  }

  /** The tally of the class of m holds after the events. */
  ghost predicate Tallied(dropAfter: int, events: seq<Event>, m: OctaneControl, ms: set<OctaneControl>) {
    Tally(dropAfter, HandleAll(Fresh(dropAfter), events), Answers(Fresh(dropAfter), events, ClassOf(m)), m,
          Arrivals(events, ClassOf(m)), ms)
  }

  lemma TalliedNext(dropAfter: int, events: seq<Event>, e: Event, m: OctaneControl, ms: set<OctaneControl>)
    requires Orderly(ms) && m in ms && (e.Received? ==> e.msg in ms) && Tallied(dropAfter, events, m, ms)
    ensures Tallied(dropAfter, events + [e], m, ms)
  {
    var start, c, all := Fresh(dropAfter), ClassOf(m), events + [e];
    LastEvent(start, events, e, c);
    TallyStep(dropAfter, HandleAll(start, events), Answers(start, events, c), e, m, Arrivals(events, c), ms,
              HandleAll(start, all), Answers(start, all, c), Arrivals(all, c));
  }

  lemma {:induction false} EventsCount(dropAfter: int, events: seq<Event>, m: OctaneControl, ms: set<OctaneControl>)
    requires Orderly(ms) && m in ms && From(events, ms)
    ensures Tallied(dropAfter, events, m, ms)
    decreases |events|
  {
    if events == [] {
    } else {
      var init, e := events[..|events| - 1], events[|events| - 1];
      EventsCount(dropAfter, init, m, ms);
      TalliedNext(dropAfter, init, e, m, ms);
      assert init + [e] == events;
    }
  }

  /** For any sequence of messages from an orderly set and any shapes of the trees: of each class exactly
      min(copies, dropAfter) are answered and installed; stored counts stay between 1 and dropAfter - 1; and no class is
      both counted and dropped. A dropAfter below 1 never drops, every copy is answered. */
  lemma {:induction false} AnswersPerClass(dropAfter: int, events: seq<Event>, m: OctaneControl, ms: set<OctaneControl>)
    requires Orderly(ms) && m in ms && From(events, ms)
    ensures var s, copies := HandleAll(Fresh(dropAfter), events), Arrivals(events, ClassOf(m));
            && Answers(Fresh(dropAfter), events, ClassOf(m)) == Copies(s.installed, ClassOf(m))
               == (if dropAfter < 1 || copies < dropAfter then copies else dropAfter)
            && (Contains(s.counts, m) ==>
                1 <= At(s.counts, m) == copies && (dropAfter >= 1 ==> At(s.counts, m) <= dropAfter - 1))
            && !(Contains(s.counts, m) && Contains(s.dropped, m))
            && (Contains(s.dropped, m) <==> dropAfter >= 1 && copies >= dropAfter)
  {
    EventsCount(dropAfter, events, m, ms);
  }

  /** A message that gets its class dropped leaves its own action and target port there, and is still answered: with
      itself, flags set to 1. */
  lemma DroppedWithItsAction(s: Secondary, m: OctaneControl)
    requires !Contains(s.dropped, m) && Contains(Receive(s, m).dropped, m)
    ensures var r := Receive(s, m);
            && At(r.dropped, m).action == m.action && At(r.dropped, m).fwdPort == m.port
            && r.installed == s.installed + [m]
    ensures |Echoes(s, m)| == 1 && Echoes(s, m)[0].flags == 1 && Echoes(s, m)[0].(flags := m.flags) == m
  {
    PutIsFound(s.dropped, m, FlowAction(m.port, m.action));
  }

  /** A dropped class stays dropped, with the action it was dropped with, whatever arrives later. */
  lemma {:induction false} DroppedForever(s: Secondary, events: seq<Event>, m: OctaneControl, ms: set<OctaneControl>)
    requires Orderly(ms) && Known(s, ms) && m in ms && From(events, ms) && Contains(s.dropped, m)
    ensures var r := HandleAll(s, events);
            Known(r, ms) && Contains(r.dropped, m) && At(r.dropped, m) == At(s.dropped, m)
    ensures Answers(s, events, ClassOf(m)) == 0
    decreases |events|
  {
    if events != [] {
      var init, e := events[..|events| - 1], events[|events| - 1];
      DroppedForever(s, init, m, ms);
      DropStep(HandleAll(s, init), e, m, ms);
    }
  }

  lemma DropStep(s: Secondary, e: Event, m: OctaneControl, ms: set<OctaneControl>)
    requires Orderly(ms) && Known(s, ms) && m in ms && (e.Received? ==> e.msg in ms) && Contains(s.dropped, m)
    ensures Known(Handle(s, e), ms)
    ensures Contains(Handle(s, e).dropped, m) && At(Handle(s, e).dropped, m) == At(s.dropped, m)
    ensures Answer(s, e, ClassOf(m)) == 0
  {
    match e
    case Received(x) =>
      if ClassOf(x) == ClassOf(m) {
        SameClassFinds(s.dropped, x, m);
      } else if !Contains(s.dropped, x) {
        PutLaw(s.counts, x, Bumped(s, x), m, ms);
        EraseLaw(Put(s.counts, x, Bumped(s, x)), x, m, ms);
        PutLaw(s.dropped, x, FlowAction(x.port, x.action), m, ms);
      }
    case Reshaped(counts, dropped) =>
      ReshapeStep(s, counts, dropped, m, ms);
  }

  // ---------- Messages that are not orderly ----------

  /** The promise: of m's class min(copies, dropAfter) are answered. */
  ghost predicate AnswersAsPromised(dropAfter: int, events: seq<Event>, m: OctaneControl) {
    Answers(Fresh(dropAfter), events, ClassOf(m)) == Answered(dropAfter, Arrivals(events, ClassOf(m)))
  }

  /** What is known of a secondary that drops every class at once, after some events. */
  ghost predicate Reaches(events: seq<Event>, dropped: Tree<FlowAction>, a: OctaneControl, answers: nat) {
    && HandleAll(Fresh(1), events).(installed := []) == Secondary(1, Leaf, dropped, [])
    && Answers(Fresh(1), events, ClassOf(a)) == Arrivals(events, ClassOf(a)) == answers
  }

  lemma DropsAtOnce(events: seq<Event>, dropped: Tree<FlowAction>, a: OctaneControl, answers: nat, x: OctaneControl)
    requires Reaches(events, dropped, a, answers) && !Contains(dropped, x)
    ensures Reaches(events + [Received(x)], Attach(dropped, x, FlowAction(x.port, x.action)), a,
                    answers + if ClassOf(x) == ClassOf(a) then 1 else 0)
  {
    var s := HandleAll(Fresh(1), events);
    assert LowerBound<int>(Leaf, x).Leaf?;
    assert Put(s.counts, x, 1) == Node(Leaf, x, 1, Leaf);
    assert Erase(Put(s.counts, x, 1), x) == Leaf;
    LastEvent(Fresh(1), events, Received(x), ClassOf(a));
  }

  lemma TurnsTo(events: seq<Event>, dropped: Tree<FlowAction>, a: OctaneControl, answers: nat, turned: Tree<FlowAction>)
    requires Reaches(events, dropped, a, answers) && Entries(turned) == Entries(dropped)
    ensures Reaches(events + [Reshaped(Leaf, turned)], turned, a, answers)
  {
    LastEvent(Fresh(1), events, Reshaped(Leaf, turned), ClassOf(a));
  }

  /** A copy whose search misses its dropped class is answered once too often. */
  lemma MissedCopy(events: seq<Event>, dropped: Tree<FlowAction>, a: OctaneControl)
    requires Reaches(events, dropped, a, 1) && !Contains(dropped, a)
    ensures !AnswersAsPromised(1, events + [Received(a)], a)
  {
    DropsAtOnce(events, dropped, a, 1, a);
  }

  function Single(x: OctaneControl): Tree<FlowAction> {
    Parent(Leaf, x, Leaf)
  }

  function Parent(left: Tree<FlowAction>, x: OctaneControl, right: Tree<FlowAction>): Tree<FlowAction> {
    Node(left, x, FlowAction(x.port, x.action), right)
  }

  lemma ParentEntries(left: Tree<FlowAction>, x: OctaneControl, right: Tree<FlowAction>)
    ensures Entries(Parent(left, x, right)) == Entries(left) + [(x, FlowAction(x.port, x.action))] + Entries(right)
    ensures Entries<FlowAction>(Leaf) == []
  {
  }

  /** A search or an insertion that passes x goes on to its right. */
  lemma GoesRight(left: Tree<FlowAction>, x: OctaneControl, right: Tree<FlowAction>, k: OctaneControl)
    requires Less(x, k)
    ensures LowerBound(Parent(left, x, right), k) == LowerBound(right, k)
    ensures Attach(Parent(left, x, right), k, FlowAction(k.port, k.action)) ==
            Parent(left, x, Attach(right, k, FlowAction(k.port, k.action)))
  {
  }

  lemma EndsAtLeaf(k: OctaneControl)
    ensures LowerBound<FlowAction>(Leaf, k) == Leaf
    ensures Attach(Leaf, k, FlowAction(k.port, k.action)) == Single(k)
  {
  }

  lemma FirstDrop(a: OctaneControl)
    ensures Reaches([Received(a)], Single(a), a, 1)
  {
    assert Reaches([], Leaf, a, 0);
    EndsAtLeaf(a);
    DropsAtOnce([], Leaf, a, 0, a);
    assert [] + [Received(a)] == [Received(a)];
  }

  lemma TwoNodes(a: OctaneControl, b: OctaneControl)
    requires Less(a, b)
    ensures !Contains(Single(a), b)
    ensures Attach(Single(a), b, FlowAction(b.port, b.action)) == Parent(Leaf, a, Single(b))
  {
    GoesRight(Leaf, a, Leaf, b);
    EndsAtLeaf(b);
  }

  /** Two messages in order, of different classes. */
  lemma SecondDrop(a: OctaneControl, b: OctaneControl)
    requires Less(a, b)
    ensures Reaches([Received(a), Received(b)], Parent(Leaf, a, Single(b)), a, 1)
  {
    EquivalentIffSameClass(a, b);
    FirstDrop(a);
    TwoNodes(a, b);
    DropsAtOnce([Received(a)], Single(a), a, 1, b);
    assert [Received(a)] + [Received(b)] == [Received(a), Received(b)];
  }

  lemma Turned(a: OctaneControl, b: OctaneControl)
    requires Less(b, a)
    ensures Entries(Parent(Single(a), b, Leaf)) == Entries(Parent(Leaf, a, Single(b)))
    ensures !Contains(Parent(Single(a), b, Leaf), a)
  {
    ParentEntries(Leaf, a, Leaf);
    ParentEntries(Leaf, b, Leaf);
    ParentEntries(Leaf, a, Single(b));
    ParentEntries(Single(a), b, Leaf);
    GoesRight(Single(a), b, Leaf, a);
    EndsAtLeaf(a);
  }

  /** If each of two messages is less than the other, a copy of the first can be answered although its class is
      dropped: in a tree with the second at its root the search for the first goes the wrong way. */
  lemma {:induction false} LosesTrack(a: OctaneControl, b: OctaneControl) returns (events: seq<Event>)
    requires Less(a, b) && Less(b, a)
    ensures From(events, {a, b}) && !AnswersAsPromised(1, events, a)
  {
    var e2, turned := [Received(a), Received(b)], Parent(Single(a), b, Leaf);
    SecondDrop(a, b);
    Turned(a, b);
    TurnsTo(e2, Parent(Leaf, a, Single(b)), a, 1, turned);
    MissedCopy(e2 + [Reshaped(Leaf, turned)], turned, a);
    events := e2 + [Reshaped(Leaf, turned)] + [Received(a)];
  }

  lemma ThreeNodes(a: OctaneControl, b: OctaneControl, c: OctaneControl)
    requires Less(a, c) && Less(b, c)
    ensures !Contains(Parent(Leaf, a, Single(b)), c)
    ensures Attach(Parent(Leaf, a, Single(b)), c, FlowAction(c.port, c.action)) ==
            Parent(Leaf, a, Parent(Leaf, b, Single(c)))
  {
    GoesRight(Leaf, a, Single(b), c);
    TwoNodes(b, c);
  }

  lemma ThirdDrop(a: OctaneControl, b: OctaneControl, c: OctaneControl)
    requires Less(a, b) && Less(a, c) && Less(b, c)
    ensures Reaches([Received(a), Received(b), Received(c)], Parent(Leaf, a, Parent(Leaf, b, Single(c))), a, 1)
  {
    EquivalentIffSameClass(a, c);
    SecondDrop(a, b);
    ThreeNodes(a, b, c);
    DropsAtOnce([Received(a), Received(b)], Parent(Leaf, a, Single(b)), a, 1, c);
    assert [Received(a), Received(b)] + [Received(c)] == [Received(a), Received(b), Received(c)];
  }

  lemma ThreeTurned(a: OctaneControl, b: OctaneControl, c: OctaneControl)
    requires Less(b, a) && Less(c, a)
    ensures Entries(Parent(Single(a), b, Single(c))) == Entries(Parent(Leaf, a, Parent(Leaf, b, Single(c))))
    ensures !Contains(Parent(Single(a), b, Single(c)), a)
  {
    ParentEntries(Leaf, a, Leaf);
    ParentEntries(Leaf, b, Single(c));
    ParentEntries(Leaf, a, Parent(Leaf, b, Single(c)));
    ParentEntries(Single(a), b, Single(c));
    GoesRight(Single(a), b, Single(c), a);
    TwoNodes(c, a);
  }

  /** Three keys inserted in order put the second at the root of a red-black tree. If the first is also greater than the
      two others, the search for it, to the right, misses it. */
  lemma {:induction false} BalancingLosesTrack(a: OctaneControl, b: OctaneControl, c: OctaneControl)
    requires Less(a, b) && Less(a, c) && Less(b, c) && Less(b, a) && Less(c, a)
    ensures var turned := Reshaped(Leaf, Parent(Single(a), b, Single(c)));
            !AnswersAsPromised(1, [Received(a), Received(b), Received(c), turned, Received(a)], a)
  {
    var e3, turned := [Received(a), Received(b), Received(c)], Parent(Single(a), b, Single(c));
    ThirdDrop(a, b, c);
    ThreeTurned(a, b, c);
    TurnsTo(e3, Parent(Leaf, a, Parent(Leaf, b, Single(c))), a, 1, turned);
    MissedCopy(e3 + [Reshaped(Leaf, turned)], turned, a);
    assert e3 + [Reshaped(Leaf, turned)] + [Received(a)]
        == [Received(a), Received(b), Received(c), Reshaped(Leaf, turned), Received(a)];
  }

  /** What mixed ICMP and TCP traffic of one source does: after two TCP flows to port 80 (0x5000 as loaded) the
      dropped classes are in the shape that red-black insertion gives them, with the first TCP flow at the root; the
      ICMP flow to its left is searched for on the right, and the next copy of it is answered. */
  lemma {:induction false} MixedTrafficLosesTrack()
    ensures var icmp := OctaneControl(1, 0, 1, 10, 20, ANY_PORT, ANY_PORT, 1, 0);
            var tcp1 := OctaneControl(1, 0, 2, 10, 30, 5000, 0x5000, 6, 0);
            var tcp2 := OctaneControl(1, 0, 3, 10, 30, 5001, 0x5000, 6, 0);
            var turned := Reshaped(Leaf, Parent(Single(icmp), tcp1, Single(tcp2)));
            !AnswersAsPromised(1, [Received(icmp), Received(tcp1), Received(tcp2), turned, Received(icmp)], icmp)
  {
    BalancingLosesTrack(
      OctaneControl(1, 0, 1, 10, 20, ANY_PORT, ANY_PORT, 1, 0),
      OctaneControl(1, 0, 2, 10, 30, 5000, 0x5000, 6, 0),
      OctaneControl(1, 0, 3, 10, 30, 5001, 0x5000, 6, 0));
  }

  /** A secondary keeps its promise for all messages from ms, in any number and order and however its trees are
      balanced, exactly when no two of them are each less than the other. The shape of two keys used for the failing
      direction is one that red-black insertion does not give; BalancingLosesTrack fails in a shape that it does
      give. */
  lemma {:induction false} AnswersAsPromisedIff(ms: set<OctaneControl>)
    ensures Orderly(ms) <==>
            forall dropAfter, events, m :: m in ms && From(events, ms) ==> AnswersAsPromised(dropAfter, events, m)
  {
    if Orderly(ms) {
      forall dropAfter, events, m | m in ms && From(events, ms) ensures AnswersAsPromised(dropAfter, events, m) {
        EventsCount(dropAfter, events, m, ms);
      }
    } else {
      var a, b :| a in ms && b in ms && Less(a, b) && Less(b, a);
      var events := LosesTrack(a, b);
    }
  }

  /** Every answer is for an installed message, whatever the comparison does. */
  lemma ReceiveInstalls(s: Secondary, m: OctaneControl)
    ensures forall r :: r in Receive(s, m).installed ==> r == m || r in s.installed
    ensures forall r :: r in s.installed ==> r in Receive(s, m).installed
    ensures Echoes(s, m) != [] ==> m in Receive(s, m).installed
    ensures Receive(s, m).dropAfter == s.dropAfter
  {
  }
}
