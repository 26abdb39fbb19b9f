/** Timers of timers/timers.cc: the handle layer over the event queue. */
module TimerLibrary {
  import opened Timevals
  import opened EventQueues

  /** A queued timer, as the application sees it. */
  datatype Timer<C> = Timer(hdl: int, timeout: int, cb: C, expiry: Timeval)

  /** Results of a callback's Expire other than a new positive timeout. */
  const DISCARD := -1
  const RESCHEDULE_SAME := 0

  // ---------- The queue as a sequence ----------

  ghost function Expiries<C>(q: seq<Timer<C>>): (ts: seq<Timeval>)
    ensures |ts| == |q|
  {
    seq(|q|, i requires 0 <= i < |q| => q[i].expiry)
  }

  ghost function Insert<C>(q: seq<Timer<C>>, t: Timer<C>): (r: seq<Timer<C>>)
    ensures |r| == |q| + 1
  {
    InsertAt(q, Rank(Expiries(q), t.expiry), t)
  }

  ghost function RemoveHandle<C>(q: seq<Timer<C>>, hdl: int): seq<Timer<C>> {
    if q == [] then []
    else if q[0].hdl == hdl then q[1..]
    else [q[0]] + RemoveHandle(q[1..], hdl)
  }

  ghost predicate HasHandle<C>(q: seq<Timer<C>>, hdl: int) {
    exists i :: 0 <= i < |q| && q[i].hdl == hdl
  }

  lemma {:induction false} RemoveHandleAt<C>(q: seq<Timer<C>>, hdl: int, k: nat)
    requires k < |q| && q[k].hdl == hdl && forall i :: 0 <= i < k ==> q[i].hdl != hdl
    ensures RemoveHandle(q, hdl) == RemoveAt(q, k)
  {
    if k > 0 {
      RemoveHandleAt(q[1..], hdl, k - 1);
      assert RemoveAt(q, k) == [q[0]] + RemoveAt(q[1..], k - 1);
    }
  }

  lemma {:induction false} RemoveMissingHandle<C>(q: seq<Timer<C>>, hdl: int)
    requires !HasHandle(q, hdl)
    ensures RemoveHandle(q, hdl) == q
  {
    if q != [] {
      assert q[0].hdl != hdl;
      assert forall i :: 0 <= i < |q[1..]| ==> q[1..][i] == q[i + 1];
      RemoveMissingHandle(q[1..], hdl);
    }
  }

  // ---------- The classes ----------

  class TimerEntry<C> {
    const hdl: int
    const cb: C
    var timeout: int

    constructor (hdl: int, timeout: int, cb: C)
      ensures this.hdl == hdl && this.timeout == timeout && this.cb == cb
    {
      this.hdl, this.timeout, this.cb := hdl, timeout, cb;
    }
  }

  class Timers<C> {
    var nextHandle: int
    const queue: EventQueue<TimerEntry<C>>
    ghost var Repr: set<object>

    ghost predicate Owned()
      reads this, Repr
    {
      this in Repr && queue in Repr && forall e :: e in queue.nodes ==> e in Repr && e.payload in Repr
    }

    ghost predicate Valid()
      reads this, Repr
    {
      Owned() && queue.Valid() && 1 <= nextHandle && EntriesOk(queue.nodes, nextHandle)
    }

    /** Handles are unique and below the next one. */
    static ghost predicate EntriesOk(es: seq<Event<TimerEntry<C>>>, next: int)
      reads set e | e in es :: e.payload
    {
      && (forall i :: 0 <= i < |es| ==> EntryOk(es[i], next))
      && forall i, j :: 0 <= i < j < |es| ==> es[i].payload.hdl != es[j].payload.hdl
    }

    static ghost predicate EntryOk(e: Event<TimerEntry<C>>, next: int)
      reads e.payload
    {
      e.kind == 1 && 1 <= e.payload.hdl < next && 0 <= e.payload.timeout
    }

    /** The queued timers in order of expiry. */
    ghost function Live(): (q: seq<Timer<C>>)
      requires Owned()
      reads this, Repr
      ensures |q| == |queue.nodes|
    {
      LiveOf(queue.nodes)
    }

    lemma LiveSorted()
      requires Valid()
      ensures Sorted(Expiries(Live()))
      ensures forall i :: 0 <= i < |Live()| ==> Loose(Live()[i].expiry)
    {
      assert Expiries(Live()) == queue.Times();
    }

    static ghost function LiveOf(es: seq<Event<TimerEntry<C>>>): (q: seq<Timer<C>>)
      reads es, set e | e in es :: e.payload
      ensures |q| == |es|
    {
      seq(|es|, i requires 0 <= i < |es| reads es, set e | e in es :: e.payload => View(es[i]))
    }

    static ghost function View(e: Event<TimerEntry<C>>): Timer<C>
      reads e, e.payload
    {
      Timer(e.payload.hdl, e.payload.timeout, e.payload.cb, e.tv)
    }

    constructor ()
      ensures Valid() && fresh(Repr) && Live() == [] && nextHandle == 1
    {
      nextHandle := 1;
      var q := new EventQueue();
      queue := q;
      Repr := {this, q};
    }

    /** A new timer gets the next handle and is queued at its expiry. */
    method AddTimer(timeout: nat, cb: C, now: Timeval) returns (hdl: int)
      requires Valid() && Normal(now)
      modifies Repr
      ensures Valid() && fresh(Repr - old(Repr))
      ensures hdl == old(nextHandle) && nextHandle == hdl + 1
      ensures Live() == Insert(old(Live()), Timer(hdl, timeout, cb, Later(now, timeout)))
    {
      var entry := new TimerEntry(nextHandle, timeout, cb);
      nextHandle := nextHandle + 1;
      Enqueue(entry, now);
      hdl := entry.hdl;
    }

    method Enqueue(entry: TimerEntry<C>, now: Timeval)
      requires Valid() && Normal(now)
      requires 1 <= entry.hdl < nextHandle && 0 <= entry.timeout
      requires forall e :: e in queue.nodes ==> e.payload.hdl != entry.hdl
      modifies this`Repr, queue, queue.nodes
      ensures Valid() && fresh(Repr - old(Repr) - {entry})
      ensures Live() == Insert(old(Live()), Timer(entry.hdl, entry.timeout, entry.cb, Later(now, entry.timeout)))
    {
      ghost var es, live := queue.nodes, Live();
      var e := queue.AddAfter(1, entry, entry.timeout, now);
      Repr := Repr + {e, entry};
      ghost var k := Rank(Expiries(live), Later(now, entry.timeout));
      assert LiveOf(es) == live;
      assert Expiries(live) == old(queue.Times());
      InsertedEntry(es, k, e, nextHandle);
    }

    static lemma InsertedEntry(es: seq<Event<TimerEntry<C>>>, k: nat, e: Event<TimerEntry<C>>, next: int)
      requires k <= |es| && EntriesOk(es, next) && EntryOk(e, next)
      requires forall i :: 0 <= i < |es| ==> es[i].payload.hdl != e.payload.hdl
      ensures EntriesOk(InsertAt(es, k, e), next)
      ensures LiveOf(InsertAt(es, k, e)) == InsertAt(LiveOf(es), k, View(e))
      ensures forall n :: n in InsertAt(es, k, e) ==> n == e || n in es
    {
    }

    static lemma RemovedEntry(es: seq<Event<TimerEntry<C>>>, k: nat, next: int)
      requires k < |es| && EntriesOk(es, next)
      ensures EntriesOk(RemoveAt(es, k), next)
      ensures LiveOf(RemoveAt(es, k)) == RemoveHandle(LiveOf(es), es[k].payload.hdl)
      ensures forall n :: n in RemoveAt(es, k) ==> n in es && n.payload.hdl != es[k].payload.hdl
    {
      var live := LiveOf(es);
      RemovedAt(es, k);
      RemovedAt(live, k);
      assert LiveOf(RemoveAt(es, k)) == RemoveAt(live, k);
      forall i | 0 <= i < k ensures live[i].hdl != live[k].hdl {
        assert es[i].payload.hdl != es[k].payload.hdl;
      }
      RemoveHandleAt(live, es[k].payload.hdl, k);
    }

    /** True iff the handle is live; exactly that timer is taken out, the others keep their order and expiry.
        The exit(1) branch is unreachable. */
    method RemoveTimer(hdl: int) returns (found: bool)
      requires Valid()
      modifies Repr
      ensures Valid() && Repr == old(Repr) && nextHandle == old(nextHandle)
      ensures found <==> HasHandle(old(Live()), hdl)
      ensures Live() == RemoveHandle(old(Live()), hdl)
    {
      var e := FindHandle(hdl);
      found := e != null;
      if e != null {
        Unqueue(e);
      } else {
        RemoveMissingHandle(Live(), hdl);
      }
    }

    method FindHandle(hdl: int) returns (e: Event?<TimerEntry<C>>)
      requires Valid()
      ensures e != null ==> e in queue.nodes && e.payload.hdl == hdl
      ensures e != null <==> HasHandle(Live(), hdl)
    {
      e := queue.FindEvent(1);
      while e != null
        invariant e != null ==> e in queue.nodes
        invariant forall i :: 0 <= i < queue.Position(e) ==> queue.nodes[i].payload.hdl != hdl
        decreases |queue.nodes| - queue.Position(e)
      {
        if e.payload.hdl == hdl {
          assert Live()[queue.Position(e)].hdl == hdl;
          return;
        }
        queue.NextPosition(e);
        e := queue.FindNextEvent(1, e.next);
      }
      forall i | 0 <= i < |Live()| ensures Live()[i].hdl != hdl {
        assert queue.nodes[i].payload.hdl != hdl;
      }
    }

    method Unqueue(e: Event<TimerEntry<C>>)
      requires Valid() && e in queue.nodes
      modifies queue, queue.nodes
      ensures Valid()
      ensures Live() == RemoveHandle(old(Live()), e.payload.hdl)
    {
      ghost var es, live, k := queue.nodes, Live(), queue.Position(e);
      var r := queue.Remove(e);
      if r != 0 {
        assert false;  // "Can't remove event from queue", exit(1)
      }
      assert LiveOf(es) == live;
      RemovedEntry(es, k, nextHandle);
    }

    /** Pops the head, runs its callback and queues it again unless the callback discards it. now is the clock
        reading after the callback; expire gives what the callback returns. The source exits the program on a
        result below DISCARD. */
    method ExecuteNextTimer(expire: C -> int, now: Timeval) returns (fired: C)
      requires Valid() && Live() != [] && Normal(now)
      requires expire(Live()[0].cb) >= DISCARD
      modifies Repr
      ensures Valid() && fresh(Repr - old(Repr)) && nextHandle == old(nextHandle)
      ensures fired == old(Live())[0].cb
      ensures var t, result := old(Live())[0], expire(fired);
              var timeout := if result > 0 then result else t.timeout;
              Live() == if result == DISCARD then old(Live())[1..]
                        else Insert(old(Live())[1..], Timer(t.hdl, timeout, t.cb, Later(now, timeout)))
    {
      ghost var live := Live();
      var e := PopHead();
      var entry := e.payload;
      fired := entry.cb;
      var newTimeout := expire(fired);
      if newTimeout == DISCARD {
      } else {
        if newTimeout > 0 {
          SetTimeout(entry, newTimeout);
        }
        Enqueue(entry, now);
      }
    }

    /** entry is not queued, so its timeout concerns no live timer. */
    method SetTimeout(entry: TimerEntry<C>, timeout: int)
      requires Valid() && forall e :: e in queue.nodes ==> e.payload.hdl != entry.hdl
      modifies entry
      ensures Valid() && entry.timeout == timeout && Live() == old(Live())
    {
      ghost var live := Live();
      entry.timeout := timeout;
      forall e | e in queue.nodes ensures e.payload != entry {
      }
      assert EntriesOk(queue.nodes, nextHandle);
      assert LiveOf(queue.nodes) == live;
    }

    method PopHead() returns (e: Event<TimerEntry<C>>)
      requires Valid() && Live() != []
      modifies queue, queue.nodes
      ensures Valid()
      ensures forall n :: n in queue.nodes ==> n.payload.hdl != e.payload.hdl
      ensures Live() == old(Live())[1..] && View(e) == old(Live())[0]
      ensures EntryOk(e, nextHandle) && e.payload in Repr
    {
      ghost var es, live := queue.nodes, Live();
      HeadEntry(es, nextHandle);
      e := queue.Pop();
      assert LiveOf(es) == live;
      HeadEntry(es, nextHandle);
    }

    static lemma HeadEntry(es: seq<Event<TimerEntry<C>>>, next: int)
      requires es != [] && EntriesOk(es, next)
      ensures EntryOk(es[0], next) && View(es[0]) == LiveOf(es)[0] && es[0] in es
      ensures EntriesOk(es[1..], next) && LiveOf(es[1..]) == LiveOf(es)[1..]
      ensures forall n :: n in es[1..] ==> n in es && n.payload.hdl != es[0].payload.hdl
    {
    }

    /** The time left to the first expiry; {0, 0} exactly when some timer is due. */
    method NextTimerTime(now: Timeval) returns (tv: Timeval)
      requires Valid() && Normal(now)
      ensures tv == ZERO <==> exists i :: 0 <= i < |Live()| && Cmp(Live()[i].expiry, now) <= 0
      ensures tv == ZERO <==> Live() != [] && Cmp(Live()[0].expiry, now) <= 0
      ensures Live() == [] ==> tv == Timeval(MAXVALUE, 0)
      ensures Live() != [] ==> tv == Minus(Live()[0].expiry, now)
    {
      tv := queue.NextTimer(now);
      forall i | 0 <= i < |Live()| && Cmp(Live()[i].expiry, now) <= 0 ensures queue.TopInPast(now) {
        queue.NothingDueBehind(now, i);
      }
    }
  }
}
