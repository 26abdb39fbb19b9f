/** EventQueue of timers/timers.cc: a singly linked list of events kept sorted by expiration time. */
module EventQueues {
  import opened Timevals

  // ---------- Where an event goes ----------

  ghost predicate Sorted(ts: seq<Timeval>) {
    forall i, j :: 0 <= i < j < |ts| ==> Cmp(ts[i], ts[j]) <= 0
  }

  /** How many of the times come strictly before t at the front of ts. */
  ghost function Rank(ts: seq<Timeval>, t: Timeval): (k: nat)
    ensures k <= |ts|
  {
    if ts == [] || Cmp(t, ts[0]) <= 0 then 0 else 1 + Rank(ts[1..], t)
  }

  function InsertAt<T>(s: seq<T>, k: nat, x: T): (r: seq<T>)
    requires k <= |s|
    ensures |r| == |s| + 1
  {
    s[..k] + [x] + s[k..]
  }

  lemma InsertedAt<T>(s: seq<T>, k: nat, x: T)
    requires k <= |s|
    ensures InsertAt(s, k, x)[k] == x
    ensures forall i :: 0 <= i < k ==> InsertAt(s, k, x)[i] == s[i]
    ensures forall i :: k < i <= |s| ==> InsertAt(s, k, x)[i] == s[i - 1]
    ensures forall i :: k <= i < |s| ==> InsertAt(s, k, x)[i + 1] == s[i]
  {
  }

  function RemoveAt<T>(s: seq<T>, k: nat): (r: seq<T>)
    requires k < |s|
    ensures |r| == |s| - 1
  {
    s[..k] + s[k + 1..]
  }

  lemma RemovedAt<T>(s: seq<T>, k: nat)
    requires k < |s|
    ensures forall i :: 0 <= i < k ==> RemoveAt(s, k)[i] == s[i]
    ensures forall i :: k <= i < |s| - 1 ==> RemoveAt(s, k)[i] == s[i + 1]
  {
  }

  lemma HeadRemoved<T>(s: seq<T>)
    requires s != [] && forall i, j :: 0 <= i < j < |s| ==> s[i] != s[j]
    ensures RemoveAt(s, 0) == s[1..] && s[0] !in s[1..]
  {
  }

  /** In a sorted queue the rank separates the strictly earlier times from the others: a new event is placed
      before all events of the same time. */
  lemma {:induction false} RankSeparates(ts: seq<Timeval>, t: Timeval)
    requires Sorted(ts)
    ensures forall i :: 0 <= i < Rank(ts, t) ==> Cmp(ts[i], t) < 0
    ensures forall i :: Rank(ts, t) <= i < |ts| ==> Cmp(t, ts[i]) <= 0
  {
    if ts != [] {
      if Cmp(t, ts[0]) <= 0 {
        forall i | 0 <= i < |ts| ensures Cmp(t, ts[i]) <= 0 {
          CmpTransitive(t, ts[0], ts[i]);
        }
      } else {
        RankSeparates(ts[1..], t);
        forall i | 0 <= i < Rank(ts, t) ensures Cmp(ts[i], t) < 0 {
          assert i > 0 ==> ts[i] == ts[1..][i - 1];
        }
        forall i | Rank(ts, t) <= i < |ts| ensures Cmp(t, ts[i]) <= 0 {
          assert ts[i] == ts[1..][i - 1];
        }
      }
    }
  }

  /** Any position that separates the times so is the rank. */
  lemma {:induction false} RankIs(ts: seq<Timeval>, t: Timeval, k: nat)
    requires k <= |ts|
    requires forall i :: 0 <= i < k ==> Cmp(t, ts[i]) > 0
    requires k < |ts| ==> Cmp(t, ts[k]) <= 0
    ensures Rank(ts, t) == k
  {
    if k > 0 {
      RankIs(ts[1..], t, k - 1);
    }
  }

  lemma InsertKeepsSorted(ts: seq<Timeval>, t: Timeval)
    requires Sorted(ts)
    ensures Sorted(InsertAt(ts, Rank(ts, t), t))
  {
    RankSeparates(ts, t);
    var k := Rank(ts, t);
    var r := InsertAt(ts, k, t);
    forall i, j | 0 <= i < j < |r| ensures Cmp(r[i], r[j]) <= 0 {
      var i', j' := if i > k then i - 1 else i, if j > k then j - 1 else j;
      assert i == k || r[i] == ts[i'];
      assert j == k || r[j] == ts[j'];
    }
  }

  // ---------- The list ----------

  class Event<T> {
    var tv: Timeval
    const kind: int
    const payload: T
    var next: Event?<T>

    constructor (tv: Timeval, kind: int, payload: T)
      ensures this.tv == tv && this.kind == kind && this.payload == payload && next == null
    {
      this.tv, this.kind, this.payload, next := tv, kind, payload, null;
    }
  }

  class EventQueue<T> {
    var head: Event?<T>
    ghost var nodes: seq<Event<T>>  // the events from head along next

    /** The list is acyclic, ends in null, and is sorted. */
    ghost predicate Valid()
      reads this, nodes
    {
      && Linked()
      && Sorted(Times())
      && forall i :: 0 <= i < |nodes| ==> Loose(nodes[i].tv)
    }

    ghost predicate Linked()
      reads this, nodes
    {
      && (forall i, j :: 0 <= i < j < |nodes| ==> nodes[i] != nodes[j])
      && head == (if nodes == [] then null else nodes[0])
      && forall i {:trigger nodes[i].next} :: 0 <= i < |nodes| ==>
          nodes[i].next == if i + 1 < |nodes| then nodes[i + 1] else null
    }

    ghost function Times(): (ts: seq<Timeval>)
      reads this, nodes
      ensures |ts| == |nodes|
    {
      TimesOf(nodes)
    }

    static ghost function TimesOf(es: seq<Event<T>>): (ts: seq<Timeval>)
      reads es
      ensures |ts| == |es|
    {
      seq(|es|, i requires 0 <= i < |es| reads es => es[i].tv)
    }

    constructor ()
      ensures Valid() && nodes == []
    {
      head, nodes := null, [];
    }

    /** Insertion refines insertion into the sorted sequence at the rank of the new event. */
    method Add(n: Event<T>)
      requires Valid() && n !in nodes && Loose(n.tv)
      modifies this, n, nodes
      ensures Valid()
      ensures nodes == InsertAt(old(nodes), Rank(old(Times()), old(n.tv)), n)
      ensures n.tv == old(n.tv) && forall e :: e in old(nodes) ==> e.tv == old(e.tv)
    {
      var ptr := head;
      var last := ptr;
      ghost var k := 0;
      while ptr != null && Cmp(n.tv, ptr.tv) > 0
        invariant 0 <= k <= |nodes|
        invariant ptr == if k < |nodes| then nodes[k] else null
        invariant if k == 0 then last == ptr else last == nodes[k - 1]
        invariant forall i :: 0 <= i < k ==> Cmp(n.tv, nodes[i].tv) > 0
        decreases |nodes| - k
      {
        last := ptr;
        ptr := ptr.next;
        k := k + 1;
      }
      RankIs(Times(), n.tv, k);
      LinkAt(last, ptr, n, k);
    }

    method LinkAt(last: Event?<T>, ptr: Event?<T>, n: Event<T>, ghost k: nat)
      requires Valid() && n !in nodes && Loose(n.tv) && k <= |nodes|
      requires ptr == if k < |nodes| then nodes[k] else null
      requires if k == 0 then last == ptr else last == nodes[k - 1]
      requires k == Rank(Times(), n.tv)
      modifies this, n, nodes
      ensures Valid() && nodes == InsertAt(old(nodes), k, n)
      ensures n.tv == old(n.tv) && forall e :: e in old(nodes) ==> e.tv == old(e.tv)
    {
      ghost var ts := Times();
      if last == ptr {
        assert k == 0;
        n.next := head;
        head := n;
      } else {
        n.next := ptr;
        last.next := n;
      }
      ghost var es := nodes;
      nodes := InsertAt(es, k, n);
      assert TimesOf(es) == ts;
      Inserted(es, k, n);
    }

    /** es with n linked in at k is linked, sorted and loose. */
    static lemma Inserted(es: seq<Event<T>>, k: nat, n: Event<T>)
      requires k <= |es| && n !in es
      requires forall i, j :: 0 <= i < j < |es| ==> es[i] != es[j]
      requires forall i {:trigger es[i].next} :: 0 <= i < |es| ==>
                 es[i].next == if i == k - 1 then n else if i + 1 < |es| then es[i + 1] else null
      requires n.next == if k < |es| then es[k] else null
      requires Sorted(TimesOf(es)) && k == Rank(TimesOf(es), n.tv)
      requires Loose(n.tv) && forall i :: 0 <= i < |es| ==> Loose(es[i].tv)
      ensures var r := InsertAt(es, k, n);
              && (forall i, j :: 0 <= i < j < |r| ==> r[i] != r[j])
              && (forall i {:trigger r[i].next} :: 0 <= i < |r| ==> r[i].next == if i + 1 < |r| then r[i + 1] else null)
              && Sorted(TimesOf(r)) && forall i :: 0 <= i < |r| ==> Loose(r[i].tv)
    {
      var r := InsertAt(es, k, n);
      InsertedAt(es, k, n);
      InsertKeepsSorted(TimesOf(es), n.tv);
      assert TimesOf(r) == InsertAt(TimesOf(es), k, n.tv);
      forall i | 0 <= i < |r| ensures r[i].next == if i + 1 < |r| then r[i + 1] else null {
        if i != k {
          assert r[i].next == es[if i < k then i else i - 1].next;
        }
      }
    }

    /** Eq_AddAfter: a new event delay milliseconds after the clock reading. */
    method AddAfter(kind: int, payload: T, delay: nat, now: Timeval) returns (ghost e: Event<T>)
      requires Valid() && Normal(now)
      modifies this, nodes
      ensures Valid() && fresh(e)
      ensures e.kind == kind && e.payload == payload && e.tv == Later(now, delay)
      ensures nodes == InsertAt(old(nodes), Rank(old(Times()), Later(now, delay)), e)
      ensures forall e :: e in old(nodes) ==> e.tv == old(e.tv)
    {
      var n := new Event(now, kind, payload);
      n.tv := AddMsecs(n.tv, delay);
      LaterAddsExactly(now, delay);
      Add(n);
      e := n;
    }

    method Pop() returns (e: Event?<T>)
      requires Valid()
      modifies this, if head == null then {} else {head}
      ensures Valid()
      ensures old(nodes) == [] ==> e == null && nodes == []
      ensures old(nodes) != [] ==> e == old(nodes)[0] && nodes == old(nodes)[1..] && e.next == null
      ensures forall e :: e in old(nodes) ==> e.tv == old(e.tv)
    {
      e := head;
      if e != null {
        UnlinkHead(e);
        ghost var ts := Times();
        e.next := null;
        assert Times() == ts;
      }
    }

    /** The position of e in the queue; |nodes| for null. */
    ghost function Position(e: Event?<T>): (k: nat)
      requires e == null || e in nodes
      reads this
      ensures k <= |nodes| && (e == null <==> k == |nodes|) && (e != null ==> e == nodes[k])
    {
      if e == null then |nodes| else var k :| 0 <= k < |nodes| && nodes[k] == e; k
    }

    lemma NextPosition(e: Event<T>)
      requires Valid() && e in nodes
      ensures e.next == null || e.next in nodes
      ensures Position(e.next) == Position(e) + 1
    {
    }

    method FindEvent(kind: int) returns (r: Event?<T>)
      requires Valid()
      ensures r != null ==> r in nodes && r.kind == kind
      ensures forall i :: 0 <= i < |nodes| && (r == null || i < Position(r)) ==> nodes[i].kind != kind
    {
      r := FindNextEvent(kind, head);
      assert head != null ==> Position(head) == 0;
    }

    /** The first event of the given kind from e on. */
    method FindNextEvent(kind: int, e0: Event?<T>) returns (r: Event?<T>)
      requires Valid() && (e0 == null || e0 in nodes)
      ensures r != null ==> r in nodes && r.kind == kind && Position(e0) <= Position(r)
      ensures forall i :: Position(e0) <= i < |nodes| && (r == null || i < Position(r)) ==> nodes[i].kind != kind
    {
      var e := e0;
      ghost var k := Position(e0);
      while e != null
        invariant Position(e0) <= k <= |nodes|
        invariant e == if k < |nodes| then nodes[k] else null
        invariant forall i :: Position(e0) <= i < k ==> nodes[i].kind != kind
        decreases |nodes| - k
      {
        if e.kind == kind {
          return e;
        }
        e := e.next;
        k := k + 1;
      }
      return null;
    }

    /** es without its element k is linked, sorted and loose if es was, and the element before k bypasses k. */
    static lemma Unlinked(es: seq<Event<T>>, k: nat)
      requires k < |es|
      requires forall i, j :: 0 <= i < j < |es| ==> es[i] != es[j]
      requires forall i {:trigger es[i].next} :: 0 <= i < |es| && i != k ==>
                 es[i].next == if i == k - 1 then (if k + 1 < |es| then es[k + 1] else null)
                               else if i + 1 < |es| then es[i + 1] else null
      requires Sorted(TimesOf(es)) && forall i :: 0 <= i < |es| ==> Loose(es[i].tv)
      ensures var r := RemoveAt(es, k);
              && (forall i, j :: 0 <= i < j < |r| ==> r[i] != r[j])
              && (forall i {:trigger r[i].next} :: 0 <= i < |r| ==> r[i].next == if i + 1 < |r| then r[i + 1] else null)
              && Sorted(TimesOf(r)) && forall i :: 0 <= i < |r| ==> Loose(r[i].tv)
    {
      var r := RemoveAt(es, k);
      RemovedAt(es, k);
      assert TimesOf(r) == RemoveAt(TimesOf(es), k);
      forall i | 0 <= i < |r| ensures r[i].next == if i + 1 < |r| then r[i + 1] else null {
        assert r[i].next == es[if i < k then i else i + 1].next;
      }
    }

    method UnlinkHead(e: Event<T>)
      requires Valid() && head == e
      modifies this
      ensures Valid() && nodes == RemoveAt(old(nodes), 0)
      ensures nodes == old(nodes)[1..] && e == old(nodes)[0] && e !in nodes
    {
      assert nodes[0].next == if |nodes| > 1 then nodes[1] else null;
      ghost var es, ts := nodes, Times();
      head := e.next;
      nodes := RemoveAt(es, 0);
      assert TimesOf(es) == ts;
      Unlinked(es, 0);
      HeadRemoved(es);
    }

    method UnlinkAfter(pe: Event<T>, e: Event<T>, ghost k: nat)
      requires Valid() && 1 <= k < |nodes| && pe == nodes[k - 1] && e == nodes[k]
      modifies this, pe
      ensures Valid() && nodes == RemoveAt(old(nodes), k)
      ensures forall e :: e in old(nodes) ==> e.tv == old(e.tv)
    {
      assert nodes[k].next == if k + 1 < |nodes| then nodes[k + 1] else null;
      ghost var es, ts := nodes, Times();
      pe.next := e.next;
      nodes := RemoveAt(es, k);
      assert TimesOf(es) == ts;
      Unlinked(es, k);
    }

    /** 0 and exactly e unlinked if e is queued, else -1 and nothing changed. The source dereferences head
        for an e that is not the head, so a non-null e needs a non-empty queue. */
    method Remove(e: Event?<T>) returns (r: int)
      requires Valid() && (e == null || head != null)
      modifies this, nodes
      ensures Valid()
      ensures r == if e != null && e in old(nodes) then 0 else -1
      ensures r == 0 ==> nodes == RemoveAt(old(nodes), old(Position(e)))
      ensures r == -1 ==> nodes == old(nodes)
      ensures forall e :: e in old(nodes) ==> e.tv == old(e.tv)
    {
      if e != null {
        if head == e {
          assert Position(e) == 0 && nodes[0] == e;
          UnlinkHead(e);
          return 0;
        }
        assert head == nodes[0];
        var pe, ce := head, head.next;
        ghost var k := 1;
        while ce != null
          invariant 1 <= k <= |nodes| && nodes == old(nodes) && Valid()
          invariant pe == nodes[k - 1]
          invariant ce == if k < |nodes| then nodes[k] else null
          invariant e !in nodes[..k]
          invariant forall e :: e in nodes ==> e.tv == old(e.tv)
          decreases |nodes| - k
        {
          if ce == e {
            assert Position(e) == k;
            UnlinkAfter(pe, e, k);
            return 0;
          } else {
            assert nodes[..k + 1] == nodes[..k] + [ce];
            pe := ce;
            ce := ce.next;
            k := k + 1;
          }
        }
        assert nodes[..k] == nodes;
      }
      return -1;
    }

    /** The time left to the head; {0, 0} exactly when the head is due; MAXVALUE seconds for an empty queue. */
    method NextTimer(now: Timeval) returns (tv: Timeval)
      requires Valid() && Normal(now)
      ensures tv == ZERO <==> TopInPast(now)
      ensures nodes == [] ==> tv == Timeval(MAXVALUE, 0)
      ensures nodes != [] ==> tv == Minus(nodes[0].tv, now)
    {
      if head != null {
        assert Loose(nodes[0].tv);
        tv := Sub(head.tv, now);
        MinusTruncates(head.tv, now);
      } else {
        tv := Timeval(MAXVALUE, 0);
      }
    }

    /** Eq_TopInPast */
    predicate TopInPast(now: Timeval)
      requires Valid()
      reads this, nodes
    {
      head != null && Cmp(head.tv, now) <= 0
    }

    /** The head has the least expiry in real time. */
    lemma HeadIsEarliest(i: nat)
      requires Valid() && i < |nodes|
      ensures Micros(head.tv) <= Micros(nodes[i].tv)
    {
      if i > 0 {
        assert Cmp(Times()[0], Times()[i]) <= 0;
        CmpIsTimeOrder(nodes[0].tv, nodes[i].tv);
      }
    }

    /** If the head is not due, nothing is; if some event is due, the head is. */
    lemma NothingDueBehind(now: Timeval, i: nat)
      requires Valid() && i < |nodes| && Cmp(nodes[i].tv, now) <= 0
      ensures TopInPast(now)
    {
      if i > 0 {
        assert Cmp(Times()[0], Times()[i]) <= 0;
        CmpTransitive(nodes[0].tv, nodes[i].tv, now);
      }
    }
  }
}
