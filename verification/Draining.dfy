/** Which timers the expiry loop fires, for a clock that moves less than the retransmission time while it runs. */
module Draining {
  import opened Timevals
  import opened EventQueues
  import opened TimerLibrary
  import opened PrimaryProtocol

  type Queue = seq<Timer<OctaneTimer>>

  /** 2000 milliseconds in microseconds */
  const WINDOW := 2_000_000

  ghost predicate SortedTimers(q: Queue) {
    Sorted(Expiries(q)) && forall i :: 0 <= i < |q| ==> Loose(q[i].expiry)
  }

  ghost predicate Retransmits(q: Queue) {
    forall i :: 0 <= i < |q| ==> q[i].timeout == RETRANSMIT_AFTER
  }

  predicate Due(t: Timer<OctaneTimer>, now: Timeval) {
    Cmp(t.expiry, now) <= 0
  }

  predicate HeadDue(q: Queue, now: Timeval) {
    q != [] && Due(q[0], now)
  }

  predicate Before(t: Timer<OctaneTimer>, w: int) {
    Micros(t.expiry) < w
  }

  lemma SortedInsert(q: Queue, t: Timer<OctaneTimer>)
    requires SortedTimers(q) && Loose(t.expiry)
    ensures SortedTimers(Insert(q, t))
  {
    var k := Rank(Expiries(q), t.expiry);
    InsertKeepsSorted(Expiries(q), t.expiry);
    InsertedAt(q, k, t);
    assert Expiries(Insert(q, t)) == InsertAt(Expiries(q), k, t.expiry);
  }

  lemma SortedTail(q: Queue)
    requires SortedTimers(q) && q != []
    ensures SortedTimers(q[1..])
  {
    assert Expiries(q[1..]) == Expiries(q)[1..];
  }

  /** A timer from w on is inserted behind all timers before w. */
  lemma LateInsert(q: Queue, t: Timer<OctaneTimer>, m: nat, w: int)
    requires SortedTimers(q) && Loose(t.expiry) && !Before(t, w) && m <= |q|
    requires forall j :: 0 <= j < m ==> Before(q[j], w)
    requires forall j :: m <= j < |q| ==> !Before(q[j], w)
    ensures Insert(q, t)[..m] == q[..m]
    ensures forall j :: m <= j <= |q| ==> !Before(Insert(q, t)[j], w)
  {
    var k := Rank(Expiries(q), t.expiry);
    RankSeparates(Expiries(q), t.expiry);
    InsertedAt(q, k, t);
    forall j | 0 <= j < m ensures Cmp(t.expiry, Expiries(q)[j]) > 0 {
      CmpIsTimeOrder(t.expiry, q[j].expiry);
    }
    assert k < |q| ==> Cmp(t.expiry, Expiries(q)[k]) <= 0;
    assert m <= k;
    forall j | m <= j <= |q| ensures !Before(Insert(q, t)[j], w) {
      assert j == k || Insert(q, t)[j] == q[if j < k then j else j - 1];
    }
  }

  /** How many timers at the front expire before w. */
  ghost function Early(q: Queue, w: int): (e: nat)
    ensures e <= |q|
  {
    if q == [] || !Before(q[0], w) then 0 else 1 + Early(q[1..], w)
  }

  lemma {:induction false} EarlySeparates(q: Queue, w: int)
    requires SortedTimers(q)
    ensures forall j :: 0 <= j < Early(q, w) ==> Before(q[j], w)
    ensures forall j :: Early(q, w) <= j < |q| ==> !Before(q[j], w)
  {
    if q == [] {
    } else if !Before(q[0], w) {
      forall j | 0 < j < |q| ensures !Before(q[j], w) {
        assert Cmp(Expiries(q)[0], Expiries(q)[j]) <= 0;
        CmpIsTimeOrder(q[0].expiry, q[j].expiry);
      }
    } else {
      SortedTail(q);
      EarlySeparates(q[1..], w);
      assert forall j :: 0 < j < |q| ==> q[j] == q[1..][j - 1];
    }
  }

  /** q is what is queued after the first k timers of q0 have been fired once each: those of the first e that
      have not fired come first, in their old order; everything else expires from w on. */
  ghost predicate Fired(q0: Queue, q: Queue, k: nat, e: nat, w: int) {
    && 1 <= k <= e <= |q0| == |q|
    && SortedTimers(q0) && SortedTimers(q) && Retransmits(q)
    && q[..e - k] == q0[k..e]
    && (forall j :: 1 <= j < e ==> Before(q0[j], w))
    && (forall j :: e <= j < |q0| ==> !Before(q0[j], w))
    && (forall j :: e - k <= j < |q| ==> !Before(q[j], w))
  }

  lemma ReschedulesLate(t: Timer<OctaneTimer>, now: Timeval, w: int)
    requires t.timeout == RETRANSMIT_AFTER && w <= Micros(now) + WINDOW
    ensures Loose(Rescheduled(t, now).expiry) && !Before(Rescheduled(t, now), w)
  {
  }

  /** One fire with m early timers still behind the head. */
  lemma FireStep(q: Queue, now: Timeval, m: nat, w: int)
    requires SortedTimers(q) && Retransmits(q) && m < |q| && w <= Micros(now) + WINDOW
    requires forall j :: 1 <= j <= m ==> Before(q[j], w)
    requires forall j :: m < j < |q| ==> !Before(q[j], w)
    ensures var r := Insert(q[1..], Rescheduled(q[0], now));
            && |r| == |q| && SortedTimers(r) && Retransmits(r)
            && r[..m] == q[1..m + 1]
            && forall j :: m <= j < |r| ==> !Before(r[j], w)
  {
    var t := Rescheduled(q[0], now);
    ReschedulesLate(q[0], now, w);
    SortedTail(q);
    SortedInsert(q[1..], t);
    forall j | 0 <= j < |q| - 1 ensures q[1..][j] == q[j + 1] {
    }
    LateInsert(q[1..], t, m, w);
    InsertedAt(q[1..], Rank(Expiries(q[1..]), t.expiry), t);
    var r := Insert(q[1..], t);
    assert r[..m] == q[1..][..m] == q[1..m + 1];
  }

  lemma FirstFire(q0: Queue, now: Timeval, w: int)
    requires SortedTimers(q0) && Retransmits(q0) && q0 != [] && w == Micros(now) + WINDOW
    ensures Fired(q0, Insert(q0[1..], Rescheduled(q0[0], now)), 1, 1 + Early(q0[1..], w), w)
  {
    var m := Early(q0[1..], w);
    SortedTail(q0);
    EarlySeparates(q0[1..], w);
    forall j | 1 <= j < |q0| ensures q0[j] == q0[1..][j - 1] {
    }
    FireStep(q0, now, m, w);
  }

  /** If the head is due, it is the next timer of q0 in line, one that has not fired yet; firing it keeps the shape. */
  lemma NextFire(q0: Queue, q: Queue, k: nat, e: nat, w: int, seen: Timeval, now: Timeval)
    requires Fired(q0, q, k, e, w)
    requires Due(q[0], seen) && Normal(seen) && Micros(seen) < w <= Micros(now) + WINDOW
    ensures k < e && q[0] == q0[k]
    ensures Fired(q0, Insert(q[1..], Rescheduled(q[0], now)), k + 1, e, w)
  {
    CmpIsTimeOrder(q[0].expiry, seen);
    assert Before(q[0], w);
    assert k < e;
    var m := e - k - 1;
    forall j | 0 <= j <= m ensures q[j] == q0[k + j] {
      assert q[j] == q[..e - k][j];
    }
    FireStep(q, now, m, w);
    var r := Insert(q[1..], Rescheduled(q[0], now));
    assert r[..m] == q0[k + 1..e] by {
      assert q[1..m + 1] == q0[k + 1..e];
    }
  }

  /** If the head is not due, no timer of q0 that has not fired is due. */
  lemma NoneLeft(q0: Queue, q: Queue, k: nat, e: nat, w: int, seen: Timeval)
    requires Fired(q0, q, k, e, w)
    requires !Due(q[0], seen) && Normal(seen) && Micros(seen) < w
    ensures forall j :: k <= j < |q0| ==> !Due(q0[j], seen)
  {
    forall j | k <= j < |q0| ensures !Due(q0[j], seen) {
      if j < e {
        assert q0[j] == q[..e - k][j - k] == q[j - k];
        if j > k {
          assert Cmp(Expiries(q)[0], Expiries(q)[j - k]) <= 0;
          CmpTransitive(q[0].expiry, q[j - k].expiry, seen);
        }
      } else {
        CmpIsTimeOrder(q0[j].expiry, seen);
      }
    }
  }

  /** A lone timer is due again when the clock has moved on by the retransmission time. */
  lemma LoneFire(q: Queue, now: Timeval, next: Timeval)
    requires |q| == 1 && Retransmits(q) && Normal(next) && Micros(now) + WINDOW <= Micros(next)
    ensures var r := Insert(q[1..], Rescheduled(q[0], now));
            |r| == 1 && Retransmits(r) && HeadDue(r, next)
  {
  }

  // ---------- The unchecked fire after select ----------

  /** What select is told to wait when timers are queued: the time the head has left, and nothing exactly if it is
      due. */
  ghost predicate Told(q: Queue, now: Timeval, timeout: Timeval)
    requires q != []
  {
    && Micros(timeout) == (if Micros(q[0].expiry) <= Micros(now) then 0 else Micros(q[0].expiry) - Micros(now))
    && (timeout == Timeval(0, 0) <==> Cmp(q[0].expiry, now) <= 0)
  }

  lemma ToldByMinus(q: Queue, now: Timeval)
    requires q != [] && Loose(q[0].expiry) && Normal(now)
    ensures Told(q, now, Minus(q[0].expiry, now))
  {
    MinusTruncates(q[0].expiry, now);
  }

  /** If select waited as long as it was told, the timer fired without a further check is due. */
  lemma {:induction false} WaitedFireIsDue(q: Queue, before: Timeval, timeout: Timeval, after: Timeval)
    requires q != [] && SortedTimers(q) && Normal(before) && Normal(after)
    requires Told(q, before, timeout) && Micros(after) >= Micros(before) + Micros(timeout)
    ensures HeadDue(q, after)
  {
    CmpIsTimeOrder(q[0].expiry, after);
  }

  /** If the head was due before select, it has just been fired, and select only polls. The timer fired without a
      further check is then due exactly when the second timer of the queue is; a single timer is fired twice
      at once, although it was rescheduled for later. */
  lemma PolledFireIsEarly(q: Queue, now: Timeval, after: Timeval)
    requires q != [] && SortedTimers(q) && Retransmits(q) && Normal(now) && Normal(after)
    requires Cmp(now, after) <= 0 && Micros(after) < Micros(now) + WINDOW
    ensures var r := Insert(q[1..], Rescheduled(q[0], now));
            && (HeadDue(r, after) <==> |q| > 1 && Due(q[1], after))
            && (|q| == 1 ==> Resend(r[0]) == Resend(q[0]) && !HeadDue(r, after))
  {
  }
}
