/** Time values of the timer library (timers/timers.cc), with its own carry rule for microseconds. */
module Timevals {

  /** struct timeval */
  datatype Timeval = Timeval(sec: int, usec: int)

  const ZERO := Timeval(0, 0)

  /** What Eq_NextTimer reports for an empty queue. */
  const MAXVALUE := 0x7ff_ffff

  function Micros(t: Timeval): int {
    1_000_000 * t.sec + t.usec
  }

  /** A clock reading. */
  predicate Normal(t: Timeval) {
    0 <= t.usec < 1_000_000
  }

  /** What the library keeps: it carries only above 1000000, so 1000000 itself can stay in usec. */
  predicate Loose(t: Timeval) {
    0 <= t.usec <= 1_000_000
  }

  /** Timeval_Cmp */
  function Cmp(x: Timeval, y: Timeval): int {
    if x.sec > y.sec then 1
    else if x.sec < y.sec then -1
    else if x.usec > y.usec then 1
    else if x.usec < y.usec then -1
    else 0
  }

  /** The comparison is real-time order, except that (s, 1000000) is placed before the equal instant (s + 1, 0). */
  lemma CmpIsTimeOrder(x: Timeval, y: Timeval)
    requires Loose(x) && Loose(y)
    ensures Cmp(x, y) < 0 ==> Micros(x) <= Micros(y)
    ensures Micros(x) < Micros(y) ==> Cmp(x, y) < 0
    ensures Cmp(x, y) < 0 && Micros(x) == Micros(y) <==> x.usec == 1_000_000 && y == Timeval(x.sec + 1, 0)
    ensures Cmp(x, y) == 0 <==> x == y
    ensures Cmp(x, y) == -Cmp(y, x)
  {
  }

  lemma CmpTransitive(x: Timeval, y: Timeval, z: Timeval)
    ensures Cmp(x, y) <= 0 && Cmp(y, z) <= 0 ==> Cmp(x, z) <= 0
    ensures Cmp(x, y) <= 0 && Cmp(y, z) < 0 ==> Cmp(x, z) < 0
    ensures Cmp(x, y) < 0 && Cmp(y, z) <= 0 ==> Cmp(x, z) < 0
  {
  }

  /** The difference of two time values, truncated at zero. */
  function Minus(x: Timeval, y: Timeval): Timeval {
    if Cmp(x, y) < 0 then ZERO
    else if x.usec < y.usec then Timeval(x.sec - 1 - y.sec, x.usec + 1_000_000 - y.usec)
    else Timeval(x.sec - y.sec, x.usec - y.usec)
  }

  /** Timeval_Sub */
  method Sub(x: Timeval, y: Timeval) returns (tv: Timeval)
    ensures tv == Minus(x, y)
  {
    if Cmp(x, y) < 0 {
      tv := Timeval(0, 0);
    } else {
      tv := x;
      if tv.usec < y.usec {
        tv := Timeval(tv.sec - 1, tv.usec + 1_000_000);
      }
      tv := Timeval(tv.sec, tv.usec - y.usec);
      tv := Timeval(tv.sec - y.sec, tv.usec);
    }
  }

  /** The truncated difference in real time. Against a clock reading it is {0, 0} exactly when x is not
      later than y in the library's order. */
  lemma {:induction false} MinusTruncates(x: Timeval, y: Timeval)
    requires Loose(x) && Loose(y)
    ensures Micros(Minus(x, y)) == if Micros(x) <= Micros(y) then 0 else Micros(x) - Micros(y)
    ensures Loose(Minus(x, y)) && Minus(x, y).sec >= 0
    ensures Normal(y) ==> (Minus(x, y) == ZERO <==> Cmp(x, y) <= 0)
  {
    MinusIsDifference(x, y);
    CmpIsTimeOrder(x, y);
    CmpIsTimeOrder(y, x);
  }

  lemma {:induction false} MinusIsDifference(x: Timeval, y: Timeval)
    requires Loose(x) && Loose(y)
    ensures Micros(Minus(x, y)) == if Cmp(x, y) < 0 then 0 else Micros(x) - Micros(y)
    ensures Loose(Minus(x, y)) && Minus(x, y).sec >= 0
    ensures Normal(y) ==> (Minus(x, y) == ZERO <==> Cmp(x, y) <= 0)
  {
    var ds, du := x.sec - y.sec, x.usec - y.usec;
    if Cmp(x, y) < 0 {
    } else if du < 0 {
      assert ds >= 1;
      assert Minus(x, y) == Timeval(ds - 1, du + 1_000_000);
    } else {
      assert ds >= 0;
      assert Minus(x, y) == Timeval(ds, du);
    }
  }

  /** The instant msecs milliseconds after t, in the form the library stores: the microseconds are carried
      unless they come to 1000000 exactly. */
  function Later(t: Timeval, msecs: nat): (r: Timeval)
  {
    if t.usec + msecs % 1000 * 1000 == 1_000_000 then Timeval(t.sec + msecs / 1000, 1_000_000)
    else Timeval((Micros(t) + 1000 * msecs) / 1_000_000, (Micros(t) + 1000 * msecs) % 1_000_000)
  }

  lemma LaterAddsExactly(t: Timeval, msecs: nat)
    ensures Micros(Later(t, msecs)) == Micros(t) + 1000 * msecs
    ensures Loose(Later(t, msecs))
    ensures Loose(t) && t.usec == 1_000_000 && msecs == 0 ==> Later(t, msecs) == t
  {
  }

  lemma Split(msecs: nat)
    ensures msecs == msecs / 1000 * 1000 + msecs % 1000
  {
  }

  /** Timeval_Addusecs */
  method AddUsecs(t: Timeval, usecs: nat) returns (tv: Timeval)
    requires Loose(t)
    ensures Loose(tv) && Micros(tv) == Micros(t) + usecs
    ensures tv.usec == 1_000_000 <==> t.usec + usecs == 1_000_000
  {
    tv := Timeval(t.sec, t.usec + usecs);
    if tv.usec > 1_000_000 {
      tv := Timeval(tv.sec + tv.usec / 1_000_000, tv.usec);
      tv := Timeval(tv.sec, tv.usec % 1_000_000);
    }
  }

  /** Timeval_Addmsecs */
  method AddMsecs(t: Timeval, msecs0: nat) returns (tv: Timeval)
    requires Loose(t)
    ensures tv == Later(t, msecs0)
  {
    tv := t;
    var msecs := msecs0;
    Split(msecs0);
    if msecs >= 1000 {
      var secs := msecs / 1000;
      msecs := msecs % 1000;
      tv := Timeval(tv.sec + secs, tv.usec);
    }
    assert msecs < 1000;
    tv := AddUsecs(tv, msecs * 1000);
    LaterAddsExactly(t, msecs0);
    StoredFormUnique(tv, Later(t, msecs0));
  }

  lemma StoredFormUnique(x: Timeval, y: Timeval)
    requires Loose(x) && Loose(y) && Micros(x) == Micros(y) && (x.usec == 1_000_000 <==> y.usec == 1_000_000)
    ensures x == y
  {
  }
}
