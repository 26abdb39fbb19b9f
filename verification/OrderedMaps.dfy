/** std::map with octane_control keys: a search tree that finds its way with octane_control::operator<. */
module OrderedMaps {
  import opened ControlMessage

  datatype Tree<V> = Leaf | Node(left: Tree<V>, key: OctaneControl, value: V, right: Tree<V>)

  // ---------- The operations, for any comparison ----------

  /** The subtree whose root is the first node that is not less than k; Leaf stands for end(). */
  function LowerBound<V>(t: Tree<V>, k: OctaneControl): Tree<V> {
    match t
    case Leaf => Leaf
    case Node(left, key, _, right) =>
      if Less(key, k) then LowerBound(right, k)
      else if LowerBound(left, k).Leaf? then t
      else LowerBound(left, k)
  }

  /** find(k) != end() */
  predicate Contains<V>(t: Tree<V>, k: OctaneControl) {
    LowerBound(t, k).Node? && !Less(k, LowerBound(t, k).key)
  }

  function At<V>(t: Tree<V>, k: OctaneControl): V
    requires Contains(t, k)
  {
    LowerBound(t, k).value
  }

  /** A new node where the search ends. */
  function Attach<V>(t: Tree<V>, k: OctaneControl, v: V): Tree<V> {
    match t
    case Leaf => Node(Leaf, k, v, Leaf)
    case Node(left, key, _, right) =>
      if Less(key, k) then t.(right := Attach(right, k, v)) else t.(left := Attach(left, k, v))
  }

  /** A new value for the node that find(k) found; it keeps its key. */
  function Assign<V>(t: Tree<V>, k: OctaneControl, v: V): Tree<V>
    requires LowerBound(t, k).Node?
  {
    if Less(t.key, k) then t.(right := Assign(t.right, k, v))
    else if LowerBound(t.left, k).Leaf? then t.(value := v)
    else t.(left := Assign(t.left, k, v))
  }

  /** t[k] = v */
  function Put<V>(t: Tree<V>, k: OctaneControl, v: V): Tree<V> {
    if Contains(t, k) then Assign(t, k, v) else Attach(t, k, v)
  }

  function Join<V>(left: Tree<V>, right: Tree<V>): Tree<V> {
    match left
    case Leaf => right
    case Node(l, key, value, r) => Node(l, key, value, Join(r, right))
  }

  /** Takes out the node that find(k) found. */
  function Detach<V>(t: Tree<V>, k: OctaneControl): Tree<V>
    requires LowerBound(t, k).Node?
  {
    if Less(t.key, k) then t.(right := Detach(t.right, k))
    else if LowerBound(t.left, k).Leaf? then Join(t.left, t.right)
    else t.(left := Detach(t.left, k))
  }

  /** erase(k) */
  function Erase<V>(t: Tree<V>, k: OctaneControl): Tree<V> {
    if Contains(t, k) then Detach(t, k) else t
  }

  /** Keys and values from left to right, which is all that rebalancing leaves as it was. */
  function Entries<V>(t: Tree<V>): seq<(OctaneControl, V)> {
    match t
    case Leaf => []
    case Node(left, key, value, right) => Entries(left) + [(key, value)] + Entries(right)
  }

  /** A node just stored is found again, whatever the comparison does. */
  lemma {:induction false} PutIsFound<V>(t: Tree<V>, k: OctaneControl, v: V)
    ensures Contains(Put(t, k, v), k) && At(Put(t, k, v), k) == v
  {
    if Contains(t, k) {
      AssignIsFound(t, k, v);
    } else {
      AttachIsFound(t, k, v);
    }
  }

  lemma {:induction false} AttachIsFound<V>(t: Tree<V>, k: OctaneControl, v: V)
    ensures var n := LowerBound(Attach(t, k, v), k);
            n.Node? && n.key == k && n.value == v
  {
    match t
    case Leaf =>
    case Node(left, key, _, right) =>
      AttachIsFound(if Less(key, k) then right else left, k, v);
  }

  lemma {:induction false} AssignIsFound<V>(t: Tree<V>, k: OctaneControl, v: V)
    requires LowerBound(t, k).Node?
    ensures var n := LowerBound(Assign(t, k, v), k);
            n.Node? && n.value == v && n.key == LowerBound(t, k).key
  {
    if Less(t.key, k) {
      AssignIsFound(t.right, k, v);
    } else if LowerBound(t.left, k).Node? {
      AssignIsFound(t.left, k, v);
    }
  }

  // ---------- Sorted trees ----------

  ghost predicate Sorted<V>(es: seq<(OctaneControl, V)>) {
    forall i, j :: 0 <= i < j < |es| ==> Less(es[i].0, es[j].0)
  }

  /** A tree in order whose keys are some of the messages ms. */
  ghost predicate Holds<V>(t: Tree<V>, ms: set<OctaneControl>) {
    Sorted(Entries(t)) && forall e :: e in Entries(t) ==> e.0 in ms
  }

  /** e is in the tree under the class of k. */
  ghost predicate Under<V>(t: Tree<V>, k: OctaneControl, e: (OctaneControl, V)) {
    e in Entries(t) && ClassOf(e.0) == ClassOf(k)
  }

  lemma NodeMembers<V>(t: Tree<V>, e: (OctaneControl, V))
    requires t.Node?
    ensures e in Entries(t) <==> e in Entries(t.left) || e == (t.key, t.value) || e in Entries(t.right)
  {
  }

  lemma KeyIsEntry<V>(t: Tree<V>)
    requires t.Node?
    ensures (t.key, t.value) in Entries(t)
  {
  }

  lemma PartMembers<V>(t: Tree<V>)
    requires t.Node?
    ensures forall e :: e in Entries(t.left) || e in Entries(t.right) ==> e in Entries(t)
    ensures forall e :: e in Entries(t) ==> e in Entries(t.left) || e == (t.key, t.value) || e in Entries(t.right)
  {
  }

  /** The parts of a tree in order. */
  lemma Parts<V>(t: Tree<V>, ms: set<OctaneControl>)
    requires t.Node? && Holds(t, ms)
    ensures Holds(t.left, ms) && Holds(t.right, ms) && t.key in ms
    ensures forall e :: e in Entries(t.left) ==> Less(e.0, t.key)
    ensures forall e :: e in Entries(t.right) ==> Less(t.key, e.0)
  {
    SortedParts(Entries(t.left), (t.key, t.value), Entries(t.right));
    KeyIsEntry(t);
    PartMembers(t);
  }

  lemma SortedParts<V>(a: seq<(OctaneControl, V)>, x: (OctaneControl, V), b: seq<(OctaneControl, V)>)
    requires Sorted(a + [x] + b)
    ensures Sorted(a) && Sorted(b)
    ensures (forall e :: e in a ==> Less(e.0, x.0)) && forall e :: e in b ==> Less(x.0, e.0)
  {
    var es := a + [x] + b;
    assert es[|a|] == x;
    forall i, j | 0 <= i < j < |a| ensures Less(a[i].0, a[j].0) {
      assert a[i] == es[i] && a[j] == es[j];
    }
    forall i, j | 0 <= i < j < |b| ensures Less(b[i].0, b[j].0) {
      assert b[i] == es[|a| + 1 + i] && b[j] == es[|a| + 1 + j];
    }
    forall e | e in a ensures Less(e.0, x.0) {
      var i :| 0 <= i < |a| && a[i] == e;
      assert es[i] == e;
    }
    forall e | e in b ensures Less(x.0, e.0) {
      var i :| 0 <= i < |b| && b[i] == e;
      assert es[|a| + 1 + i] == e;
    }
  }

  lemma Glue<V>(t: Tree<V>, ms: set<OctaneControl>)
    requires t.Node? && Orderly(ms)
    requires Holds(t.left, ms) && Holds(t.right, ms) && t.key in ms
    requires forall e :: e in Entries(t.left) ==> Less(e.0, t.key)
    requires forall e :: e in Entries(t.right) ==> Less(t.key, e.0)
    ensures Holds(t, ms)
  {
    var l, x, r := Entries(t.left), (t.key, t.value), Entries(t.right);
    var es := Entries(t);
    forall i, j | 0 <= i < j < |es| ensures Less(es[i].0, es[j].0) {
      if i < |l| < j {
        assert es[i] == l[i] && es[j] == r[j - |l| - 1];
        LessTransitive(es[i].0, t.key, es[j].0);
      } else if i == |l| {
        assert es[j] == r[j - |l| - 1];
      } else if j == |l| {
        assert es[i] == l[i];
      } else if j < |l| {
        assert es[i] == l[i] && es[j] == l[j];
      } else {
        assert es[i] == r[i - |l| - 1] && es[j] == r[j - |l| - 1];
      }
    }
  }

  /** In a tree of any shape the search finds the least key that is not less than k. */
  lemma {:induction false} LowerBoundIsLeast<V>(t: Tree<V>, k: OctaneControl, ms: set<OctaneControl>)
    requires Orderly(ms) && Holds(t, ms) && k in ms
    ensures var n := LowerBound(t, k);
            if n.Leaf? then forall e :: e in Entries(t) ==> Less(e.0, k)
            else (n.key, n.value) in Entries(t) && !Less(n.key, k)
                 && forall e :: e in Entries(t) && !Less(e.0, k) ==> e == (n.key, n.value) || Less(n.key, e.0)
  {
    match t
    case Leaf =>
    case Node(left, key, value, right) =>
      Parts(t, ms);
      if Less(key, k) {
        LowerBoundIsLeast(right, k, ms);
        forall e | e in Entries(left) ensures Less(e.0, k) {
          LessTransitive(e.0, key, k);
        }
      } else {
        LowerBoundIsLeast(left, k, ms);
      }
  }

  /** find(k) finds the node of k's class, and only that: in a tree of any shape, for any orderly set of messages. */
  lemma {:induction false} ContainsIff<V>(t: Tree<V>, k: OctaneControl, ms: set<OctaneControl>)
    requires Orderly(ms) && Holds(t, ms) && k in ms
    ensures Contains(t, k) <==> exists e :: Under(t, k, e)
    ensures Contains(t, k) ==> forall e :: Under(t, k, e) ==> e == (LowerBound(t, k).key, At(t, k))
  {
    LowerBoundIsLeast(t, k, ms);
    var n := LowerBound(t, k);
    forall e | Under(t, k, e) ensures n.Node? && e == (n.key, n.value) {
      EquivalentIffSameClass(e.0, k);
      if n.Node? && e != (n.key, n.value) {
        LessOfClass(n.key, e.0, k);
      }
    }
    if Contains(t, k) {
      EquivalentIffSameClass(n.key, k);
      assert Under(t, k, (n.key, n.value));
    }
  }

  /** The comparison sees only classes. */
  lemma LessOfClass(a: OctaneControl, b: OctaneControl, k: OctaneControl)
    requires ClassOf(b) == ClassOf(k)
    ensures (Less(a, b) <==> Less(a, k)) && (Less(b, a) <==> Less(k, a))
  {
  }

  /** Messages of one class are looked up alike, whatever the tree. */
  lemma {:induction false} SameClassFinds<V>(t: Tree<V>, k: OctaneControl, m: OctaneControl)
    requires ClassOf(k) == ClassOf(m)
    ensures LowerBound(t, k) == LowerBound(t, m) && (Contains(t, k) <==> Contains(t, m))
  {
    match t
    case Leaf =>
    case Node(left, key, _, right) =>
      SameClassFinds(left, k, m);
      SameClassFinds(right, k, m);
      LessOfClass(key, k, m);
      if LowerBound(t, k).Node? {
        LessOfClass(LowerBound(t, k).key, k, m);
      }
  }

  // ---------- What the operations do to the entries ----------

  lemma ReplaceLeft<V>(t: Tree<V>, left: Tree<V>, ms: set<OctaneControl>)
    requires t.Node? && Orderly(ms) && Holds(t, ms)
    requires Holds(left, ms) && forall e :: e in Entries(left) ==> Less(e.0, t.key)
    ensures Holds(t.(left := left), ms)
    ensures forall e :: e in Entries(t.(left := left)) <==>
            e in Entries(left) || e == (t.key, t.value) || e in Entries(t.right)
  {
    Parts(t, ms);
    Glue(t.(left := left), ms);
  }

  lemma ReplaceRight<V>(t: Tree<V>, right: Tree<V>, ms: set<OctaneControl>)
    requires t.Node? && Orderly(ms) && Holds(t, ms)
    requires Holds(right, ms) && forall e :: e in Entries(right) ==> Less(t.key, e.0)
    ensures Holds(t.(right := right), ms)
    ensures forall e :: e in Entries(t.(right := right)) <==>
            e in Entries(t.left) || e == (t.key, t.value) || e in Entries(right)
  {
    Parts(t, ms);
    Glue(t.(right := right), ms);
  }

  /** r has the entries of t and x. */
  ghost predicate Added<V>(t: Tree<V>, x: (OctaneControl, V), r: Tree<V>) {
    && x in Entries(r)
    && (forall e :: e in Entries(r) ==> e in Entries(t) || e == x)
    && forall e :: e in Entries(t) ==> e in Entries(r)
  }

  lemma {:induction false} AttachEntries<V>(t: Tree<V>, k: OctaneControl, v: V, ms: set<OctaneControl>)
    requires Orderly(ms) && Holds(t, ms) && k in ms && forall e :: e in Entries(t) ==> ClassOf(e.0) != ClassOf(k)
    ensures Holds(Attach(t, k, v), ms)
    ensures Added(t, (k, v), Attach(t, k, v))
  {
    if t.Node? {
      Parts(t, ms);
      KeyIsEntry(t);
      PartMembers(t);
      EquivalentIffSameClass(t.key, k);
      if Less(t.key, k) {
        AttachEntries(t.right, k, v, ms);
        var right := Attach(t.right, k, v);
        forall e | e in Entries(right) ensures Less(t.key, e.0) {
          assert e in Entries(t.right) || e == (k, v);
        }
        ReplaceRight(t, right, ms);
      } else {
        AttachEntries(t.left, k, v, ms);
        var left := Attach(t.left, k, v);
        forall e | e in Entries(left) ensures Less(e.0, t.key) {
          assert e in Entries(t.left) || e == (k, v);
        }
        ReplaceLeft(t, left, ms);
      }
    }
  }

  /** r has the entries of t except the one with the found key, and those in more. */
  ghost predicate Changed<V>(t: Tree<V>, found: OctaneControl, r: Tree<V>, more: set<(OctaneControl, V)>) {
    && (exists e :: e in Entries(t) && e.0 == found)
    && (forall e :: e in more ==> e.0 == found && e in Entries(r))
    && (forall e :: e in Entries(r) ==> (e in Entries(t) && e.0 != found) || e in more)
    && forall e :: e in Entries(t) && e.0 != found ==> e in Entries(r)
  }

  lemma ChangedLeft<V>(t: Tree<V>, found: OctaneControl, left: Tree<V>, more: set<(OctaneControl, V)>,
                       ms: set<OctaneControl>)
    requires t.Node? && Orderly(ms) && Holds(t, ms) && Holds(left, ms) && Changed(t.left, found, left, more)
    ensures Holds(t.(left := left), ms) && Changed(t, found, t.(left := left), more)
  {
    Parts(t, ms);
    var e :| e in Entries(t.left) && e.0 == found;
    ReplaceLeft(t, left, ms);
    forall x | x in Entries(t.right) ensures x.0 != found {
    }
    assert e in Entries(t);
  }

  lemma ChangedRight<V>(t: Tree<V>, found: OctaneControl, right: Tree<V>, more: set<(OctaneControl, V)>,
                        ms: set<OctaneControl>)
    requires t.Node? && Orderly(ms) && Holds(t, ms) && Holds(right, ms) && Changed(t.right, found, right, more)
    ensures Holds(t.(right := right), ms) && Changed(t, found, t.(right := right), more)
  {
    Parts(t, ms);
    var e :| e in Entries(t.right) && e.0 == found;
    ReplaceRight(t, right, ms);
    forall x | x in Entries(t.left) ensures x.0 != found {
    }
    assert e in Entries(t);
  }

  lemma {:induction false} AssignEntries<V>(t: Tree<V>, k: OctaneControl, v: V, ms: set<OctaneControl>)
    requires Orderly(ms) && Holds(t, ms) && LowerBound(t, k).Node?
    ensures Holds(Assign(t, k, v), ms)
    ensures Changed(t, LowerBound(t, k).key, Assign(t, k, v), {(LowerBound(t, k).key, v)})
  {
    var found := LowerBound(t, k).key;
    Parts(t, ms);
    if Less(t.key, k) {
      AssignEntries(t.right, k, v, ms);
      ChangedRight(t, found, Assign(t.right, k, v), {(found, v)}, ms);
    } else if LowerBound(t.left, k).Node? {
      AssignEntries(t.left, k, v, ms);
      ChangedLeft(t, found, Assign(t.left, k, v), {(found, v)}, ms);
    } else {
      Glue(t.(value := v), ms);
      RootChanged(t, ms);
      NodeMembers(t, (t.key, t.value));
    }
  }

  /** The root's key is nowhere else. */
  lemma RootChanged<V>(t: Tree<V>, ms: set<OctaneControl>)
    requires t.Node? && Orderly(ms) && Holds(t, ms)
    ensures forall e :: e in Entries(t.left) || e in Entries(t.right) ==> e.0 != t.key
  {
    Parts(t, ms);
  }

  lemma {:induction false} JoinEntries<V>(left: Tree<V>, right: Tree<V>)
    ensures Entries(Join(left, right)) == Entries(left) + Entries(right)
  {
    match left
    case Leaf =>
    case Node(l, key, value, r) => JoinEntries(r, right);
  }

  lemma {:induction false} DetachEntries<V>(t: Tree<V>, k: OctaneControl, ms: set<OctaneControl>)
    requires Orderly(ms) && Holds(t, ms) && LowerBound(t, k).Node?
    ensures Holds(Detach(t, k), ms) && Changed(t, LowerBound(t, k).key, Detach(t, k), {})
  {
    var found := LowerBound(t, k).key;
    Parts(t, ms);
    if Less(t.key, k) {
      DetachEntries(t.right, k, ms);
      ChangedRight(t, found, Detach(t.right, k), {}, ms);
    } else if LowerBound(t.left, k).Node? {
      DetachEntries(t.left, k, ms);
      ChangedLeft(t, found, Detach(t.left, k), {}, ms);
    } else {
      JoinEntries(t.left, t.right);
      SortedWithout(Entries(t.left), (t.key, t.value), Entries(t.right));
      RootChanged(t, ms);
      NodeMembers(t, (t.key, t.value));
    }
  }

  lemma SortedWithout<V>(a: seq<(OctaneControl, V)>, x: (OctaneControl, V), b: seq<(OctaneControl, V)>)
    requires Sorted(a + [x] + b)
    ensures Sorted(a + b)
  {
    var es := a + [x] + b;
    forall i, j | 0 <= i < j < |a + b| ensures Less((a + b)[i].0, (a + b)[j].0) {
      assert (a + b)[i] == es[if i < |a| then i else i + 1];
      assert (a + b)[j] == es[if j < |a| then j else j + 1];
    }
  }

  // ---------- The laws of a map keyed by message class ----------

  /** Rebalancing does not change what is found. */
  lemma {:induction false} ShapeLaw<V>(t: Tree<V>, u: Tree<V>, k: OctaneControl, ms: set<OctaneControl>)
    requires Orderly(ms) && Holds(t, ms) && k in ms && Entries(t) == Entries(u)
    ensures Holds(u, ms) && (Contains(u, k) <==> Contains(t, k)) && (Contains(t, k) ==> At(u, k) == At(t, k))
  {
    ContainsIff(t, k, ms);
    ContainsIff(u, k, ms);
    forall e ensures Under(t, k, e) <==> Under(u, k, e) {
    }
  }

  /** t[k] = v stores v for the class of k and changes nothing for other classes. */
  lemma {:induction false} PutLaw<V>(t: Tree<V>, k: OctaneControl, v: V, m: OctaneControl, ms: set<OctaneControl>)
    requires Orderly(ms) && Holds(t, ms) && k in ms && m in ms
    ensures Holds(Put(t, k, v), ms)
    ensures Contains(Put(t, k, v), m) <==> ClassOf(m) == ClassOf(k) || Contains(t, m)
    ensures Contains(Put(t, k, v), m) ==> At(Put(t, k, v), m) == if ClassOf(m) == ClassOf(k) then v else At(t, m)
  {
    var r := Put(t, k, v);
    var key := if Contains(t, k) then LowerBound(t, k).key else k;
    ContainsIff(t, k, ms);
    ContainsIff(t, m, ms);
    if Contains(t, k) {
      EquivalentIffSameClass(key, k);
      AssignEntries(t, k, v, ms);
    } else {
      forall e | e in Entries(t) ensures ClassOf(e.0) != ClassOf(k) {
        assert Under(t, k, e) <==> ClassOf(e.0) == ClassOf(k);
      }
      AttachEntries(t, k, v, ms);
    }
    assert ClassOf(key) == ClassOf(k) && (key, v) in Entries(r);
    ContainsIff(r, m, ms);
    if ClassOf(m) == ClassOf(k) {
      assert Under(r, m, (key, v));
    } else {
      forall e ensures Under(r, m, e) <==> Under(t, m, e) {
      }
    }
  }

  /** erase(k) removes the class of k and nothing else. */
  lemma {:induction false} EraseLaw<V>(t: Tree<V>, k: OctaneControl, m: OctaneControl, ms: set<OctaneControl>)
    requires Orderly(ms) && Holds(t, ms) && k in ms && m in ms
    ensures Holds(Erase(t, k), ms)
    ensures Contains(Erase(t, k), m) <==> ClassOf(m) != ClassOf(k) && Contains(t, m)
    ensures Contains(Erase(t, k), m) ==> At(Erase(t, k), m) == At(t, m)
  {
    var r := Erase(t, k);
    ContainsIff(t, k, ms);
    ContainsIff(t, m, ms);
    if Contains(t, k) {
      var key := LowerBound(t, k).key;
      EquivalentIffSameClass(key, k);
      DetachEntries(t, k, ms);
      forall e ensures Under(r, m, e) <==> Under(t, m, e) && ClassOf(m) != ClassOf(k) {
        if e in Entries(t) && ClassOf(e.0) == ClassOf(k) {
          assert Under(t, k, e);
        }
      }
    } else if ClassOf(m) == ClassOf(k) {
      forall e ensures Under(t, k, e) <==> Under(t, m, e) {
      }
    }
    ContainsIff(r, m, ms);
  }

  // ---------- Where the comparison is no order ----------

  /** Two keys stored in order are found in every shape of the tree exactly when they are not each less than the
      other. */
  lemma {:induction false} EveryShapeFindsIff(a: OctaneControl, b: OctaneControl)
    requires Less(a, b)
    ensures (forall t: Tree<int> :: Entries(t) == [(a, 1), (b, 1)] ==> Contains(t, a) && Contains(t, b)) <==>
            !Less(b, a)
  {
    if Less(b, a) {
      var t := Node(Node(Leaf, a, 1, Leaf), b, 1, Leaf);
      assert Entries(t.left) == [(a, 1)] && Entries(t.right) == [];
      assert Entries(t) == [(a, 1), (b, 1)];
      assert LowerBound(t, a) == LowerBound(t.right, a) == Leaf;
    } else {
      forall t: Tree<int> | Entries(t) == [(a, 1), (b, 1)] ensures Contains(t, a) && Contains(t, b) {
        ContainsIff(t, a, {a, b});
        ContainsIff(t, b, {a, b});
        assert Entries(t)[0] == (a, 1) && Entries(t)[1] == (b, 1);
        assert Under(t, a, (a, 1)) && Under(t, b, (b, 1));
      }
    }
  }
}
