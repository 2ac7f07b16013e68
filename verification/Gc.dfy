/** The allocation list and the mark-and-sweep collector. */
module Gc {
  import opened Sets

  /** What the low bits of a value, and the header of an allocation, say it is. */
  datatype Tag = ConsTag | StringTag | SymbolTag | ClosureTag | ClassTag

  datatype Value = Fixed(bits: int) | Pointer(tag: Tag, alloc: Alloc)

  /** `mark` is a 24-bit field; a new allocation carries -1 in it. */
  const MARK_LIMIT: nat := 0x100_0000
  const NEW_MARK: nat := 0xFF_FFFF

  class Alloc {
    var tag: Tag
    var prev: Alloc?
    var next: Alloc?
    var pool: nat
    var mark: nat
    var car: Value
    var cdr: Value
    var data: seq<Value>

    /** Captured variables or members are in `data`; only a cons has car and cdr. */
    constructor (tag: Tag, car: Value, cdr: Value, data: seq<Value>)
      ensures this.tag == tag && this.car == car && this.cdr == cdr && this.data == data
    {
      this.tag, this.car, this.cdr, this.data := tag, car, cdr, data;
      prev, next, pool, mark := null, null, 0, 0;
    }
  }

  /** `heapp` leaves out classes. */
  predicate Heapp(v: Value) { v.Pointer? && v.tag != ClassTag }

  predicate PoolAlive(pool: nat) { pool != 0 }

  /** `v` stands in `a`: a cons has two values, a closure and a class as many as they
      captured or have members; strings and symbols have none. */
  ghost predicate Holds(a: Alloc, v: Value)
    reads a`tag, a`car, a`cdr, a`data
  {
    || (a.tag == ConsTag && (v == a.car || v == a.cdr))
    || ((a.tag == ClosureTag || a.tag == ClassTag) && exists k :: 0 <= k < |a.data| && a.data[k] == v)
  }

  /** All that an allocation holds: the values _mark looks at inside it. */
  function Slots(a: Alloc): seq<Value>
    reads a`tag, a`car, a`cdr, a`data
  {
    match a.tag
    case ConsTag => [a.car, a.cdr]
    case ClosureTag => a.data
    case ClassTag => a.data
    case _ => []
  }

  lemma SlotsAre(a: Alloc)
    ensures forall v :: v in Slots(a) <==> Holds(a, v)
  {
  }

  ghost function Children(a: Alloc): set<Alloc>
    reads a`tag, a`car, a`cdr, a`data
  {
    set v | v in Slots(a) && Heapp(v) :: v.alloc
  }

  ghost function AllChildren(s: set<Alloc>): set<Alloc>
    reads s`tag, s`car, s`cdr, s`data
  {
    set a, b | a in s && b in Children(a) :: b
  }

  predicate Inside(v: Value, s: set<Alloc>) { v.Pointer? ==> v.alloc in s }

  /** No pointer that `a` holds leads out of `s`. */
  ghost predicate Whole(a: Alloc, s: set<Alloc>)
    reads a`tag, a`car, a`cdr, a`data
  {
    && (a.tag == ConsTag ==> Inside(a.car, s) && Inside(a.cdr, s))
    && (a.tag == ClosureTag || a.tag == ClassTag ==> forall k :: 0 <= k < |a.data| ==> Inside(a.data[k], s))
  }

  /** No allocation of the heap points out of it. */
  ghost predicate Closed(heap: set<Alloc>)
    reads heap`tag, heap`car, heap`cdr, heap`data
  {
    forall a :: a in heap ==> Whole(a, heap)
  }

  lemma HeldInside(heap: set<Alloc>, a: Alloc, v: Value)
    requires Closed(heap) && a in heap && Holds(a, v)
    ensures Inside(v, heap)
  {
    assert Whole(a, heap);
  }

  /** What can be reached from `starts` in at most `n` steps along heapp values. */
  ghost function Within(starts: set<Alloc>, heap: set<Alloc>, n: nat): set<Alloc>
    reads heap`tag, heap`car, heap`cdr, heap`data
  {
    if n == 0 then starts * heap
    else var s := Within(starts, heap, n - 1); s + AllChildren(s * heap) * heap
  }

  ghost predicate Reachable(starts: set<Alloc>, heap: set<Alloc>, a: Alloc)
    reads heap`tag, heap`car, heap`cdr, heap`data
  {
    exists n: nat :: a in Within(starts, heap, n)
  }

  lemma ChildrenMono(s: set<Alloc>, t: set<Alloc>)
    requires s <= t
    ensures AllChildren(s) <= AllChildren(t)
  {
  }

  lemma ChildIn(a: Alloc, c: Alloc, s: set<Alloc>)
    requires a in s && c in Children(a)
    ensures c in AllChildren(s)
  {
  }

  lemma {:induction false} WithinMono(s: set<Alloc>, t: set<Alloc>, heap: set<Alloc>, n: nat)
    requires s <= t
    ensures Within(s, heap, n) <= Within(t, heap, n) && Within(s, heap, n) <= heap
    decreases n
  {
    hide AllChildren;
    if n > 0 {
      WithinMono(s, t, heap, n - 1);
      ChildrenMono(Within(s, heap, n - 1) * heap, Within(t, heap, n - 1) * heap);
    }
  }

  /** One step down and `n` more are `n + 1` steps. */
  lemma {:induction false} WithinChild(a: Alloc, c: Alloc, heap: set<Alloc>, n: nat)
    requires a in heap && c in heap && c in Children(a)
    ensures Within({c}, heap, n) <= Within({a}, heap, n + 1)
    decreases n
  {
    hide AllChildren;
    var s := Within({a}, heap, n) * heap;
    if n == 0 {
      assert a in s;
      ChildIn(a, c, s);
    } else {
      WithinChild(a, c, heap, n - 1);
      ChildrenMono(Within({c}, heap, n - 1) * heap, s);
    }
  }

  lemma ReachableChild(a: Alloc, c: Alloc, heap: set<Alloc>, x: Alloc)
    requires a in heap && c in heap && c in Children(a) && Reachable({c}, heap, x)
    ensures Reachable({a}, heap, x)
  {
    var n: nat :| x in Within({c}, heap, n);
    WithinChild(a, c, heap, n);
  }

  lemma ReachableMono(s: set<Alloc>, t: set<Alloc>, heap: set<Alloc>, x: Alloc)
    requires s <= t && Reachable(s, heap, x)
    ensures Reachable(t, heap, x)
  {
    var n: nat :| x in Within(s, heap, n);
    WithinMono(s, t, heap, n);
  }

  lemma ReachableSelf(a: Alloc, heap: set<Alloc>)
    requires a in heap
    ensures Reachable({a}, heap, a)
  {
    assert a in Within({a}, heap, 0);
  }

  /** A set that holds the starts and is closed under children holds all that is reachable. */
  lemma {:induction false} ReachableInside(starts: set<Alloc>, heap: set<Alloc>, s: set<Alloc>, n: nat)
    requires starts * heap <= s <= heap
    requires forall a, c :: a in s && c in Children(a) && c in heap ==> c in s
    ensures Within(starts, heap, n) <= s
    decreases n
  {
    if n > 0 {
      ReachableInside(starts, heap, s, n - 1);
      assert AllChildren(Within(starts, heap, n - 1) * heap) * heap <= s;
    }
  }

  ghost function Marked(heap: set<Alloc>, m: nat): set<Alloc>
    reads heap`mark
  {
    set a | a in heap && a.mark == m
  }

  // ----- the list -----

  /** `list` is the doubly linked list from its first to its last element. */
  ghost predicate Linked(list: seq<Alloc>)
    reads Elements(list)`prev, Elements(list)`next
  {
    && (forall i, j :: 0 <= i < j < |list| ==> list[i] != list[j])
    && (forall i :: 0 <= i < |list| - 1 ==> list[i].next == list[i + 1])
    && (forall i :: 0 < i < |list| ==> list[i].prev == list[i - 1])
    && (list != [] ==> list[0].prev == null && list[|list| - 1].next == null)
  }

  ghost function Elements(list: seq<Alloc>): set<Alloc> {
    set a | a in list
  }

  /** The survivors of a sweep, in list order. */
  ghost function Survivors(list: seq<Alloc>, keep: set<Alloc>): seq<Alloc> {
    if list == [] then []
    else Survivors(list[..|list| - 1], keep) + if list[|list| - 1] in keep then [list[|list| - 1]] else []
  }

  lemma {:induction false} SurvivorsAre(list: seq<Alloc>, keep: set<Alloc>)
    requires forall i, j :: 0 <= i < j < |list| ==> list[i] != list[j]
    ensures var r := Survivors(list, keep);
      && (forall k :: 0 <= k < |r| ==> r[k] in list && r[k] in keep)
      && (forall k :: 0 <= k < |list| && list[k] in keep ==> list[k] in r)
      && (forall i, j :: 0 <= i < j < |r| ==> r[i] != r[j])
  {
    if list != [] {
      var front := list[..|list| - 1];
      SurvivorsAre(front, keep);
      assert list[|list| - 1] !in front && list == front + [list[|list| - 1]];
    }
  }

  lemma {:induction false} SurvivorsElements(list: seq<Alloc>, keep: set<Alloc>)
    ensures Elements(Survivors(list, keep)) == Elements(list) * keep
  {
    if list != [] {
      var front, last := list[..|list| - 1], list[|list| - 1];
      SurvivorsElements(front, keep);
      assert Elements(list) == Elements(front) + {last} by { assert list == front + [last]; }
      assert Elements(Survivors(list, keep)) == Elements(Survivors(front, keep)) + if last in keep then {last} else {};
    }
  }

  ghost function Last(list: seq<Alloc>): Alloc? {
    if list == [] then null else list[|list| - 1]
  }

  /** In the middle of a sweep: `done` is linked up, `l[i..]` still is, and they meet. */
  ghost predicate Unlinking(l: seq<Alloc>, done: seq<Alloc>, i: nat)
    requires i <= |l|
    reads Elements(l)`prev, Elements(l)`next, Elements(done)`prev, Elements(done)`next
  {
    && (forall j, k :: 0 <= j < k < |l| ==> l[j] != l[k])
    && (forall k :: 0 <= k < |done| - 1 ==> done[k].next == done[k + 1])
    && (forall k :: 0 < k < |done| ==> done[k].prev == done[k - 1])
    && (done != [] ==> done[0].prev == null && done[|done| - 1].next == if i < |l| then l[i] else null)
    && (forall k :: i <= k < |l| - 1 ==> l[k].next == l[k + 1])
    && (forall k :: i < k < |l| ==> l[k].prev == l[k - 1])
    && (i < |l| ==> l[i].prev == Last(done) && l[|l| - 1].next == null)
  }

  /** Where last_a points after a sweep. */
  ghost function LastAfter(l: seq<Alloc>, keep: set<Alloc>): Alloc? {
    LastSoFar(l, keep, |l|)
  }

  ghost function LastSoFar(l: seq<Alloc>, keep: set<Alloc>, i: nat): Alloc? {
    if i >= |l| - 1 >= 1 && l[|l| - 2] !in keep then Last(Survivors(l[..|l| - 2], keep)) else Last(l)
  }

  lemma LastStep(l: seq<Alloc>, keep: set<Alloc>, i: nat, n: Alloc?)
    requires i < |l| && (forall j, k :: 0 <= j < k < |l| ==> l[j] != l[k])
    requires n == if i + 1 < |l| then l[i + 1] else null
    ensures LastSoFar(l, keep, i + 1) ==
      if l[i] !in keep && n == LastSoFar(l, keep, i) then Last(Survivors(l[..i], keep)) else LastSoFar(l, keep, i)
  {
    if i == |l| - 1 && |l| >= 2 {
      assert l[..i][..i - 1] == l[..i - 1];
    }
  }

  lemma KeepStep(l: seq<Alloc>, done: seq<Alloc>, i: nat)
    requires i < |l| && Unlinking(l, done, i)
    ensures Unlinking(l, done + [l[i]], i + 1)
    ensures l[i].next == if i + 1 < |l| then l[i + 1] else null
  {
  }

  lemma Distinct(l: seq<Alloc>, done: seq<Alloc>, i: nat)
    requires i < |l| && Unlinking(l, done, i)
    ensures (forall j, k :: 0 <= j < k < |l| ==> l[j] != l[k]) && l[i].prev == Last(done)
  {
  }

  lemma DoneApart(l: seq<Alloc>, done: seq<Alloc>, i: nat)
    requires i < |l| && (forall j, k :: 0 <= j < k < |l| ==> l[j] != l[k])
    requires forall k :: 0 <= k < |done| ==> done[k] in l[..i]
    ensures forall k :: 0 <= k < |done| ==> forall j :: i <= j < |l| ==> done[k] != l[j]
  {
    forall k, j | 0 <= k < |done| && i <= j < |l| ensures done[k] != l[j] {
      var n :| 0 <= n < i && l[..i][n] == done[k];
      assert l[n] == done[k];
    }
  }

  /** After the first `i` elements, `done` was kept and `freed` was freed. */
  ghost predicate Swept(l: seq<Alloc>, keep: set<Alloc>, i: nat, done: seq<Alloc>, freed: set<Alloc>) {
    && i <= |l| && (forall j, k :: 0 <= j < k < |l| ==> l[j] != l[k])
    && done == Survivors(l[..i], keep) && freed == Elements(l[..i]) - keep
  }

  lemma StartSweep(l: seq<Alloc>, keep: set<Alloc>)
    requires Linked(l)
    ensures Unlinking(l, [], 0) && Swept(l, keep, 0, [], {}) && LastSoFar(l, keep, 0) == Last(l)
  {
  }

  lemma SweepStep(l: seq<Alloc>, keep: set<Alloc>, i: nat, done: seq<Alloc>, freed: set<Alloc>)
    requires i < |l| && Swept(l, keep, i, done, freed)
    ensures l[i] !in freed && freed + {l[i]} <= Elements(l[..i + 1])
    ensures l[i] in keep ==> Swept(l, keep, i + 1, done + [l[i]], freed)
    ensures l[i] !in keep ==> Swept(l, keep, i + 1, done, freed + {l[i]})
    ensures forall k :: 0 <= k < |done| ==> done[k] in l[..i] && done[k] !in freed + {l[i]}
    ensures forall j, k :: 0 <= j < k < |done| ==> done[j] != done[k]
    ensures LastSoFar(l, keep, i + 1) ==
      if l[i] !in keep && (if i + 1 < |l| then l[i + 1] else null) == LastSoFar(l, keep, i)
      then Last(done) else LastSoFar(l, keep, i)
  {
    hide LastSoFar, Last;
    assert l[..i + 1][..i] == l[..i] && l[..i + 1] == l[..i] + [l[i]];
    assert Elements(l[..i + 1]) == Elements(l[..i]) + {l[i]} && l[i] !in Elements(l[..i]);
    var m := l[..i];
    SurvivorsAre(m, keep);
    assert done == Survivors(m, keep);
    forall k | 0 <= k < |done| ensures done[k] in l[..i] && done[k] !in freed + {l[i]} {
      assert done[k] in m;
    }
    LastStep(l, keep, i, if i + 1 < |l| then l[i + 1] else null);
  }

  lemma EndSweep(l: seq<Alloc>, keep: set<Alloc>, done: seq<Alloc>, freed: set<Alloc>)
    requires Unlinking(l, done, |l|) && Swept(l, keep, |l|, done, freed)
    ensures Linked(done) && done == Survivors(l, keep) && freed == Elements(l) - keep
  {
    assert l[..|l|] == l;
    SurvivorsAre(l, keep);
  }

  /** Marks left over are older than the current one, or those of new allocations. */
  ghost predicate MarksBelow(l: seq<Alloc>, mark: nat)
    reads Elements(l)`mark
  {
    forall a :: a in l ==> a.mark <= mark || a.mark == NEW_MARK
  }

  class Collector {
    var firstA: Alloc?
    var lastA: Alloc?
    var gcMark: nat
    var gcRuns: nat
    ghost var list: seq<Alloc>

    ghost predicate ValidList()
      reads this, Elements(list)`prev, Elements(list)`next
    {
      Linked(list) && lastA == Last(list) && firstA == if list == [] then null else list[0]
    }

    ghost predicate OldMarks()
      reads this, Elements(list)`mark
    {
      MarksBelow(list, gcMark)
    }

    constructor ()
      ensures ValidList() && OldMarks() && list == []
    {
      firstA, lastA, gcMark, gcRuns, list := null, null, 0, 0, [];
    }

    /** `add_this_alloc`: appends to the list. */
    method AddThisAlloc(a: Alloc, tag: Tag, currentPool: nat)
      requires ValidList() && a !in list
      modifies this`firstA, this`lastA, this`list, a, if lastA == null then {} else {lastA}
      ensures ValidList() && list == old(list) + [a]
      ensures a.mark == NEW_MARK && a.tag == tag && a.pool == currentPool
      ensures unchanged(a`car, a`cdr, a`data)
      ensures forall x :: x in old(list) ==> unchanged(x`mark, x`tag, x`pool, x`car, x`cdr, x`data)
    {
      ghost var l := list;
      assert if l == [] then lastA == null else l[|l| - 1] == lastA;
      assert forall i :: 0 <= i < |l| ==> l[i] != a;
      a.mark := NEW_MARK;
      a.tag := tag;
      a.pool := currentPool;
      if lastA != null {
        a.prev := lastA;
        lastA.next := a;
        a.next := null;
        lastA := a;
      } else {
        a.prev, a.next := null, null;
        firstA, lastA := a, a;
      }
      list := list + [a];
      assert list[|l|] == a && lastA == a == Last(list);
    }

    /** `_mark`.  Each newly marked allocation is reachable from the value, and all that
        it points to is marked on return; the counter rises by their number. */
    method Mark(value: Value, marked0: nat, ghost heap: set<Alloc>) returns (marked: nat)
      requires Closed(heap) && (value.Pointer? ==> value.alloc in heap) && gcMark < MARK_LIMIT
      modifies heap`mark
      ensures old(Marked(heap, gcMark)) <= Marked(heap, gcMark)
      ensures forall a :: a in heap ==> a in Marked(heap, gcMark) || a.mark == old(a.mark)
      ensures Heapp(value) ==> value.alloc in Marked(heap, gcMark)
      ensures forall a :: a in Marked(heap, gcMark) - old(Marked(heap, gcMark)) ==>
                Heapp(value) && Reachable({value.alloc}, heap, a) && Children(a) <= Marked(heap, gcMark)
      ensures marked == marked0 + |Marked(heap, gcMark) - old(Marked(heap, gcMark))|
      decreases |heap - Marked(heap, gcMark)|, 4
    {
      marked := marked0;
      if Heapp(value) {
        if value.alloc.mark != gcMark {
          marked := MarkFresh(value.alloc, marked0, heap);
        }
      }
    }

    /** The body of _mark for an allocation that does not carry the current mark. */
    method MarkFresh(alloc: Alloc, marked0: nat, ghost heap: set<Alloc>) returns (marked: nat)
      requires Closed(heap) && alloc in heap && alloc.mark != gcMark && gcMark < MARK_LIMIT
      modifies heap`mark
      ensures old(Marked(heap, gcMark)) <= Marked(heap, gcMark)
      ensures forall a :: a in heap ==> a in Marked(heap, gcMark) || a.mark == old(a.mark)
      ensures alloc in Marked(heap, gcMark)
      ensures forall a :: a in Marked(heap, gcMark) - old(Marked(heap, gcMark)) ==>
                Reachable({alloc}, heap, a) && Children(a) <= Marked(heap, gcMark)
      ensures marked == marked0 + |Marked(heap, gcMark) - old(Marked(heap, gcMark))|
      decreases |heap - Marked(heap, gcMark)|, 3
    {
      hide Within, Slots, Reachable, Closed, Scanning;
      ghost var m0 := Marked(heap, gcMark);
      alloc.mark := gcMark % MARK_LIMIT;
      ghost var m1 := Marked(heap, gcMark);
      FirstMarked(alloc, heap, m0, m1, marked0);
      marked := Scan(alloc, marked0 + 1, heap, m0, m1, marked0);
      ScanDone(alloc, marked, marked0, heap, m0, m1);
    }

    lemma FirstMarked(alloc: Alloc, heap: set<Alloc>, m0: set<Alloc>, m1: set<Alloc>, marked0: nat)
      requires alloc in heap && alloc !in m0 && m1 == Marked(heap, gcMark) == m0 + {alloc}
      ensures |heap - m1| < |heap - m0| && alloc in m1 && Scanning(alloc, marked0 + 1, marked0, heap, m0, m1)
    {
      hide Reachable, Children;
      assert m1 - m0 == {alloc};
      SmallerSet(heap - m1, heap - m0);
    }

    lemma ScanDone(alloc: Alloc, marked: nat, marked0: nat, heap: set<Alloc>, m0: set<Alloc>, m1: set<Alloc>)
      requires alloc in heap && m1 == m0 + {alloc} && Scanning(alloc, marked, marked0, heap, m0, m1)
      requires Children(alloc) <= Marked(heap, gcMark)
      ensures var m := Marked(heap, gcMark);
        && m0 <= m && alloc in m && marked == marked0 + |m - m0|
        && forall a :: a in m - m0 ==> Reachable({alloc}, heap, a) && Children(a) <= m
    {
      hide Reachable, Children;
      ReachableSelf(alloc, heap);
    }

    /** The switch on the type of a freshly marked allocation. */
    method Scan(alloc: Alloc, marked1: nat, ghost heap: set<Alloc>, ghost m0: set<Alloc>, ghost m1: set<Alloc>,
                ghost marked0: nat)
      returns (marked: nat)
      requires Closed(heap) && alloc in heap && gcMark < MARK_LIMIT
      requires Scanning(alloc, marked1, marked0, heap, m0, m1) && alloc in m1
      modifies heap`mark
      ensures Scanning(alloc, marked, marked0, heap, m0, m1) && Children(alloc) <= Marked(heap, gcMark)
      ensures forall a :: a in heap ==> a in Marked(heap, gcMark) || a.mark == old(a.mark)
      decreases |heap - m1|, 7
    {
      marked := marked1;
      match alloc.tag {
        case ConsTag =>
          marked := MarkSlot(alloc, alloc.car, marked, heap, m0, m1, marked0);
          marked := MarkSlot(alloc, alloc.cdr, marked, heap, m0, m1, marked0);
        case ClosureTag =>
          marked := MarkData(alloc, marked, heap, m0, m1, marked0);
        case ClassTag =>
          marked := MarkData(alloc, marked, heap, m0, m1, marked0);
        case _ =>
      }
    }

    /** While `alloc` is being scanned: all that was marked since is below it, and done. */
    ghost predicate Scanning(alloc: Alloc, marked: nat, marked0: nat, heap: set<Alloc>, m0: set<Alloc>, m1: set<Alloc>)
      reads this`gcMark, heap
    {
      var m := Marked(heap, gcMark);
      && m0 <= m1 <= m && marked == marked0 + |m - m0|
      && forall a :: a in m - m1 ==> Reachable({alloc}, heap, a) && Children(a) <= m
    }

    /** One recursive call of _mark, on a value inside `alloc`. */
    method MarkSlot(alloc: Alloc, value: Value, marked1: nat, ghost heap: set<Alloc>, ghost m0: set<Alloc>,
                    ghost m1: set<Alloc>, ghost marked0: nat)
      returns (marked: nat)
      requires Closed(heap) && alloc in heap && Holds(alloc, value) && gcMark < MARK_LIMIT
      requires Scanning(alloc, marked1, marked0, heap, m0, m1) && alloc in m1
      modifies heap`mark
      ensures Scanning(alloc, marked, marked0, heap, m0, m1)
      ensures old(Marked(heap, gcMark)) <= Marked(heap, gcMark)
      ensures Heapp(value) ==> value.alloc in Marked(heap, gcMark)
      ensures forall a :: a in heap ==> a in Marked(heap, gcMark) || a.mark == old(a.mark)
      decreases |heap - m1|, 5
    {
      hide Closed, Holds, Children, Reachable;
      ghost var m := Marked(heap, gcMark);
      SubsetSize(heap - m, heap - m1);
      HeldInside(heap, alloc, value);
      marked := Mark(value, marked1, heap);
      Absorb(alloc, value, heap, m0, m1, m, Marked(heap, gcMark));
    }

    /** The loop over captured variables or members. */
    method MarkData(alloc: Alloc, marked1: nat, ghost heap: set<Alloc>, ghost m0: set<Alloc>, ghost m1: set<Alloc>,
                    ghost marked0: nat)
      returns (marked: nat)
      requires Closed(heap) && alloc in heap && gcMark < MARK_LIMIT
      requires alloc.tag == ClosureTag || alloc.tag == ClassTag
      requires Scanning(alloc, marked1, marked0, heap, m0, m1) && alloc in m1
      modifies heap`mark
      ensures Scanning(alloc, marked, marked0, heap, m0, m1) && Children(alloc) <= Marked(heap, gcMark)
      ensures old(Marked(heap, gcMark)) <= Marked(heap, gcMark)
      ensures forall a :: a in heap ==> a in Marked(heap, gcMark) || a.mark == old(a.mark)
      decreases |heap - m1|, 6
    {
      hide Closed, Reachable;
      marked := marked1;
      for i := 0 to |alloc.data|
        invariant Scanning(alloc, marked, marked0, heap, m0, m1) && old(Marked(heap, gcMark)) <= Marked(heap, gcMark)
        invariant forall k :: 0 <= k < i && Heapp(alloc.data[k]) ==> alloc.data[k].alloc in Marked(heap, gcMark)
        invariant forall a :: a in heap ==> a in Marked(heap, gcMark) || a.mark == old(a.mark)
      {
        marked := MarkSlot(alloc, alloc.data[i], marked, heap, m0, m1, marked0);
      }
    }

    /** What a sweep keeps. */
    ghost function Kept(): set<Alloc>
      reads this, list
    {
      set a | a in list && (PoolAlive(a.pool) || a.mark == gcMark)
    }

    /** Freeing one allocation in the loop of _sweep; the result is the next one. */
    method FreeStep(a: Alloc, ghost l: seq<Alloc>, ghost done: seq<Alloc>, ghost i: nat, ghost freed: set<Alloc>)
      returns (n: Alloc?)
      requires i < |l| && a == l[i] && Unlinking(l, done, i)
      requires (forall k :: 0 <= k < |done| ==> done[k] in l[..i] && done[k] !in freed)
      requires forall j, k :: 0 <= j < k < |done| ==> done[j] != done[k]
      requires freed <= Elements(l[..i + 1])
      modifies this`firstA, this`lastA, Elements(l)`prev, Elements(l)`next
      ensures firstA == old(firstA)
      ensures Unlinking(l, done, i + 1) && n == (if i + 1 < |l| then l[i + 1] else null)
      ensures lastA == if n == old(lastA) then Last(done) else old(lastA)
    {
      hide Unlinking;
      KeepStep(l, done, i);
      Distinct(l, done, i);
      DoneApart(l, done, i);
      var p := a.prev;
      n := a.next;
      assert p !in freed && n !in freed;
      if n == firstA {
        firstA := n;
      }
      if n == lastA {
        lastA := p;
      }
      Join(p, n, l, done, i);
    }

    /** The neighbours of a freed allocation meet. */
    method Join(p: Alloc?, n: Alloc?, ghost l: seq<Alloc>, ghost done: seq<Alloc>, ghost i: nat)
      requires i < |l| && Unlinking(l, done, i) && p == Last(done) && n == if i + 1 < |l| then l[i + 1] else null
      requires forall j, k :: 0 <= j < k < |done| ==> done[j] != done[k]
      requires forall k :: 0 <= k < |done| ==> done[k] in Elements(l) && forall j :: i <= j < |l| ==> done[k] != l[j]
      modifies Elements(l)`prev, Elements(l)`next
      ensures Unlinking(l, done, i + 1)
    {
      if p != null {
        p.next := n;
      }
      if n != null {
        n.prev := p;
      }
    }

    /** `_sweep`: unlinks and frees everything else.  No freed allocation is looked at
        again.  The tests against first_a and last_a come after `a` has moved on, so
        first_a never changes and last_a changes at the element before the last. */
    method Sweep() returns (ghost freed: set<Alloc>)
      requires ValidList()
      modifies this`firstA, this`lastA, this`list, Elements(list)`prev, Elements(list)`next
      ensures freed == Elements(old(list)) - old(Kept())
      ensures list == Survivors(old(list), old(Kept())) && Linked(list)
      ensures firstA == old(firstA) && lastA == LastAfter(old(list), old(Kept()))
    {
      hide Unlinking, Linked, LastSoFar, Survivors, Swept, Elements, Last;
      ghost var l, keep := list, Kept();
      ghost var i := 0;
      ghost var done: seq<Alloc> := [];
      freed := {};
      StartSweep(l, keep);
      var a := firstA;
      while a != null
        invariant 0 <= i <= |l| && (if i < |l| then a == l[i] else a == null)
        invariant Swept(l, keep, i, done, freed) && Unlinking(l, done, i)
        invariant firstA == old(firstA) && lastA == LastSoFar(l, keep, i)
        decreases |l| - i
      {
        SweepStep(l, keep, i, done, freed);
        assert a !in freed;
        if PoolAlive(a.pool) || a.mark == gcMark {
          KeepStep(l, done, i);
          done := done + [a];
          a := a.next;
        } else {
          freed := freed + {a};
          a := FreeStep(a, l, done, i, freed);
        }
        i := i + 1;
      }
      EndSweep(l, keep, done, freed);
      list := done;
    }

    /** `_do_gc` with the given roots in place of the stack it scans.  What survives is
        what the roots reach along heapp edges, and what is pooled; survivors stay in
        order; and the collector can go on exactly if the oldest allocation survives
        and the newest two share their fate. */
    method DoGc(roots: seq<Value>) returns (numMarked: nat, ghost freed: set<Alloc>)
      requires ValidList() && OldMarks() && Closed(Elements(list)) && gcMark + 1 < NEW_MARK
      requires forall k :: 0 <= k < |roots| && roots[k].Pointer? ==> roots[k].alloc in list
      modifies this, Elements(list)`mark, Elements(list)`prev, Elements(list)`next
      ensures gcMark == old(gcMark) + 1 && gcRuns == old(gcRuns) + 1 && OldMarks()
      ensures list == Survivors(old(list), old(ToKeep(list, roots))) && Linked(list)
      ensures freed == Elements(old(list)) - old(ToKeep(list, roots))
      ensures numMarked == |old(Live(list, roots))|
      ensures forall a :: a in old(list) ==> (a in list <==> a.pool != 0 || old(LedTo(list, roots, a)))
      ensures forall k :: 0 <= k < |roots| ==> Stays(roots[k], Elements(list))
      ensures forall a :: a in old(list) && old(LedTo(list, roots, a)) ==> Intact(a, Elements(list))
      ensures ValidList() <==> ListStaysValid(old(list), old(ToKeep(list, roots)))
      ensures Closed(Elements(list)) <==> old(OnlySafePointers(list, ToKeep(list, roots), Live(list, roots)))
    {
      hide Within, Survivors, Linked, Slots, Children, LastSoFar, LastAfter, Last, Live, ToKeep, Reachable,
           ListStaysValid, OnlySafePointers, MarksBelow, LedTo, Intact, Closed;
      LinkedDistinct(list);
      Collects(list, roots);
      numMarked := MarkPhase(roots);
      ghost var l, keep := list, Kept();
      freed := Sweep();
      SurvivorsValid(l, keep);
      SurvivorsElements(l, keep);
      assert Elements(list) == keep;
      FewerMarks(l, list, gcMark);
      StaysClosed(l, list, keep, roots);
    }

    /** Up to the sweep: the mark is raised and all roots are marked with it. */
    method MarkPhase(roots: seq<Value>) returns (numMarked: nat)
      requires ValidList() && OldMarks() && Closed(Elements(list)) && gcMark + 1 < NEW_MARK
      requires forall k :: 0 <= k < |roots| && roots[k].Pointer? ==> roots[k].alloc in list
      modifies this`gcMark, this`gcRuns, Elements(list)`mark
      ensures gcMark == old(gcMark) + 1 && gcRuns == old(gcRuns) + 1 && OldMarks()
      ensures Kept() == old(ToKeep(list, roots)) && Live(list, roots) <= Kept()
      ensures numMarked == |old(Live(list, roots))|
    {
      hide Within, Linked, Slots, Children, Last, Live, ToKeep, Reachable, AllMarked;
      ghost var heap := Elements(list);
      gcMark := gcMark + 1;
      gcRuns := gcRuns + 1;
      numMarked := MarkRoots(roots, heap);
      LiveMarked(list, roots, gcMark);
      KeptIsToKeep(list, roots, gcMark);
    }

    method MarkRoots(roots: seq<Value>, ghost heap: set<Alloc>) returns (numMarked: nat)
      requires Closed(heap) && gcMark < MARK_LIMIT && Marked(heap, gcMark) == {}
      requires forall k :: 0 <= k < |roots| && roots[k].Pointer? ==> roots[k].alloc in heap
      modifies heap`mark
      ensures AllMarked(heap, roots, |roots|, Marked(heap, gcMark)) && numMarked == |Marked(heap, gcMark)|
      ensures forall a :: a in heap ==> a in Marked(heap, gcMark) || a.mark == old(a.mark)
    {
      numMarked := 0;
      for i := 0 to |roots|
        invariant AllMarked(heap, roots, i, Marked(heap, gcMark)) && numMarked == |Marked(heap, gcMark)|
        invariant forall a :: a in heap ==> a in Marked(heap, gcMark) || a.mark == old(a.mark)
      {
        ghost var m := Marked(heap, gcMark);
        numMarked := Mark(roots[i], numMarked, heap);
        RootMarked(heap, roots, i, m, Marked(heap, gcMark));
      }
    }
  }

  ghost function RootSet(roots: seq<Value>): set<Alloc> {
    set v | v in roots && Heapp(v) :: v.alloc
  }

  // ----- chains of pointers -----

  /** A pointer that is followed: any but one to a class. */
  ghost predicate Leads(v: Value, a: Alloc) { v.Pointer? && v.tag != ClassTag && v.alloc == a }

  /** A pointer in `a` that is followed leads to `b`. */
  ghost predicate PointsTo(a: Alloc, b: Alloc)
    reads a`tag, a`car, a`cdr, a`data
  {
    || (a.tag == ConsTag && (Leads(a.car, b) || Leads(a.cdr, b)))
    || ((a.tag == ClosureTag || a.tag == ClassTag) && exists k :: 0 <= k < |a.data| && Leads(a.data[k], b))
  }

  /** `p` are places in the list: a root leads to the first, and each to the next. */
  ghost predicate Chain(l: seq<Alloc>, roots: seq<Value>, p: seq<nat>)
    reads Elements(l)`tag, Elements(l)`car, Elements(l)`cdr, Elements(l)`data
  {
    && p != [] && (forall i :: 0 <= i < |p| ==> p[i] < |l|)
    && (exists k :: 0 <= k < |roots| && Leads(roots[k], l[p[0]]))
    && forall i :: 0 <= i < |p| - 1 ==> PointsTo(l[p[i]], l[p[i + 1]])
  }

  /** Some chain of pointers leads from a root to `a`. */
  ghost predicate LedTo(l: seq<Alloc>, roots: seq<Value>, a: Alloc)
    reads Elements(l)`tag, Elements(l)`car, Elements(l)`cdr, Elements(l)`data
  {
    exists p: seq<nat> :: Chain(l, roots, p) && l[p[|p| - 1]] == a
  }

  lemma PointsToChild(a: Alloc, b: Alloc)
    ensures PointsTo(a, b) <==> b in Children(a)
  {
    SlotsAre(a);
    if PointsTo(a, b) && a.tag != ConsTag {
      var k :| 0 <= k < |a.data| && Leads(a.data[k], b);
      assert a.data[k] in Slots(a);
    }
  }

  lemma ChainMore(l: seq<Alloc>, roots: seq<Value>, b: Alloc, a: Alloc)
    requires LedTo(l, roots, b) && PointsTo(b, a) && a in l
    ensures LedTo(l, roots, a)
  {
    hide PointsTo;
    var p: seq<nat> :| Chain(l, roots, p) && l[p[|p| - 1]] == b;
    var k: nat :| 0 <= k < |l| && l[k] == a;
    var q: seq<nat> := p + [k];
    forall i | 0 <= i < |q| - 1 ensures PointsTo(l[q[i]], l[q[i + 1]]) {
      if i < |p| - 1 { assert q[i] == p[i] && q[i + 1] == p[i + 1]; }
    }
    assert Chain(l, roots, q) && l[q[|q| - 1]] == a;
  }

  lemma {:induction false} WithinLedTo(l: seq<Alloc>, roots: seq<Value>, n: nat, a: Alloc)
    requires a in Within(RootSet(roots), Elements(l), n)
    ensures LedTo(l, roots, a)
    decreases n
  {
    hide Children, LedTo, PointsTo;
    if n == 0 {
      RootLedTo(l, roots, a);
    } else if a in Within(RootSet(roots), Elements(l), n - 1) {
      WithinLedTo(l, roots, n - 1, a);
    } else {
      var b :| b in Within(RootSet(roots), Elements(l), n - 1) * Elements(l) && a in Children(b);
      WithinLedTo(l, roots, n - 1, b);
      PointsToChild(b, a);
      ChainMore(l, roots, b, a);
    }
  }

  lemma RootLedTo(l: seq<Alloc>, roots: seq<Value>, a: Alloc)
    requires a in RootSet(roots) && a in l
    ensures LedTo(l, roots, a)
  {
    var v :| v in roots && Heapp(v) && v.alloc == a;
    var k :| 0 <= k < |roots| && roots[k] == v;
    var i :| 0 <= i < |l| && l[i] == a;
    assert Leads(roots[k], l[[i][0]]);
    assert Chain(l, roots, [i]) && l[[i][|[i]| - 1]] == a;
  }

  lemma {:induction false} ChainWithin(l: seq<Alloc>, roots: seq<Value>, p: seq<nat>)
    requires Chain(l, roots, p)
    ensures l[p[|p| - 1]] in Within(RootSet(roots), Elements(l), |p| - 1)
    decreases |p|
  {
    hide Children, PointsTo;
    var n := |p| - 1;
    var a := l[p[n]];
    if n == 0 {
      var k :| 0 <= k < |roots| && Leads(roots[k], l[p[0]]);
      assert roots[k] in roots;
    } else {
      var q := p[..n];
      assert forall i :: 0 <= i < n ==> q[i] == p[i];
      ChainWithin(l, roots, q);
      assert PointsTo(l[p[n - 1]], l[p[n - 1 + 1]]);
      PointsToChild(l[p[n - 1]], a);
      ChildIn(l[p[n - 1]], a, Within(RootSet(roots), Elements(l), n - 1) * Elements(l));
    }
  }

  /** What is live is what chains of pointers lead to. */
  lemma LiveIsLedTo(l: seq<Alloc>, roots: seq<Value>, a: Alloc)
    ensures a in Live(l, roots) <==> a in l && LedTo(l, roots, a)
  {
    hide Within, PointsTo;
    if a in Live(l, roots) {
      var n: nat :| a in Within(RootSet(roots), Elements(l), n);
      WithinLedTo(l, roots, n, a);
    }
    if a in l && LedTo(l, roots, a) {
      var p: seq<nat> :| Chain(l, roots, p) && l[p[|p| - 1]] == a;
      ChainWithin(l, roots, p);
    }
  }

  ghost predicate Stays(v: Value, s: set<Alloc>) { v.Pointer? && v.tag != ClassTag ==> v.alloc in s }

  /** Nothing that `a` has, except classes, is missing from `s`. */
  ghost predicate Intact(a: Alloc, s: set<Alloc>)
    reads a`tag, a`car, a`cdr, a`data
  {
    && (a.tag == ConsTag ==> Stays(a.car, s) && Stays(a.cdr, s))
    && (a.tag == ClosureTag || a.tag == ClassTag ==> forall k :: 0 <= k < |a.data| ==> Stays(a.data[k], s))
  }

  /** A live allocation keeps all it has. */
  lemma LiveIntact(l: seq<Alloc>, roots: seq<Value>, a: Alloc)
    requires Closed(Elements(l)) && a in Live(l, roots)
    ensures Intact(a, Live(l, roots))
  {
    hide Live, Slots;
    assert a in l by { LiveIsLedTo(l, roots, a); }
    forall b | PointsTo(a, b) ensures b in Live(l, roots) {
      PointsToChild(a, b);
      LiveClosed(l, roots, a, b);
    }
    if a.tag == ConsTag {
      assert a.car.Pointer? && a.car.tag != ClassTag ==> PointsTo(a, a.car.alloc);
      assert a.cdr.Pointer? && a.cdr.tag != ClassTag ==> PointsTo(a, a.cdr.alloc);
    } else if a.tag == ClosureTag || a.tag == ClassTag {
      forall k | 0 <= k < |a.data| ensures Stays(a.data[k], Live(l, roots)) {
        if a.data[k].Pointer? && a.data[k].tag != ClassTag {
          assert Leads(a.data[k], a.data[k].alloc);
          assert PointsTo(a, a.data[k].alloc);
        }
      }
    }
  }

  /** What is kept, said by chains of pointers and by the fields of what they lead to. */
  lemma Collects(l: seq<Alloc>, roots: seq<Value>)
    requires Closed(Elements(l))
    requires forall k :: 0 <= k < |roots| && roots[k].Pointer? ==> roots[k].alloc in l
    ensures forall a :: a in l ==> (a in ToKeep(l, roots) <==> a.pool != 0 || LedTo(l, roots, a))
    ensures forall k :: 0 <= k < |roots| ==> Stays(roots[k], ToKeep(l, roots))
    ensures forall a :: a in l && LedTo(l, roots, a) ==> Intact(a, ToKeep(l, roots))
  {
    hide LedTo, Live;
    forall a ensures a in Live(l, roots) <==> a in l && LedTo(l, roots, a) {
      LiveIsLedTo(l, roots, a);
    }
    forall k | 0 <= k < |roots| ensures Stays(roots[k], ToKeep(l, roots)) {
      if roots[k].Pointer? && roots[k].tag != ClassTag {
        assert roots[k].alloc in RootSet(roots) by { assert roots[k] in roots; }
        RootLedTo(l, roots, roots[k].alloc);
      }
    }
    forall a | a in l && LedTo(l, roots, a) ensures Intact(a, ToKeep(l, roots)) {
      LiveIntact(l, roots, a);
    }
  }

  /** What a collection has to find: all that the roots reach. */
  ghost function Live(l: seq<Alloc>, roots: seq<Value>): set<Alloc>
    reads Elements(l)`tag, Elements(l)`car, Elements(l)`cdr, Elements(l)`data
  {
    set a | a in l && Reachable(RootSet(roots), Elements(l), a)
  }

  ghost function ToKeep(l: seq<Alloc>, roots: seq<Value>): set<Alloc>
    reads Elements(l)`tag, Elements(l)`car, Elements(l)`cdr, Elements(l)`data, Elements(l)`pool
  {
    set a | a in l && (PoolAlive(a.pool) || a in Live(l, roots))
  }

  /** The first `n` roots have been marked, and everything below them. */
  ghost predicate AllMarked(heap: set<Alloc>, roots: seq<Value>, n: nat, m: set<Alloc>)
    requires n <= |roots|
    reads heap`tag, heap`car, heap`cdr, heap`data
  {
    && m <= heap && (forall k :: 0 <= k < n && Heapp(roots[k]) ==> roots[k].alloc in m)
    && forall a :: a in m ==> Reachable(RootSet(roots), heap, a) && Children(a) <= m
  }

  lemma RootMarked(heap: set<Alloc>, roots: seq<Value>, i: nat, m: set<Alloc>, m': set<Alloc>)
    requires i < |roots| && AllMarked(heap, roots, i, m) && m <= m' <= heap
    requires Heapp(roots[i]) ==> roots[i].alloc in m'
    requires forall a :: a in m' - m ==> Heapp(roots[i]) && Reachable({roots[i].alloc}, heap, a) && Children(a) <= m'
    ensures AllMarked(heap, roots, i + 1, m') && |m'| == |m| + |m' - m|
  {
    assert m' == m + (m' - m);
    forall a | a in m' ensures Reachable(RootSet(roots), heap, a) && Children(a) <= m' {
      if a !in m {
        assert roots[i] in roots;
        ReachableMono({roots[i].alloc}, RootSet(roots), heap, a);
      }
    }
  }

  /** Marking all roots marks exactly what they reach. */
  lemma LiveMarked(l: seq<Alloc>, roots: seq<Value>, mark: nat)
    requires AllMarked(Elements(l), roots, |roots|, Marked(Elements(l), mark))
    ensures Marked(Elements(l), mark) == Live(l, roots)
  {
    var heap, m := Elements(l), Marked(Elements(l), mark);
    forall a | a in l && Reachable(RootSet(roots), heap, a) ensures a in m {
      var n: nat :| a in Within(RootSet(roots), heap, n);
      ReachableInside(RootSet(roots), heap, m, n);
    }
  }

  lemma KeptIsToKeep(l: seq<Alloc>, roots: seq<Value>, mark: nat)
    requires Marked(Elements(l), mark) == Live(l, roots)
    ensures (set a | a in l && (PoolAlive(a.pool) || a.mark == mark)) == ToKeep(l, roots)
    ensures Live(l, roots) <= ToKeep(l, roots)
  {
    assert forall a :: a in l ==> (a in Marked(Elements(l), mark) <==> a.mark == mark);
  }

  lemma FewerMarks(l: seq<Alloc>, s: seq<Alloc>, mark: nat)
    requires MarksBelow(l, mark) && Elements(s) <= Elements(l)
    ensures MarksBelow(s, mark)
  {
    forall a | a in s ensures a.mark <= mark || a.mark == NEW_MARK {
      assert a in Elements(s);
    }
  }

  lemma LinkedDistinct(l: seq<Alloc>)
    requires Linked(l)
    ensures forall j, k :: 0 <= j < k < |l| ==> l[j] != l[k]
  {
  }

  ghost predicate ListStaysValid(l: seq<Alloc>, keep: set<Alloc>) {
    l != [] ==>
      && l[0] in keep
      && (|l| >= 2 ==> (l[|l| - 1] in keep <==> l[|l| - 2] in keep))
  }

  lemma SurvivorsValid(l: seq<Alloc>, keep: set<Alloc>)
    requires forall j, k :: 0 <= j < k < |l| ==> l[j] != l[k]
    ensures var s := Survivors(l, keep);
      (LastAfter(l, keep) == Last(s) && (if l == [] then null else l[0]) == if s == [] then null else s[0])
        <==> ListStaysValid(l, keep)
  {
    hide Survivors, LastSoFar;
    if l != [] {
      SurvivorsFirst(l, keep);
      SurvivorsLast(l, keep);
    } else {
      NoSurvivors(keep);
    }
  }

  lemma NoSurvivors(keep: set<Alloc>)
    ensures Survivors([], keep) == [] && LastAfter([], keep) == null
  {
  }

  lemma SurvivorsLast(l: seq<Alloc>, keep: set<Alloc>)
    requires l != [] && (forall j, k :: 0 <= j < k < |l| ==> l[j] != l[k])
    ensures LastAfter(l, keep) == Last(Survivors(l, keep)) <==>
      if |l| >= 2 then l[|l| - 1] in keep <==> l[|l| - 2] in keep else l[0] in keep
  {
    hide Survivors;
    LastSurvivor(l, keep);
    if |l| >= 2 {
      LastSurvivor(l[..|l| - 1], keep);
      assert l[..|l| - 1][..|l| - 2] == l[..|l| - 2];
      NotLast(l, keep, |l| - 2, |l| - 1);
      NotLast(l, keep, |l| - 2, |l| - 2);
    } else {
      assert l[..|l| - 1] == [];
      NoSurvivors(keep);
    }
  }

  lemma LastSurvivor(l: seq<Alloc>, keep: set<Alloc>)
    requires l != []
    ensures Last(Survivors(l, keep)) == if l[|l| - 1] in keep then l[|l| - 1] else Last(Survivors(l[..|l| - 1], keep))
  {
  }

  lemma NotLast(l: seq<Alloc>, keep: set<Alloc>, n: nat, i: nat)
    requires n <= i < |l| && (forall j, k :: 0 <= j < k < |l| ==> l[j] != l[k])
    ensures Last(Survivors(l[..n], keep)) != l[i]
  {
    var m := l[..n];
    SurvivorsElements(m, keep);
    var s := Survivors(m, keep);
    if s != [] {
      assert s[|s| - 1] in Elements(s);
      assert s[|s| - 1] in Elements(m);
      var j :| 0 <= j < |m| && m[j] == s[|s| - 1];
      assert m[j] == l[j];
    }
  }

  /** The first survivor is the first of the list exactly if that one survives. */
  lemma {:induction false} SurvivorsFirst(l: seq<Alloc>, keep: set<Alloc>)
    requires l != [] && (forall j, k :: 0 <= j < k < |l| ==> l[j] != l[k])
    ensures var s := Survivors(l, keep);
      l[0] in keep <==> s != [] && s[0] == l[0]
    decreases |l|
  {
    var front := l[..|l| - 1];
    if |l| > 1 {
      SurvivorsFirst(front, keep);
      SurvivorsAre(front, keep);
    }
  }

  lemma LiveClosed(l: seq<Alloc>, roots: seq<Value>, a: Alloc, c: Alloc)
    requires Closed(Elements(l)) && a in Live(l, roots) && c in Children(a)
    ensures c in Live(l, roots)
  {
    var n: nat :| a in Within(RootSet(roots), Elements(l), n);
    assert c in AllChildren(Within(RootSet(roots), Elements(l), n) * Elements(l));
    assert c in Within(RootSet(roots), Elements(l), n + 1);
  }

  lemma StaysClosed(l: seq<Alloc>, s: seq<Alloc>, keep: set<Alloc>, roots: seq<Value>)
    requires Closed(Elements(l)) && Elements(s) == Elements(l) * keep && Live(l, roots) <= keep
    ensures Closed(Elements(s)) <==> OnlySafePointers(l, keep, Live(l, roots))
  {
    hide Live;
    forall a | a in l && a in keep ensures Whole(a, Elements(s)) <==> Safe(a, keep, a in Live(l, roots)) {
      assert Whole(a, Elements(l));
      if a in Live(l, roots) { LiveIntact(l, roots, a); }
    }
  }

  /** Of the pointers in what is kept only those to classes, and those in allocations that
      are kept merely because they are pooled, could lead to something that is not kept;
      none does. */
  ghost predicate OnlySafePointers(l: seq<Alloc>, keep: set<Alloc>, live: set<Alloc>)
    reads Elements(l)`tag, Elements(l)`car, Elements(l)`cdr, Elements(l)`data
  {
    forall a :: a in l && a in keep ==> Safe(a, keep, a in live)
  }

  /** The pointers of `a` that a collection does not care for lead into `keep`. */
  ghost predicate Safe(a: Alloc, keep: set<Alloc>, live: bool)
    reads a`tag, a`car, a`cdr, a`data
  {
    && (a.tag == ConsTag ==> SafeValue(a.car, keep, live) && SafeValue(a.cdr, keep, live))
    && (a.tag == ClosureTag || a.tag == ClassTag ==> forall k :: 0 <= k < |a.data| ==> SafeValue(a.data[k], keep, live))
  }

  predicate SafeValue(v: Value, keep: set<Alloc>, live: bool) {
    v.Pointer? && (v.tag == ClassTag || !live) ==> v.alloc in keep
  }

  lemma Absorb(alloc: Alloc, v: Value, heap: set<Alloc>, m0: set<Alloc>, m1: set<Alloc>, m: set<Alloc>, m': set<Alloc>)
    requires Closed(heap) && alloc in heap && Holds(alloc, v) && m0 <= m1 <= m <= m' <= heap
    requires forall a :: a in m - m1 ==> Reachable({alloc}, heap, a) && Children(a) <= m
    requires forall a :: a in m' - m ==> Heapp(v) && Reachable({v.alloc}, heap, a) && Children(a) <= m'
    ensures forall a :: a in m' - m1 ==> Reachable({alloc}, heap, a) && Children(a) <= m'
    ensures |m' - m0| == |m - m0| + |m' - m|
  {
    assert m' - m0 == (m - m0) + (m' - m);
    forall a | a in m' - m1 ensures Reachable({alloc}, heap, a) && Children(a) <= m' {
      if a in m' - m { ReachableChild(alloc, v.alloc, heap, a); }
    }
  }

  lemma SmallerSet(a: set<Alloc>, b: set<Alloc>)
    requires a < b
    ensures |a| < |b|
  {
    var x :| x in b && x !in a;
    SubsetSize(a, b - {x});
  }

}
