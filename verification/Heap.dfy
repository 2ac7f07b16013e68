/** The binary min-heap of holes behind the kernel allocator. */
module Holes {
  /** Keys are unsigned 32-bit numbers; -1 is the largest of them. */
  datatype Entry = Entry(key: nat, address: nat)

  const HEAP_SIZE: nat := 4096
  const MINUS_ONE: nat := 0xFFFF_FFFF

  function Parent(i: nat): (p: nat)
    requires i > 0
    ensures p < i && (i == 2 * p + 1 || i == 2 * p + 2)
  {
    (i - 1) / 2
  }

  function Left(i: nat): nat { 2 * i + 1 }
  function Right(i: nat): nat { 2 * i + 2 }

  /** Min-heap order, except between `but` and its parent. */
  ghost predicate UpBut(s: seq<Entry>, but: nat) {
    && (forall j :: 0 < j < |s| && j != but ==> s[Parent(j)].key <= s[j].key)
    && (0 < but < |s| ==> forall j :: 0 < j < |s| && Parent(j) == but ==> s[Parent(but)].key <= s[j].key)
  }

  /** Min-heap order, except between `but` and its children. */
  ghost predicate DownBut(s: seq<Entry>, but: nat) {
    && (forall j :: 0 < j < |s| && Parent(j) != but ==> s[Parent(j)].key <= s[j].key)
    && (0 < but < |s| ==> forall j :: 0 < j < |s| && Parent(j) == but ==> s[Parent(but)].key <= s[j].key)
  }

  ghost predicate MinHeap(s: seq<Entry>) {
    forall j :: 0 < j < |s| ==> s[Parent(j)].key <= s[j].key
  }

  lemma UpButDone(s: seq<Entry>, i: nat)
    requires i < |s| && UpBut(s, i) && (i > 0 ==> s[Parent(i)].key <= s[i].key)
    ensures MinHeap(s)
  {
  }

  lemma UpButSmaller(s: seq<Entry>, i: nat, to: Entry)
    requires i < |s| && MinHeap(s) && to.key <= s[i].key
    ensures UpBut(s[i := to], i)
  {
    var t := s[i := to];
    forall j | 0 < j < |t| && j != i ensures t[Parent(j)].key <= t[j].key {
      assert s[Parent(j)].key <= s[j].key;
    }
    if i > 0 {
      forall j | 0 < j < |t| && Parent(j) == i ensures t[Parent(i)].key <= t[j].key {
        assert s[Parent(i)].key <= s[i].key && s[Parent(j)].key <= s[j].key;
      }
    }
  }

  /** Keys fit into 32 bits. */
  predicate Words32(s: seq<Entry>) {
    forall j :: 0 <= j < |s| ==> s[j].key <= MINUS_ONE
  }

  /** The root is a minimum. */
  lemma {:induction false} RootSmallest(s: seq<Entry>, i: nat)
    requires MinHeap(s) && i < |s|
    ensures s[0].key <= s[i].key
    decreases i
  {
    if i > 0 { RootSmallest(s, Parent(i)); }
  }

  function Swapped(s: seq<Entry>, i: nat, j: nat): (r: seq<Entry>)
    requires i < |s| && j < |s|
    ensures |r| == |s|
  {
    s[i := s[j]][j := s[i]]
  }

  lemma SwapKeeps(s: seq<Entry>, i: nat, j: nat)
    requires i < |s| && j < |s|
    ensures multiset(Swapped(s, i, j)) == multiset(s) && Swapped(s, i, j)[j] == s[i]
  {
  }

  /** Swapping a too small entry with its parent moves the fault up. */
  lemma SwapUp(s: seq<Entry>, i: nat)
    requires 0 < i < |s| && UpBut(s, i) && s[Parent(i)].key > s[i].key
    ensures UpBut(Swapped(s, i, Parent(i)), Parent(i))
  {
    var (p, t) := (Parent(i), Swapped(s, i, Parent(i)));
    forall j | 0 < j < |t| && j != p ensures t[Parent(j)].key <= t[j].key {
      assert j != i ==> s[Parent(j)].key <= s[j].key;
    }
  }

  /** Swapping a too large entry with its smallest child moves the fault down. */
  lemma SwapDown(s: seq<Entry>, i: nat, c: nat)
    requires i < c < |s| && Parent(c) == i && DownBut(s, i) && s[c].key < s[i].key
    requires forall j :: 0 < j < |s| && Parent(j) == i ==> s[c].key <= s[j].key
    ensures DownBut(Swapped(s, i, c), c)
  {
    var t := Swapped(s, i, c);
    forall j | 0 < j < |t| && Parent(j) != c ensures t[Parent(j)].key <= t[j].key {
      if Parent(j) != i && j != i { assert s[Parent(j)].key <= s[j].key; }
    }
  }

  /** The size after heap_delete_root: right exactly if there was not just one entry. */
  function SizeAfter(size: nat): (r: nat)
    ensures size != 1 <==> r == if size == 0 then 0 else size - 1
  {
    if size == 0 then 0 else if size == 1 then MINUS_ONE else size - 1
  }

  class Heap {
    const elements: array<Entry>
    var size: nat

    ghost predicate Valid()
      reads this, elements
    {
      elements.Length == HEAP_SIZE && size <= HEAP_SIZE
    }

    /** The entries in use. */
    ghost function View(): seq<Entry>
      requires Valid()
      reads this, elements
    {
      elements[..size]
    }

    constructor ()
      ensures Valid() && View() == []
    {
      elements := new Entry[HEAP_SIZE](_ => Entry(0, 0));
      size := 0;
    }

    method SwapEntries(i: nat, j: nat)
      requires Valid() && i < size && j < size
      modifies elements
      ensures Valid() && View() == Swapped(old(View()), i, j)
    {
      elements[i], elements[j] := elements[j], elements[i];
      assert elements[..size] == Swapped(old(View()), i, j);
    }

    /** heap_sort: sifts down from `i`. */
    method HeapSort(i: nat)
      requires Valid() && i < size
      modifies elements
      ensures Valid() && multiset(View()) == multiset(old(View()))
      ensures old(DownBut(View(), i)) ==> MinHeap(View())
      decreases size - i
    {
      var l, r, smallest := Left(i), Right(i), i;
      ghost var s := View();
      if l < size && elements[l].key < elements[smallest].key {
        smallest := l;
      }
      if r < size && elements[r].key < elements[smallest].key {
        smallest := r;
      }
      assert forall j :: 0 < j < |s| && Parent(j) == i ==> s[smallest].key <= s[j].key by {
        forall j | 0 < j < |s| && Parent(j) == i ensures s[smallest].key <= s[j].key { assert j == l || j == r; }
      }
      if smallest != i {
        if DownBut(s, i) { SwapDown(s, i, smallest); }
        SwapKeeps(s, i, smallest);
        SwapEntries(i, smallest);
        HeapSort(smallest);
      }
    }

    /** The loop that heap_insert and heap_decrease share: sifts up from `at`. */
    method SiftUp(at: nat)
      requires Valid() && at < size
      modifies elements
      ensures Valid() && multiset(View()) == multiset(old(View()))
      ensures old(UpBut(View(), at)) ==> MinHeap(View())
      ensures at == 0 || old(View()[Parent(at)].key <= View()[at].key) ==> View() == old(View())
    {
      hide UpBut, MinHeap, Swapped;
      var i: nat := at;
      var k := elements[at].key;
      while i > 0 && elements[Parent(i)].key > k
        invariant i < size && View()[i].key == k && multiset(View()) == multiset(old(View()))
        invariant old(UpBut(View(), at)) ==> UpBut(View(), i)
        invariant at == 0 || old(View()[Parent(at)].key <= View()[at].key) ==> View() == old(View()) && i == at
      {
        if UpBut(View(), i) { SwapUp(View(), i); }
        SwapKeeps(View(), i, Parent(i));
        SwapEntries(i, Parent(i));
        i := Parent(i);
      }
      if UpBut(View(), i) { UpButDone(View(), i); }
    }

    /** heap_insert; `panicked` stands for the failed assertion that there is room. */
    method HeapInsert(e: Entry) returns (panicked: bool)
      requires Valid() && MinHeap(View())
      modifies this, elements
      ensures Valid() && MinHeap(View()) && panicked == (old(size) == HEAP_SIZE)
      ensures multiset(View()) == if panicked then multiset(old(View())) else multiset(old(View())) + multiset{e}
    {
      if size >= HEAP_SIZE {
        return true;
      }
      ghost var s := View();
      var i := size;
      size := size + 1;
      elements[i] := e;
      assert View() == s + [e];
      SiftUp(i);
      panicked := false;
    }

    /** heap_decrease: order is kept if the key does not grow. */
    method HeapDecrease(i: nat, to: Entry)
      requires Valid() && i < size
      modifies elements
      ensures Valid() && (old(MinHeap(View())) && to.key <= old(View())[i].key ==> MinHeap(View()))
      ensures multiset(View()) == multiset(old(View())) - multiset{old(View())[i]} + multiset{to}
      ensures i == 0 || old(View())[Parent(i)].key <= to.key ==> View() == old(View())[i := to]
    {
      hide UpBut, MinHeap;
      ghost var s := View();
      elements[i] := to;
      assert View() == s[i := to];
      if MinHeap(s) && to.key <= s[i].key { UpButSmaller(s, i, to); }
      SiftUp(i);
    }

    /** heap_delete_root.  `size` is an unsigned 32-bit number: with exactly one entry it is
        counted down twice and wraps around, and what lies before the array (`outside`) is
        copied into the root.  heap_sort then sees the size -1 and does nothing. */
    method HeapDeleteRoot(outside: Entry)
      requires Valid()
      modifies this, elements
      ensures size == SizeAfter(old(size)) && (Valid() <==> old(size) != 1)
      ensures old(size) >= 2 && old(DownBut(View(), 0)) ==> MinHeap(View())
      ensures old(size) >= 2 ==> multiset(View()) == multiset(old(View())) - multiset{old(View())[0]}
      ensures old(size) == 0 ==> View() == old(View())
    {
      hide DownBut, MinHeap;
      ghost var s := View();
      if size <= 0 {
        return;
      }
      if size == 1 {
        size := size - 1;
      }
      size := if size == 0 then MINUS_ONE else size - 1;
      elements[0] := if size < elements.Length then elements[size] else outside;
      if size < elements.Length {
        RootReplaced(s, View());
        HeapSort(0);
      }
    }

    /** heap_delete.  See `DeletesNamed` for what it removes; at index 0 the order is kept. */
    method HeapDelete(i: nat, outside: Entry)
      requires Valid() && i < size && Words32(View())
      modifies this, elements
      ensures size == SizeAfter(old(size)) && (Valid() <==> old(size) >= 2)
      ensures old(size) >= 2 ==> multiset(View()) == AfterDelete(old(View()), i)
      ensures old(size) >= 2 && i == 0 && old(MinHeap(View())) ==> MinHeap(View())
    {
      HeapDecrease(i, Entry(MINUS_ONE, 0));
      HeapDeleteRoot(outside);
    }

    /** heap_lookup_min without deletion: walks to the smaller child until a key is large
        enough. */
    method HeapLookupMin(min: nat) returns (ok: bool, j: nat)
      requires Valid()
      ensures ok == (j < size) && j == Walk(View(), min, 0)
      ensures ok ==> View()[j].key >= min && (j == 0 || View()[Parent(j)].key < min)
      ensures size == 0 ==> !ok
      ensures size > 0 && MinHeap(View()) ==> (ok <==> View()[PathEnd(View(), 0)].key >= min)
    {
      if size > 0 && MinHeap(View()) { LookupFinds(View(), min, 0); }
      j := 0;
      while j < size && elements[j].key < min
        invariant j == 0 || (Parent(j) < size && View()[Parent(j)].key < min)
        invariant Walk(View(), min, 0) == Walk(View(), min, j)
        decreases size - j
      {
        var left, right := Left(j), Right(j);
        if left >= size {
          j := right;
        } else if right >= size {
          j := left;
        } else {
          j := if elements[left].key < elements[right].key then left else right;
        }
      }
      ok := j < size;
    }
  }

  lemma RootReplaced(s: seq<Entry>, t: seq<Entry>)
    requires |s| >= 2 && |t| == |s| - 1
    requires t[0] == s[|s| - 1] && forall j :: 0 < j < |t| ==> t[j] == s[j]
    ensures DownBut(s, 0) ==> DownBut(t, 0)
    ensures multiset(t) == multiset(s) - multiset{s[0]}
  {
    var mid := s[1..|s| - 1];
    assert s == [s[0]] + mid + [s[|s| - 1]];
    assert t == [s[|s| - 1]] + mid;
  }

  /** The child that heap_lookup_min goes on with. */
  function Smaller(s: seq<Entry>, j: nat): (c: nat)
    ensures c == Left(j) || c == Right(j)
  {
    if Left(j) >= |s| then Right(j) else if Right(j) >= |s| then Left(j)
    else if s[Left(j)].key < s[Right(j)].key then Left(j) else Right(j)
  }

  /** Where the walk of heap_lookup_min ends; behind the end it found nothing. */
  function Walk(s: seq<Entry>, min: nat, j: nat): nat
    decreases |s| - j
  {
    if j >= |s| || s[j].key >= min then j else Walk(s, min, Smaller(s, j))
  }

  /** The leaf at the end of the path of smaller children, whatever is looked for. */
  function PathEnd(s: seq<Entry>, j: nat): (e: nat)
    requires j < |s|
    ensures e < |s|
    decreases |s| - j
  {
    if Smaller(s, j) >= |s| then j else PathEnd(s, Smaller(s, j))
  }

  /** In an ordered heap the walk finds an entry if and only if that leaf is large enough. */
  lemma {:induction false} LookupFinds(s: seq<Entry>, min: nat, j: nat)
    requires MinHeap(s) && j < |s|
    ensures Walk(s, min, j) < |s| <==> s[PathEnd(s, j)].key >= min
    ensures s[j].key <= s[PathEnd(s, j)].key
    decreases |s| - j
  {
    var c := Smaller(s, j);
    if c < |s| {
      assert Parent(c) == j;
      LookupFinds(s, min, c);
    }
  }

  /** So it can miss entries that are large enough but not on that path. */
  lemma WalkMisses()
    ensures var s := [Entry(1, 0), Entry(2, 0), Entry(9, 0)];
      MinHeap(s) && Walk(s, 5, 0) >= |s| && s[2].key >= 5
  {
    var s := [Entry(1, 0), Entry(2, 0), Entry(9, 0)];
    assert PathEnd(s, 0) == 1;
    LookupFinds(s, 5, 0);
  }

  // ----- heap_delete in general -----

  /** What heap_delete does to the entries: key -1 is the largest, so "decreasing" to it
      leaves the entry in place, and then the root goes. */
  function AfterDelete(s: seq<Entry>, i: nat): multiset<Entry>
    requires i < |s|
  {
    var t := s[i := Entry(MINUS_ONE, 0)];
    multiset(t) - multiset{t[0]}
  }

  /** Deleting any other entry takes the root out, and leaves in the place of the entry one
      with the largest 32-bit key. */
  lemma DeletesRoot(s: seq<Entry>, i: nat)
    requires 0 < i < |s|
    ensures AfterDelete(s, i) + multiset{s[0], s[i]} == multiset(s) + multiset{Entry(0xFFFF_FFFF, 0)}
  {
    var t := s[i := Entry(0xFFFF_FFFF, 0)];
    Updated(s, i, Entry(0xFFFF_FFFF, 0));
    WithoutFirst(t);
    assert t[0] == s[0];
  }

  lemma Updated(s: seq<Entry>, i: nat, x: Entry)
    requires i < |s|
    ensures multiset(s[i := x]) + multiset{s[i]} == multiset(s) + multiset{x}
  {
    assert s == s[..i] + [s[i]] + s[i + 1..] && s[i := x] == s[..i] + [x] + s[i + 1..];
  }

  lemma WithoutFirst(s: seq<Entry>)
    requires s != []
    ensures multiset(s) - multiset{s[0]} + multiset{s[0]} == multiset(s)
  {
    assert s[0] in s;
  }

  /** The named entry is what is gone if and only if it is the root, or the root already
      is the entry that heap_delete puts in. */
  lemma DeletesNamed(s: seq<Entry>, i: nat)
    requires i < |s|
    ensures AfterDelete(s, i) == multiset(s) - multiset{s[i]} <==> i == 0 || s[0] == Entry(MINUS_ONE, 0)
  {
    var x := Entry(MINUS_ONE, 0);
    var rest := multiset(s) - multiset{s[i]};
    assert multiset(s[i := x]) == rest + multiset{x};
    if i > 0 {
      OtherStays(s, i);
      AddRemove(rest, x, s[0]);
    } else {
      assert rest + multiset{x} - multiset{x} == rest;
    }
  }

  lemma OtherStays(s: seq<Entry>, i: nat)
    requires 0 < i < |s|
    ensures s[0] in multiset(s) - multiset{s[i]}
  {
    assert s == [s[0]] + s[1..i] + [s[i]] + s[i + 1..];
    assert multiset(s) - multiset{s[i]} == multiset{s[0]} + multiset(s[1..i]) + multiset(s[i + 1..]);
  }

  lemma AddRemove(rest: multiset<Entry>, x: Entry, y: Entry)
    ensures rest + multiset{x} - multiset{y} == rest <==> x == y
  {
    if x == y {
      assert rest + multiset{x} - multiset{y} == rest;
    } else {
      assert (rest + multiset{x} - multiset{y})[x] == rest[x] + 1;
    }
  }
}
