/** The run-time list routines of lisp.c and compiler.dasc on a heap of mutable
    cons cells: listp/length, merge2, deep_copy and call_list_args. */
module Cells {
  import opened Sets
  import opened Wrappers
  import opened Words

  datatype Cell = Cell(car: Word, cdr: Word)

  /** The cells a chain of cdrs visits, and the first word that is not a cons. */
  datatype Walked = Walked(addrs: seq<nat>, last: Word)

  /** Following cdrs from `w`.  `None` stands for a walk that never ends (or leaves
      the heap); `WalkComplete` shows that `fuel == |cs|` is never too little. */
  function Walk(cs: seq<Cell>, w: Word, fuel: nat): Option<Walked>
    decreases fuel
  {
    if !w.Cons? then Some(Walked([], w))
    else if fuel == 0 || w.c >= |cs| then None
    else match Walk(cs, cs[w.c].cdr, fuel - 1)
      case None => None
      case Some(r) => Some(Walked([w.c] + r.addrs, r.last))
  }

  /** `addrs` is the whole chain of cells from `w`, ending in the non-cons `last`. */
  ghost predicate Path(cs: seq<Cell>, w: Word, addrs: seq<nat>, last: Word)
    decreases |addrs|
  {
    if addrs == [] then w == last && !w.Cons?
    else w == Cons(addrs[0]) && addrs[0] < |cs| && Path(cs, cs[addrs[0]].cdr, addrs[1..], last)
  }

  predicate ProperList(cs: seq<Cell>, w: Word) {
    Walk(cs, w, |cs|).Some? && Walk(cs, w, |cs|).value.last == Nil
  }

  // ----- paths -----

  lemma {:induction false} PathAt(cs: seq<Cell>, w: Word, addrs: seq<nat>, last: Word, k: nat)
    requires Path(cs, w, addrs, last) && k < |addrs|
    ensures addrs[k] < |cs| && Path(cs, Cons(addrs[k]), addrs[k..], last)
    decreases k
  {
    if k > 0 {
      PathAt(cs, cs[addrs[0]].cdr, addrs[1..], last, k - 1);
      assert addrs[1..][k - 1..] == addrs[k..];
    }
  }

  lemma {:induction false} PathUnique(cs: seq<Cell>, w: Word, a: seq<nat>, b: seq<nat>, la: Word, lb: Word)
    requires Path(cs, w, a, la) && Path(cs, w, b, lb)
    ensures a == b && la == lb
    decreases |a|
  {
    if a != [] && b != [] {
      PathUnique(cs, cs[a[0]].cdr, a[1..], b[1..], la, lb);
      assert a == [a[0]] + a[1..] && b == [b[0]] + b[1..];
    }
  }

  /** A finite chain visits no cell twice. */
  lemma PathDistinct(cs: seq<Cell>, w: Word, addrs: seq<nat>, last: Word)
    requires Path(cs, w, addrs, last)
    ensures forall a :: a in addrs ==> a < |cs|
    ensures forall i, j :: 0 <= i < j < |addrs| ==> addrs[i] != addrs[j]
  {
    forall a | a in addrs ensures a < |cs| {
      var k :| 0 <= k < |addrs| && addrs[k] == a;
      PathAt(cs, w, addrs, last, k);
    }
    forall i, j | 0 <= i < j < |addrs| ensures addrs[i] != addrs[j] {
      if addrs[i] == addrs[j] {
        PathAt(cs, w, addrs, last, i);
        PathAt(cs, w, addrs, last, j);
        PathUnique(cs, Cons(addrs[i]), addrs[i..], addrs[j..], last, last);
        assert false;
      }
    }
  }

  ghost function UpTo(n: nat): (r: set<nat>)
    ensures |r| == n && forall i: nat :: i in r <==> i < n
  {
    if n == 0 then {} else UpTo(n - 1) + {n - 1}
  }

  lemma DistinctBound(s: seq<nat>, n: nat)
    requires forall a :: a in s ==> a < n
    requires forall i, j :: 0 <= i < j < |s| ==> s[i] != s[j]
    ensures |s| <= n
  {
    SubsetSize(Elems(s), UpTo(n));
    SetOfDistinct(s);
  }

  ghost function Elems(s: seq<nat>): (r: set<nat>)
    ensures forall a :: a in r <==> a in s
  {
    set a | a in s
  }

  lemma {:induction false} SetOfDistinct(s: seq<nat>)
    requires forall i, j :: 0 <= i < j < |s| ==> s[i] != s[j]
    ensures |Elems(s)| == |s|
  {
    if s != [] {
      var r, z := s[..|s| - 1], s[|s| - 1];
      SetOfDistinct(r);
      assert s == r + [z];
      assert Elems(s) == Elems(r) + {z};
    }
  }

  lemma {:induction false} WalkPath(cs: seq<Cell>, w: Word, fuel: nat)
    requires Walk(cs, w, fuel).Some?
    ensures Path(cs, w, Walk(cs, w, fuel).value.addrs, Walk(cs, w, fuel).value.last)
    decreases fuel
  {
    if w.Cons? {
      WalkPath(cs, cs[w.c].cdr, fuel - 1);
    }
  }

  lemma {:induction false} PathWalk(cs: seq<Cell>, w: Word, addrs: seq<nat>, last: Word, fuel: nat)
    requires Path(cs, w, addrs, last) && fuel >= |addrs|
    ensures Walk(cs, w, fuel) == Some(Walked(addrs, last))
    decreases fuel
  {
    if addrs != [] {
      PathWalk(cs, cs[addrs[0]].cdr, addrs[1..], last, fuel - 1);
      assert addrs == [addrs[0]] + addrs[1..];
    }
  }

  /** Walking with as many steps as there are cells misses no finite chain. */
  lemma WalkComplete(cs: seq<Cell>, w: Word, addrs: seq<nat>, last: Word)
    requires Path(cs, w, addrs, last)
    ensures Walk(cs, w, |cs|) == Some(Walked(addrs, last))
  {
    PathDistinct(cs, w, addrs, last);
    DistinctBound(addrs, |cs|);
    PathWalk(cs, w, addrs, last, |cs|);
  }

  /** A chain is unaffected by new cells and by changes to cells it does not visit. */
  lemma {:induction false} PathFrame(cs: seq<Cell>, cs': seq<Cell>, w: Word, addrs: seq<nat>, last: Word)
    requires Path(cs, w, addrs, last) && |cs| <= |cs'|
    requires forall a :: a in addrs && a < |cs| ==> cs'[a].cdr == cs[a].cdr
    ensures Path(cs', w, addrs, last)
    decreases |addrs|
  {
    if addrs != [] {
      assert addrs[0] in addrs;
      forall a | a in addrs[1..] && a < |cs| ensures cs'[a].cdr == cs[a].cdr {
        assert a in addrs;
      }
      PathFrame(cs, cs', cs[addrs[0]].cdr, addrs[1..], last);
    }
  }

  /** Redirecting the last cell of a nil-terminated chain appends what it now leads to. */
  lemma {:induction false} PathAppend(cs: seq<Cell>, w: Word, addrs: seq<nat>, back: Word, bs: seq<nat>, last: Word)
    requires addrs != []
    requires forall k :: 0 <= k < |addrs| ==> addrs[k] < |cs|
    requires w == Cons(addrs[0])
    requires forall k :: 0 <= k < |addrs| - 1 ==> cs[addrs[k]].cdr == Cons(addrs[k + 1])
    requires cs[addrs[|addrs| - 1]].cdr == back
    requires Path(cs, back, bs, last)
    ensures Path(cs, w, addrs + bs, last)
    decreases |addrs|
  {
    if |addrs| == 1 {
      assert (addrs + bs)[1..] == bs;
    } else {
      var rest := addrs[1..];
      forall k | 0 <= k < |rest| - 1 ensures cs[rest[k]].cdr == Cons(rest[k + 1]) {
        assert rest[k] == addrs[k + 1] && rest[k + 1] == addrs[k + 1 + 1];
      }
      PathAppend(cs, Cons(addrs[1]), rest, back, bs, last);
      assert cs[addrs[0]].cdr == Cons(addrs[0 + 1]);
      assert (addrs + bs)[1..] == rest + bs;
    }
  }

  lemma {:induction false} PathLinks(cs: seq<Cell>, w: Word, addrs: seq<nat>, last: Word)
    requires Path(cs, w, addrs, last)
    ensures forall k :: 0 <= k < |addrs| ==> addrs[k] < |cs|
    ensures forall k :: 0 <= k < |addrs| - 1 ==> cs[addrs[k]].cdr == Cons(addrs[k + 1])
    ensures addrs != [] ==> cs[addrs[|addrs| - 1]].cdr == last
    decreases |addrs|
  {
    if addrs != [] {
      var rest := addrs[1..];
      PathLinks(cs, cs[addrs[0]].cdr, rest, last);
      forall k | 0 <= k < |addrs| - 1 ensures cs[addrs[k]].cdr == Cons(addrs[k + 1]) {
        if k > 0 {
          assert cs[rest[k - 1]].cdr == Cons(rest[k - 1 + 1]);
        }
      }
      forall k | 0 <= k < |addrs| ensures addrs[k] < |cs| {
        if k > 0 { assert rest[k - 1] < |cs|; }
      }
    }
  }

  // ----- merge2 -----

  /** `merge2(front, back)`: `None` when it would not return (a cyclic argument) or
      would write through the null pointer (two non-lists). */
  function Merge2(cs: seq<Cell>, front: Word, back: Word): Option<(Word, seq<Cell>)> {
    match (Walk(cs, front, |cs|), Walk(cs, back, |cs|))
    case (Some(f), Some(b)) =>
      if f.last != Nil then
        if b.last == Nil then Some((Cons(|cs|), cs + [Cell(front, back)])) else None
      else
        var (back', cs') := if b.last == Nil then (back, cs) else (Cons(|cs|), cs + [Cell(back, Nil)]);
        if f.addrs == [] then Some((back', cs'))
        else
          var k := f.addrs[|f.addrs| - 1];
          if k < |cs'| then Some((front, cs'[k := cs'[k].(cdr := back')])) else None
    case _ => None
  }

  /** What merge2 does to two proper lists: at most one cell changes, its cdr. */
  lemma Merge2Result(cs: seq<Cell>, front: Word, back: Word, fs: seq<nat>, bs: seq<nat>)
    requires Path(cs, front, fs, Nil) && Path(cs, back, bs, Nil)
    ensures forall k :: 0 <= k < |fs| ==> fs[k] < |cs|
    ensures Merge2(cs, front, back) ==
      Some(if fs == [] then (back, cs)
           else (front, cs[fs[|fs| - 1] := cs[fs[|fs| - 1]].(cdr := back)]))
  {
    WalkComplete(cs, front, fs, Nil);
    WalkComplete(cs, back, bs, Nil);
    PathLinks(cs, front, fs, Nil);
  }

  lemma MergeApart(cs: seq<Cell>, front: Word, back: Word, fs: seq<nat>, bs: seq<nat>)
    requires Path(cs, front, fs, Nil) && Path(cs, back, bs, Nil)
    requires fs != [] && fs[|fs| - 1] < |cs| && fs[|fs| - 1] !in bs
    ensures Path(cs[fs[|fs| - 1] := cs[fs[|fs| - 1]].(cdr := back)], front, fs + bs, Nil)
  {
    var cs' := cs[fs[|fs| - 1] := cs[fs[|fs| - 1]].(cdr := back)];
    PathLinks(cs, front, fs, Nil);
    PathDistinct(cs, front, fs, Nil);
    PathFrame(cs, cs', back, bs, Nil);
    PathAppend(cs', front, fs, back, bs, Nil);
  }

  lemma MergeShared(cs: seq<Cell>, front: Word, back: Word, fs: seq<nat>, bs: seq<nat>, s: seq<nat>)
    requires Path(cs, front, fs, Nil) && Path(cs, back, bs, Nil)
    requires fs != [] && fs[|fs| - 1] < |cs| && fs[|fs| - 1] in bs
    ensures !Path(cs[fs[|fs| - 1] := cs[fs[|fs| - 1]].(cdr := back)], front, s, Nil)
  {
    var k := fs[|fs| - 1];
    var cs' := cs[k := cs[k].(cdr := back)];
    if Path(cs', front, s, Nil) {
      var j :| 0 <= j < |bs| && bs[j] == k;
      PathLinks(cs, back, bs, Nil);
      PathDistinct(cs, back, bs, Nil);
      LeadsToCycle(cs, cs', fs, back, s);
      forall i | 0 <= i < j ensures cs'[bs[i]].cdr == Cons(bs[i + 1]) {
        assert bs[i] != bs[j];
      }
      CycleHasNoEnd(cs', back, bs, j, s[|fs|..]);
    }
  }

  /** With two proper lists, the result is a proper list exactly when the last cell
      of the front list is not a cell of the back list; it is then the
      concatenation, made of the very same cells, all with their old cars. */
  lemma Merge2Concatenates(cs: seq<Cell>, front: Word, back: Word, fs: seq<nat>, bs: seq<nat>)
    requires Path(cs, front, fs, Nil) && Path(cs, back, bs, Nil)
    ensures Merge2(cs, front, back).Some?
    ensures var (r, cs') := Merge2(cs, front, back).value;
      && |cs'| == |cs|
      && (forall a :: 0 <= a < |cs| ==> cs'[a].car == cs[a].car)
      && (forall a :: 0 <= a < |cs| && (fs == [] || a != fs[|fs| - 1]) ==> cs'[a] == cs[a])
      && ((fs == [] || fs[|fs| - 1] !in bs) ==> Path(cs', r, fs + bs, Nil))
      && ((fs == [] || fs[|fs| - 1] !in bs) <==> exists s :: Path(cs', r, s, Nil))
  {
    Merge2Result(cs, front, back, fs, bs);
    if fs == [] {
      assert fs + bs == bs;
      var (r, cs') := Merge2(cs, front, back).value;
      assert Path(cs', r, bs, Nil);
      assert exists s :: Path(cs', r, s, Nil);
    } else if fs[|fs| - 1] !in bs {
      MergeApart(cs, front, back, fs, bs);
      var (r, cs') := Merge2(cs, front, back).value;
      assert Path(cs', r, fs + bs, Nil);
      assert exists s :: Path(cs', r, s, Nil);
    } else {
      var (r, cs') := Merge2(cs, front, back).value;
      forall s ensures !Path(cs', r, s, Nil) {
        MergeShared(cs, front, back, fs, bs, s);
      }
    }
  }

  /** A chain from the redirected front list passes through all of its cells first. */
  lemma LeadsToCycle(cs: seq<Cell>, cs': seq<Cell>, fs: seq<nat>, back: Word, s: seq<nat>)
    requires fs != [] && Path(cs, Cons(fs[0]), fs, Nil) && fs[|fs| - 1] < |cs|
    requires cs' == cs[fs[|fs| - 1] := cs[fs[|fs| - 1]].(cdr := back)]
    requires Path(cs', Cons(fs[0]), s, Nil)
    ensures |s| >= |fs| && Path(cs', back, s[|fs|..], Nil)
  {
    PathLinks(cs, Cons(fs[0]), fs, Nil);
    PathDistinct(cs, Cons(fs[0]), fs, Nil);
    PathLinks(cs', Cons(fs[0]), s, Nil);
    Follows(cs', fs, s, |fs| - 1);
    PathAt(cs', Cons(fs[0]), s, Nil, |fs| - 1);
    assert s[|fs| - 1..][1..] == s[|fs|..];
  }

  /** Two chains from the same cell agree as long as the links do. */
  lemma {:induction false} Follows(cs: seq<Cell>, fs: seq<nat>, s: seq<nat>, n: nat)
    requires n < |fs| && Path(cs, Cons(fs[0]), s, Nil)
    requires forall k :: 0 <= k < |fs| ==> fs[k] < |cs|
    requires forall k :: 0 <= k < n ==> cs[fs[k]].cdr == Cons(fs[k + 1])
    ensures |s| > n && s[n] == fs[n]
    decreases n
  {
    if n > 0 {
      Follows(cs, fs, s, n - 1);
      PathLinks(cs, Cons(fs[0]), s, Nil);
      assert cs[fs[n - 1]].cdr == Cons(fs[n - 1 + 1]);
      if n - 1 < |s| - 1 {
        assert cs[s[n - 1]].cdr == Cons(s[n - 1 + 1]);
      }
    }
  }

  lemma {:induction false} CycleHasNoEnd(cs: seq<Cell>, back: Word, bs: seq<nat>, j: nat, s: seq<nat>)
    requires j < |bs| && back == Cons(bs[0])
    requires forall k :: 0 <= k < |bs| ==> bs[k] < |cs|
    requires forall k :: 0 <= k < j ==> cs[bs[k]].cdr == Cons(bs[k + 1])
    requires cs[bs[j]].cdr == back
    ensures !Path(cs, back, s, Nil)
    decreases |s|
  {
    if Path(cs, back, s, Nil) {
      Follows(cs, bs, s, j);
      PathAt(cs, back, s, Nil, j);
      assert s[j..][1..] == s[j + 1..];
      CycleHasNoEnd(cs, back, bs, j, s[j + 1..]);
    }
  }

  /** Splicing changes the spliced list itself: after `(let1 (x (list 1 2)) ...)`, a
      template `(,@x 3)` leaves `x` with three elements; and splicing the same
      non-empty list twice, `(,@x ,@x)`, builds a cycle. */
  lemma SpliceCanCycle()
    ensures var cs := [Cell(Int(1), Nil)];
      exists cs' :: Merge2(cs, Cons(0), Cons(0)) == Some((Cons(0), cs'))
                 && forall s :: !Path(cs', Cons(0), s, Nil)
  {
    var cs := [Cell(Int(1), Nil)];
    assert Path(cs, Cons(0), [0], Nil) by { assert [0][1..] == []; }
    Merge2Concatenates(cs, Cons(0), Cons(0), [0], [0]);
    WalkComplete(cs, Cons(0), [0], Nil);
    var (r, cs') := Merge2(cs, Cons(0), Cons(0)).value;
    assert [0][|[0]| - 1] in [0];
    forall s ensures !Path(cs', Cons(0), s, Nil) {
      assert !Path(cs', r, s, Nil);
    }
  }
}
