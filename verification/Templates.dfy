/** What backquote builds: the template with the values put in, as structures. */
module Templates {
  import opened Wrappers
  import opened Sexps
  import opened Words
  import opened Cells
  import opened CallList
  import opened Scopes
  import opened Codegen
  import opened Machine
  import opened Source

  // ----- the specification -----

  /** The structure of a literal form. */
  function Literal(v: Sexp): Tree {
    match v
    case SNil => TNil
    case SInt(i) => TInt(i)
    case SSym(s) => TSym(s)
    case SStr(s) => TStr(s)
    case SCons(_, a, d) => TCons(Literal(a), Literal(d))
  }

  predicate Proper(t: Tree) { t.TNil? || (t.TCons? && Proper(t.cdr)) }

  function Append(front: Tree, back: Tree): Tree {
    if front.TCons? then TCons(front.car, Append(front.cdr, back)) else back
  }

  /** A spliced list is concatenated, anything else becomes one element. */
  function Splice(front: Tree, back: Tree): Tree {
    if Proper(front) then Append(front, back) else TCons(front, back)
  }

  /** The number of unquotes and splices in a template. */
  function Holes(val: Sexp): nat
    decreases Size(val), 1
  {
    if !Listp(val) then 0 else if SymStrEq(Car(val), "unquote") then 1 else HolesIn(val)
  }

  function HolesIn(items: Sexp): nat
    decreases Size(items), 0
  {
    if !items.SCons? then 0
    else (if IsSplice(items.car) then 1 else Holes(items.car)) + HolesIn(items.cdr)
  }

  /** The template with the structures `ts` in place of its unquotes and splices, in the
      order of the text. */
  function Fill(val: Sexp, ts: seq<Tree>): Tree
    requires |ts| == Holes(val)
    decreases Size(val), 1
  {
    if !Listp(val) then Literal(val) else if SymStrEq(Car(val), "unquote") then ts[0] else FillItems(val, ts)
  }

  function FillItems(items: Sexp, ts: seq<Tree>): Tree
    requires |ts| == HolesIn(items)
    decreases Size(items), 0
  {
    if !items.SCons? then TNil
    else if IsSplice(items.car) then Splice(ts[0], FillItems(items.cdr, ts[1..]))
    else var n := Holes(items.car); TCons(Fill(items.car, ts[..n]), FillItems(items.cdr, ts[n..]))
  }

  // ----- structures in the cells -----

  // In a template a closure is a leaf: what is inserted is the very closure.

  predicate InHeap(cs: seq<Cell>, w: Word) { w.Cons? ==> w.c < |cs| }

  /** No cell holds a dangling cons pointer. */
  predicate Closed(cs: seq<Cell>) {
    forall a :: 0 <= a < |cs| ==> InHeap(cs, cs[a].car) && InHeap(cs, cs[a].cdr)
  }

  lemma {:induction false} LeavesGrow(cs: seq<Cell>, cs': seq<Cell>, w: Word, fuel: nat)
    requires cs <= cs' && Closed(cs) && InHeap(cs, w)
    ensures TreeOf(Flat(cs'), w, fuel) == TreeOf(Flat(cs), w, fuel)
    decreases fuel
  {
    if w.Cons? && fuel > 0 {
      LeavesGrow(cs, cs', cs[w.c].car, fuel - 1);
      LeavesGrow(cs, cs', cs[w.c].cdr, fuel - 1);
    }
  }

  lemma StaysSame(cs: seq<Cell>, cs': seq<Cell>, w: Word)
    requires cs <= cs' && Closed(cs) && InHeap(cs, w) && Structure(Flat(cs), w).Some?
    ensures Structure(Flat(cs'), w) == Structure(Flat(cs), w)
  {
    LeavesGrow(cs, cs', w, |cs|);
    TreeComplete(Flat(cs'), w, |cs|);
  }

  // ----- merge2 on structures -----

  /** Cell `k` is part of the structure of `w`. */
  predicate Occurs(cs: seq<Cell>, k: nat, w: Word, fuel: nat)
    decreases fuel
  {
    w.Cons? && (w.c == k || (fuel > 0 && w.c < |cs|
                             && (Occurs(cs, k, cs[w.c].car, fuel - 1) || Occurs(cs, k, cs[w.c].cdr, fuel - 1))))
  }

  /** Relinking a cell does not change a structure that the cell is not part of. */
  lemma {:induction false} TreeUntouched(cs: seq<Cell>, cs': seq<Cell>, k: nat, w: Word, fuel: nat)
    requires !Occurs(cs, k, w, fuel) && |cs| <= |cs'|
    requires forall a :: 0 <= a < |cs| && a != k ==> cs'[a] == cs[a]
    requires TreeOf(Flat(cs), w, fuel).Some?
    ensures TreeOf(Flat(cs'), w, fuel) == TreeOf(Flat(cs), w, fuel)
    decreases fuel
  {
    if w.Cons? {
      TreeUntouched(cs, cs', k, cs[w.c].car, fuel - 1);
      TreeUntouched(cs, cs', k, cs[w.c].cdr, fuel - 1);
    }
  }

  /** Linking a longer list behind `k` makes every structure larger that `k` is part of. */
  lemma {:induction false} TreeLarger(cs: seq<Cell>, cs': seq<Cell>, k: nat, w: Word, f: nat, g: nat)
    requires |cs'| == |cs| && k < |cs| && cs[k].cdr == Nil && cs' == cs[k := cs[k].(cdr := cs'[k].cdr)]
    requires cs'[k].cdr.Cons?
    requires TreeOf(Flat(cs), w, f).Some? && TreeOf(Flat(cs'), w, g).Some?
    ensures TreeSize(TreeOf(Flat(cs'), w, g).value) >= TreeSize(TreeOf(Flat(cs), w, f).value)
    ensures Occurs(cs, k, w, f) ==> TreeSize(TreeOf(Flat(cs'), w, g).value) > TreeSize(TreeOf(Flat(cs), w, f).value)
    decreases f
  {
    if w.Cons? {
      TreeLarger(cs, cs', k, cs[w.c].car, f - 1, g - 1);
      if w.c != k { TreeLarger(cs, cs', k, cs[w.c].cdr, f - 1, g - 1); }
    }
  }

  /** A structure is larger than what hangs on one of its cells. */
  lemma {:induction false} OccursLarger(cs: seq<Cell>, cs': seq<Cell>, k: nat, w: Word, f: nat, g: nat) returns (e: nat)
    requires |cs'| == |cs| && k < |cs| && cs[k].cdr == Nil && cs' == cs[k := cs[k].(cdr := cs'[k].cdr)]
    requires Occurs(cs, k, w, f) && TreeOf(Flat(cs), w, f).Some? && TreeOf(Flat(cs'), w, g).Some?
    ensures TreeOf(Flat(cs'), cs'[k].cdr, e).Some?
    ensures TreeSize(TreeOf(Flat(cs'), cs'[k].cdr, e).value) < TreeSize(TreeOf(Flat(cs'), w, g).value)
    decreases f
  {
    if w.c == k { e := g - 1; }
    else if Occurs(cs, k, cs[w.c].car, f - 1) { e := OccursLarger(cs, cs', k, cs[w.c].car, f - 1, g - 1); }
    else { e := OccursLarger(cs, cs', k, cs[w.c].cdr, f - 1, g - 1); }
  }

  /** A word with a structure is a finite chain, and a list if the structure is one. */
  lemma {:induction false} TreeWalk(cs: seq<Cell>, w: Word, fuel: nat)
    requires TreeOf(Flat(cs), w, fuel).Some?
    ensures Walk(cs, w, fuel).Some?
    ensures Walk(cs, w, fuel).value.last == Nil <==> Proper(TreeOf(Flat(cs), w, fuel).value)
    decreases fuel
  {
    if w.Cons? { TreeWalk(cs, cs[w.c].cdr, fuel - 1); }
  }

  /** The last cell of the chain `fs` is part of none of its elements. */
  predicate OwnLast(cs: seq<Cell>, fs: seq<nat>, k: nat) {
    forall i :: 0 <= i < |fs| ==> fs[i] < |cs| && !Occurs(cs, k, cs[fs[i]].car, |cs|)
  }

  /** When merging cannot go wrong: nothing is relinked, nothing is linked, or the cell
      that is relinked is part neither of what it is linked to nor of an element. */
  predicate Mergeable(cs: seq<Cell>, front: Word, back: Word) {
    var f := Walk(cs, front, |cs|);
    f.Some? && (f.value.last != Nil || back == Nil || f.value.addrs == [] ||
                var k := f.value.addrs[|f.value.addrs| - 1];
                !Occurs(cs, k, back, |cs|) && OwnLast(cs, f.value.addrs, k))
  }

  /** `cs'` is `cs` with `back` linked behind the last cell of the proper list `fs`. */
  ghost predicate Relinked(cs: seq<Cell>, cs': seq<Cell>, w: Word, fs: seq<nat>, back: Word) {
    && Path(cs, w, fs, Nil) && fs != [] && (forall i :: 0 <= i < |fs| ==> fs[i] < |cs|)
    && cs[fs[|fs| - 1]].cdr == Nil && cs' == cs[fs[|fs| - 1] := cs[fs[|fs| - 1]].(cdr := back)]
  }

  lemma RelinkedTail(cs: seq<Cell>, cs': seq<Cell>, w: Word, fs: seq<nat>, back: Word)
    requires Relinked(cs, cs', w, fs, back)
    ensures fs != [] && w == Cons(fs[0]) && |cs'| == |cs| && (forall i :: 0 <= i < |fs| ==> fs[i] < |cs|)
    ensures cs'[fs[0]].car == cs[fs[0]].car
    ensures |fs| > 1 ==> Relinked(cs, cs', cs[fs[0]].cdr, fs[1..], back) && cs'[fs[0]] == cs[fs[0]]
    ensures |fs| == 1 ==> cs[fs[0]].cdr == Nil && cs'[fs[0]].cdr == back
  {
    PathDistinct(cs, w, fs, Nil);
  }

  /** The relinked list stands for the concatenation. */
  lemma {:induction false} SplicedTree(cs: seq<Cell>, cs': seq<Cell>, w: Word, fs: seq<nat>, back: Word, f: nat, e: nat)
    requires Relinked(cs, cs', w, fs, back) && TreeOf(Flat(cs), w, f).Some? && TreeOf(Flat(cs'), back, e).Some?
    requires OwnLast(cs, fs, fs[|fs| - 1])
    ensures TreeOf(Flat(cs'), w, |fs| + |cs| + e) == Some(Append(TreeOf(Flat(cs), w, f).value,
        TreeOf(Flat(cs'), back, e).value))
    decreases |fs|
  {
    RelinkedTail(cs, cs', w, fs, back);
    var car, m := cs[fs[0]].car, |fs| + |cs| + e;
    TreeComplete(Flat(cs), car, f - 1);
    TreeUntouched(cs, cs', fs[|fs| - 1], car, |cs|);
    TreeMore(Flat(cs'), car, |cs|, m - 1);
    if |fs| > 1 {
      SplicedTree(cs, cs', cs[fs[0]].cdr, fs[1..], back, f - 1, e);
    } else {
      TreeMore(Flat(cs'), back, e, m - 1);
    }
  }

  /** If the relinked list stands for anything, so does what was linked, and the whole is
      larger than the concatenation if an element was changed. */
  lemma {:induction false} SplicedLarger(cs: seq<Cell>, cs': seq<Cell>, w: Word, fs: seq<nat>, back: Word, f: nat,
                                         g: nat) returns (e: nat)
    requires Relinked(cs, cs', w, fs, back) && back.Cons? && TreeOf(Flat(cs), w, f).Some?
    requires TreeOf(Flat(cs'), w, g).Some?
    requires Structure(Flat(cs), back).Some?
    ensures TreeOf(Flat(cs'), back, e).Some?
    ensures var (t, t') := (Append(TreeOf(Flat(cs), w, f).value, Structure(Flat(cs), back).value),
                            TreeOf(Flat(cs'), w, g).value);
      TreeSize(t') >= TreeSize(t) && (!OwnLast(cs, fs, fs[|fs| - 1]) ==> TreeSize(t') > TreeSize(t))
    decreases |fs|
  {
    hide TreeOf, Structure, Occurs, OwnLast, Relinked;
    RelinkedTail(cs, cs', w, fs, back);
    var k, car := fs[|fs| - 1], cs[fs[0]].car;
    ConsTree(cs, fs[0], f);
    ConsTree(cs', fs[0], g);
    OwnLastStep(cs, fs, k);
    TreeComplete(Flat(cs), car, f - 1);
    LinkedLarger(cs, cs', w, fs, back, car, f - 1, g - 1);
    if |fs| > 1 {
      e := SplicedLarger(cs, cs', cs[fs[0]].cdr, fs[1..], back, f - 1, g - 1);
    } else {
      e := g - 1;
      assert TreeOf(Flat(cs), Nil, f - 1) == Some(TNil) by { NilTree(cs, f - 1); }
      BackLarger(cs, cs', w, fs, back, e);
    }
  }

  lemma NilTree(cs: seq<Cell>, f: nat)
    ensures TreeOf(Flat(cs), Nil, f) == Some(TNil)
  {
  }

  lemma ConsTree(cs: seq<Cell>, c: nat, f: nat)
    requires TreeOf(Flat(cs), Cons(c), f).Some?
    ensures f > 0 && c < |cs| && TreeOf(Flat(cs), cs[c].car, f - 1).Some? && TreeOf(Flat(cs), cs[c].cdr, f - 1).Some?
    ensures TreeOf(Flat(cs), Cons(c), f).value ==
      TCons(TreeOf(Flat(cs), cs[c].car, f - 1).value, TreeOf(Flat(cs), cs[c].cdr, f - 1).value)
  {
  }

  lemma OwnLastStep(cs: seq<Cell>, fs: seq<nat>, k: nat)
    requires fs != [] && fs[0] < |cs| && forall i :: 0 <= i < |fs| ==> fs[i] < |cs|
    ensures OwnLast(cs, fs, k) <==> !Occurs(cs, k, cs[fs[0]].car, |cs|) && OwnLast(cs, fs[1..], k)
    ensures |fs| == 1 ==> OwnLast(cs, fs[1..], k)
  {
    hide Occurs;
    assert forall i :: 1 <= i < |fs| ==> fs[i] == fs[1..][i - 1];
  }

  /** An element can only become larger by relinking, and does if it was changed. */
  lemma LinkedLarger(cs: seq<Cell>, cs': seq<Cell>, w: Word, fs: seq<nat>, back: Word, car: Word, f: nat, g: nat)
    requires Relinked(cs, cs', w, fs, back) && back.Cons?
    requires TreeOf(Flat(cs), car, f).Some? && TreeOf(Flat(cs), car, |cs|) == TreeOf(Flat(cs), car, f)
    requires TreeOf(Flat(cs'), car, g).Some?
    ensures var (n, n') := (TreeSize(TreeOf(Flat(cs), car, f).value), TreeSize(TreeOf(Flat(cs'), car, g).value));
      n' >= n && (Occurs(cs, fs[|fs| - 1], car, |cs|) ==> n' > n)
  {
    hide TreeOf, Occurs, TreeSize;
    TreeLarger(cs, cs', fs[|fs| - 1], car, |cs|, g);
  }

  lemma BackLarger(cs: seq<Cell>, cs': seq<Cell>, w: Word, fs: seq<nat>, back: Word, g: nat)
    requires Relinked(cs, cs', w, fs, back) && back.Cons? && Structure(Flat(cs), back).Some?
    requires TreeOf(Flat(cs'), back, g).Some?
    ensures TreeSize(TreeOf(Flat(cs'), back, g).value) >= TreeSize(Structure(Flat(cs), back).value)
  {
    hide TreeOf, Occurs, TreeSize;
    TreeLarger(cs, cs', fs[|fs| - 1], back, |cs|, g);
  }

  lemma ConsedStructure(cs: seq<Cell>, a: Word, d: Word)
    requires Closed(cs) && InHeap(cs, a) && InHeap(cs, d) && Structure(Flat(cs), a).Some?
    requires Structure(Flat(cs), d).Some?
    ensures Closed(cs + [Cell(a, d)])
    ensures Structure(Flat(cs + [Cell(a, d)]), Cons(|cs|)) ==
      Some(TCons(Structure(Flat(cs), a).value, Structure(Flat(cs), d).value))
  {
    LeavesGrow(cs, cs + [Cell(a, d)], a, |cs|);
    LeavesGrow(cs, cs + [Cell(a, d)], d, |cs|);
  }

  lemma {:induction false} AppendNil(t: Tree)
    requires Proper(t)
    ensures Append(t, TNil) == t
  {
    if t.TCons? { AppendNil(t.cdr); }
  }

  lemma {:induction false} SpliceProper(front: Tree, back: Tree)
    requires Proper(back)
    ensures Proper(Append(front, back)) && Proper(Splice(front, back))
  {
    if front.TCons? { SpliceProper(front.cdr, back); }
  }

  lemma ListSpliced(cs: seq<Cell>, cs': seq<Cell>, front: Word, fs: seq<nat>, back: Word)
    requires Relinked(cs, cs', front, fs, back) && back.Cons? && Structure(Flat(cs), front).Some?
    requires Structure(Flat(cs), back).Some?
    ensures !Occurs(cs, fs[|fs| - 1], back, |cs|) && OwnLast(cs, fs, fs[|fs| - 1]) <==>
      Structure(Flat(cs'), front) == Some(Append(Structure(Flat(cs), front).value, Structure(Flat(cs), back).value))
  {
    hide TreeOf, Occurs;
    var k := fs[|fs| - 1];
    if !Occurs(cs, k, back, |cs|) && OwnLast(cs, fs, k) {
      TreeUntouched(cs, cs', k, back, |cs|);
      SplicedTree(cs, cs', front, fs, back, |cs|, |cs|);
      TreeComplete(Flat(cs'), front, |fs| + |cs| + |cs|);
    } else if Structure(Flat(cs'), front) ==
              Some(Append(Structure(Flat(cs), front).value, Structure(Flat(cs), back).value)) {
      var g := SplicedLarger(cs, cs', front, fs, back, |cs|, |cs|);
      if Occurs(cs, k, back, |cs|) {
        var e := OccursLarger(cs, cs', k, back, |cs|, g);
        TreeFuel(Flat(cs'), back, e, g);
      }
    }
  }

  /** merge2 with a proper list at the back. */
  lemma MergeParts(cs: seq<Cell>, front: Word, back: Word) returns (f: Walked)
    requires Structure(Flat(cs), front).Some? && Structure(Flat(cs), back).Some?
    requires Proper(Structure(Flat(cs), back).value)
    ensures Walk(cs, front, |cs|) == Some(f) && (f.last == Nil <==> Proper(Structure(Flat(cs), front).value))
    ensures Path(cs, front, f.addrs, f.last) && forall i :: 0 <= i < |f.addrs| ==> f.addrs[i] < |cs|
    ensures Merge2(cs, front, back) == Some(
      if f.last != Nil then (Cons(|cs|), cs + [Cell(front, back)])
      else if f.addrs == [] then (back, cs)
      else (front, cs[f.addrs[|f.addrs| - 1] := cs[f.addrs[|f.addrs| - 1]].(cdr := back)]))
  {
    hide Occurs, TreeOf, Path, Proper;
    TreeWalk(cs, front, |cs|);
    TreeWalk(cs, back, |cs|);
    WalkPath(cs, front, |cs|);
    f := Walk(cs, front, |cs|).value;
    PathLinks(cs, front, f.addrs, f.last);
  }

  /** merge2 on structures.  It makes the concatenation if and only if the lists are
      `Mergeable`: splicing a list that is still in use elsewhere in the result does not. */
  lemma MergeSplices(cs: seq<Cell>, front: Word, back: Word)
    requires Closed(cs) && InHeap(cs, front) && InHeap(cs, back) && Structure(Flat(cs), front).Some?
    requires Structure(Flat(cs), back).Some?
    requires Proper(Structure(Flat(cs), back).value)
    ensures Merge2(cs, front, back).Some?
    ensures var (r, cs') := Merge2(cs, front, back).value;
      Mergeable(cs, front, back) <==>
        Structure(Flat(cs'), r) == Some(Splice(Structure(Flat(cs), front).value, Structure(Flat(cs), back).value))
  {
    hide Occurs, Structure, Merge2, Walk, OwnLast, Append, Proper, Path;
    var f := MergeParts(cs, front, back);
    if f.last != Nil {
      ConsedStructure(cs, front, back);
    } else if f.addrs == [] {
      AppendToNil(cs, front, back);
    } else {
      MergeLinked(cs, front, f.addrs, back);
    }
  }

  lemma AppendToNil(cs: seq<Cell>, front: Word, back: Word)
    requires Path(cs, front, [], Nil) && Structure(Flat(cs), back).Some?
    ensures Structure(Flat(cs), front) == Some(TNil)
    ensures Append(TNil, Structure(Flat(cs), back).value) == Structure(Flat(cs), back).value
  {
  }

  lemma MergeLinked(cs: seq<Cell>, front: Word, fs: seq<nat>, back: Word)
    requires Path(cs, front, fs, Nil) && fs != [] && (forall i :: 0 <= i < |fs| ==> fs[i] < |cs|)
    requires Structure(Flat(cs), front).Some? && Structure(Flat(cs), back).Some?
    requires Proper(Structure(Flat(cs), back).value)
    requires Walk(cs, front, |cs|) == Some(Walked(fs, Nil)) && Proper(Structure(Flat(cs), front).value)
    ensures var cs' := cs[fs[|fs| - 1] := cs[fs[|fs| - 1]].(cdr := back)];
      Mergeable(cs, front, back) <==>
        Structure(Flat(cs'), front) == Some(Append(Structure(Flat(cs), front).value, Structure(Flat(cs), back).value))
  {
    hide Occurs, Structure, Walk, OwnLast, Append, Path;
    PathLinks(cs, front, fs, Nil);
    var cs' := cs[fs[|fs| - 1] := cs[fs[|fs| - 1]].(cdr := back)];
    assert Relinked(cs, cs', front, fs, back);
    if back == Nil {
      NilStructure(Flat(cs));
      AppendNil(Structure(Flat(cs), front).value);
      assert cs' == cs;
    } else {
      BackIsCons(cs, back);
      ListSpliced(cs, cs', front, fs, back);
    }
  }

  lemma BackIsCons(cs: seq<Cell>, back: Word)
    requires Structure(Flat(cs), back).Some? && Proper(Structure(Flat(cs), back).value) && back != Nil
    ensures back.Cons?
  {
  }

  // ----- templates -----

  /** The structure of an inserted value, at the time it is computed: the expression
      succeeds, leaves the existing cells as they are, and has a value with a structure. */
  ghost function Inserted(u: Unit, b: Builtins, fuel: nat, f: Fun, rho: Rho, e: Sexp, h: Heap): Option<Tree> {
    match Eval(u, b, fuel, f, rho, e, h)
    case None => None
    case Some(v) =>
      if h.cells <= v.heap.cells && Closed(v.heap.cells) && InHeap(v.heap.cells, v.value) then
        Structure(Flat(v.heap.cells), v.value) else None
  }

  /** A spliced value may be linked in place: it is no list, or its last cell is new and
      not part of its elements. */
  ghost predicate Fresh(u: Unit, b: Builtins, fuel: nat, f: Fun, rho: Rho, e: Sexp, h: Heap) {
    var v := Eval(u, b, fuel, f, rho, e, h);
    v.Some? && var cs, w := v.value.heap.cells, Walk(v.value.heap.cells, v.value.value, |v.value.heap.cells|);
      && w.Some?
      && (w.value.last == Nil && w.value.addrs != [] ==>
            w.value.addrs[|w.value.addrs| - 1] >= |h.cells|
              && OwnLast(cs, w.value.addrs, w.value.addrs[|w.value.addrs| - 1]))
  }

  /** The structures inserted into a template, in the order of the text.  `None` if one
      has none, a spliced list is not fresh, or a quoted constant was changed. */
  ghost function Insertions(u: Unit, b: Builtins, fuel: nat, f: Fun, rho: Rho, val: Sexp, h: Heap): Option<seq<Tree>>
    decreases Size(val), 1
  {
    if !Listp(val) then if Structure(Flat(h.cells), WordOf(val)) == Some(Literal(val))
      && InHeap(h.cells, WordOf(val)) then Some([]) else None
    else if SymStrEq(Car(val), "unquote") then
      match Inserted(u, b, fuel, f, rho, Car(Cdr(val)), h)
      case None => None
      case Some(t) => Some([t])
    else ItemInsertions(u, b, fuel, f, rho, val, h)
  }

  ghost function ItemInsertions(u: Unit, b: Builtins, fuel: nat, f: Fun, rho: Rho, items: Sexp,
                                h: Heap): Option<seq<Tree>>
    decreases Size(items), 0
  {
    if !items.SCons? then Some([]) else
    match (ItemInsertions(u, b, fuel, f, rho, items.cdr, h), EvalTemplate(u, b, fuel, f, rho, items.cdr, h))
    case (Some(ts), Some(r)) =>
      if IsSplice(items.car) then
        match Inserted(u, b, fuel, f, rho, Car(Cdr(items.car)), r.heap)
        case None => None
        case Some(t) => if Fresh(u, b, fuel, f, rho, Car(Cdr(items.car)), r.heap) then Some([t] + ts) else None
      else
        (match Insertions(u, b, fuel, f, rho, items.car, r.heap)
         case None => None
         case Some(us) => Some(us + ts))
    case _ => None
  }

  /** `out` stands for `t`, and was made from `h` without changing its cells. */
  ghost predicate Built(h: Heap, out: Out, t: Tree) {
    h.cells <= out.heap.cells && Closed(out.heap.cells) && InHeap(out.heap.cells, out.value)
      && Structure(Flat(out.heap.cells), out.value) == Some(t)
  }

  /** Backquote builds the template with the inserted structures in their places: literal
      parts kept, unquoted values as one element each, spliced lists concatenated. */
  lemma {:induction false} BackquoteBuilds(u: Unit, b: Builtins, fuel: nat, f: Fun, rho: Rho, val: Sexp, h: Heap,
                                           out: Out, ts: seq<Tree>)
    requires EvalBackquote(u, b, fuel, f, rho, val, h) == Some(out) && Closed(h.cells)
    requires Insertions(u, b, fuel, f, rho, val, h) == Some(ts)
    ensures |ts| == Holes(val) && Built(h, out, Fill(val, ts))
    decreases Size(val), 1
  {
    hide Eval, TreeOf, EvalTemplate;
    if Listp(val) && !SymStrEq(Car(val), "unquote") {
      ItemsBuild(u, b, fuel, f, rho, val, h, out, ts);
    }
  }

  lemma {:induction false} ItemsBuild(u: Unit, b: Builtins, fuel: nat, f: Fun, rho: Rho, items: Sexp, h: Heap,
                                      out: Out, ts: seq<Tree>)
    requires EvalTemplate(u, b, fuel, f, rho, items, h) == Some(out) && Closed(h.cells)
    requires ItemInsertions(u, b, fuel, f, rho, items, h) == Some(ts)
    ensures |ts| == HolesIn(items) && Built(h, out, FillItems(items, ts)) && Proper(FillItems(items, ts))
    decreases Size(items), 0
  {
    hide Eval, EvalBackquote, Insertions;
    if items.SCons? {
      var r := EvalTemplate(u, b, fuel, f, rho, items.cdr, h).value;
      var rest := ItemInsertions(u, b, fuel, f, rho, items.cdr, h).value;
      ItemsBuild(u, b, fuel, f, rho, items.cdr, h, r, rest);
      if IsSplice(items.car) {
        var e := Car(Cdr(items.car));
        var v := Eval(u, b, fuel, f, rho, e, r.heap).value;
        ItemSpliced(u, b, fuel, f, rho, e, h, r, v, FillItems(items.cdr, rest));
        SpliceProper(ts[0], FillItems(items.cdr, rest));
        assert ts[1..] == rest;
      } else {
        var v := EvalBackquote(u, b, fuel, f, rho, items.car, r.heap).value;
        var us := Insertions(u, b, fuel, f, rho, items.car, r.heap).value;
        BackquoteBuilds(u, b, fuel, f, rho, items.car, r.heap, v, us);
        ItemConsed(h, r, v, Fill(items.car, us), FillItems(items.cdr, rest));
        assert ts[..|us|] == us && ts[|us|..] == rest;
      }
    }
  }

  lemma ItemConsed(h: Heap, r: Out, v: Out, car: Tree, cdr: Tree)
    requires Built(h, r, cdr) && Built(r.heap, v, car)
    ensures Built(h, Consed(v.value, r.value, v.heap), TCons(car, cdr))
  {
    hide TreeOf;
    StaysSame(r.heap.cells, v.heap.cells, r.value);
    ConsedStructure(v.heap.cells, v.value, r.value);
  }

  /** New cells are not part of old structures. */
  lemma {:induction false} NewIsApart(cs0: seq<Cell>, cs: seq<Cell>, k: nat, w: Word, fuel: nat)
    requires Closed(cs0) && cs0 <= cs && InHeap(cs0, w) && k >= |cs0|
    ensures !Occurs(cs, k, w, fuel)
    decreases fuel
  {
    if w.Cons? && fuel > 0 {
      NewIsApart(cs0, cs, k, cs[w.c].car, fuel - 1);
      NewIsApart(cs0, cs, k, cs[w.c].cdr, fuel - 1);
    }
  }

  /** merge2 relinks nothing but the last cell of the front list. */
  lemma MergeFrame(cs: seq<Cell>, n: nat, front: Word, back: Word)
    requires Closed(cs) && InHeap(cs, front) && InHeap(cs, back) && n <= |cs|
    requires Merge2(cs, front, back).Some? && Walk(cs, back, |cs|).Some? && Walk(cs, back, |cs|).value.last == Nil
    requires var w := Walk(cs, front, |cs|);
      w.Some? && (w.value.last == Nil && w.value.addrs != [] ==> w.value.addrs[|w.value.addrs| - 1] >= n)
    ensures var (r, cs') := Merge2(cs, front, back).value; cs[..n] <= cs' && Closed(cs') && InHeap(cs', r)
  {
    WalkPath(cs, front, |cs|);
    var w := Walk(cs, front, |cs|).value;
    PathLinks(cs, front, w.addrs, w.last);
  }

  lemma ItemSpliced(u: Unit, b: Builtins, fuel: nat, f: Fun, rho: Rho, e: Sexp, h: Heap, r: Out, v: Out, rest: Tree)
    requires Built(h, r, rest) && Proper(rest) && Eval(u, b, fuel, f, rho, e, r.heap) == Some(v)
    requires Inserted(u, b, fuel, f, rho, e, r.heap).Some? && Fresh(u, b, fuel, f, rho, e, r.heap)
    ensures var m := Merge2(v.heap.cells, v.value, r.value);
      m.Some? && Built(h, Out(m.value.0, v.heap.(cells := m.value.1)),
                       Splice(Inserted(u, b, fuel, f, rho, e, r.heap).value, rest))
  {
    hide Eval, TreeOf, Occurs;
    var cs := v.heap.cells;
    StaysSame(r.heap.cells, cs, r.value);
    TreeWalk(cs, r.value, |cs|);
    var fs := Walk(cs, v.value, |cs|).value.addrs;
    if fs != [] && Walk(cs, v.value, |cs|).value.last == Nil { NewIsApart(r.heap.cells, cs, fs[|fs| - 1], r.value,
        |cs|); }
    assert Mergeable(cs, v.value, r.value);
    MergeSplices(cs, v.value, r.value);
    MergeFrame(cs, |r.heap.cells|, v.value, r.value);
    var (w, cs') := Merge2(cs, v.value, r.value).value;
    assert r.heap.cells == cs[..|r.heap.cells|];
  }

  // ----- constants -----

  /** The cells of a constant hold what was read. */
  predicate Intact(cs: seq<Cell>, v: Sexp) {
    v.SCons? ==>
      && v.addr < |cs| && cs[v.addr] == Cell(WordOf(v.car), WordOf(v.cdr))
      && Intact(cs, v.car) && Intact(cs, v.cdr)
  }

  /** As long as nobody changes its cells, a constant has the structure of its form. */
  lemma {:induction false} ConstantStructure(cs: seq<Cell>, v: Sexp)
    requires Intact(cs, v)
    ensures InHeap(cs, WordOf(v)) && Structure(Flat(cs), WordOf(v)) == Some(Literal(v))
    decreases v
  {
    hide Structure;
    match v
    case SCons(_, a, d) =>
      ConstantStructure(cs, a);
      ConstantStructure(cs, d);
      ConsStructure(Flat(cs), v.addr);
    case _ => AtomStructure(cs, v);
  }

  lemma AtomStructure(cs: seq<Cell>, v: Sexp)
    requires !v.SCons?
    ensures InHeap(cs, WordOf(v)) && Structure(Flat(cs), WordOf(v)) == Some(Literal(v))
  {
  }

  // ----- the written forms -----

  /** (unquote-splice e) in front of `rest`: the value of `e` is spliced into what the rest
      builds, and its code is merged behind that of the rest. */
  lemma SpliceLaw(u: Unit, env: Env, s: Scope, a: nat, b: nat, c: nat, e: Sexp, rest: Sexp)
    ensures var items := SCons(a, SCons(b, SSym("unquote-splice"), SCons(c, e, SNil)), rest);
      && HolesIn(items) == 1 + HolesIn(rest)
      && (forall ts :: |ts| == HolesIn(items) ==>
            FillItems(items, ts) == Splice(ts[0], FillItems(rest, ts[1..])))
    ensures var (q, whole) := (CompileTemplate(u, env, s, rest),
                               CompileTemplate(u, env, s, SCons(a,
                                                                SCons(b, SSym("unquote-splice"), SCons(c, e, SNil)),
                                                                rest)));
      if q.Err? then whole == q
      else
        var (r, g) := (q.value, Compile(u, env, q.value.scope, e, false));
        whole == if g.Err? then Err(g.error)
                 else Ok(Gen(r.code + g.value.code + [PushEax, CallMerge2, AddEsp(2), PushEax], g.value.scope))
  {
    hide Compile, Literal, Append, Fill, CompileBackquote;
    var item := SCons(b, SSym("unquote-splice"), SCons(c, e, SNil));
    OneItem(b, SSym("unquote-splice"), c, e);
    assert IsSplice(item);
  }

  /** Anything else in front of `rest` is one element, whatever it builds itself. */
  lemma ElementLaw(u: Unit, env: Env, s: Scope, a: nat, item: Sexp, rest: Sexp)
    requires !(Listp(item) && item.SCons? && item.car == SSym("unquote-splice"))
    ensures var (items, n) := (SCons(a, item, rest), Holes(item));
      && HolesIn(items) == n + HolesIn(rest)
      && (forall ts :: |ts| == HolesIn(items) ==>
            FillItems(items, ts) == TCons(Fill(item, ts[..n]), FillItems(rest, ts[n..])))
    ensures var (q, whole) := (CompileTemplate(u, env, s, rest), CompileTemplate(u, env, s, SCons(a, item, rest)));
      if q.Err? then whole == q
      else
        var (r, g) := (q.value, CompileBackquote(u, env, q.value.scope, item));
        whole == if g.Err? then Err(g.error)
                 else Ok(Gen(r.code + g.value.code + [PushEax, CallCons, AddEsp(2), PushEax], g.value.scope))
  {
    hide Compile, Literal, Append, Fill, CompileBackquote;
    assert !IsSplice(item);
  }

  /** (unquote e) stands for the value of `e`; an atom stands for itself. */
  lemma UnquoteLaw(u: Unit, env: Env, s: Scope, b: nat, c: nat, e: Sexp)
    ensures var val := SCons(b, SSym("unquote"), SCons(c, e, SNil));
      && CompileBackquote(u, env, s, val) == Compile(u, env, s, e, false)
      && Holes(val) == 1 && forall t :: Fill(val, [t]) == t
  {
    hide Compile, Literal, FillItems, CompileTemplate;
    var val := SCons(b, SSym("unquote"), SCons(c, e, SNil));
    OneItem(b, SSym("unquote"), c, e);
  }

  lemma OneItem(b: nat, x: Sexp, c: nat, e: Sexp)
    ensures var v := SCons(b, x, SCons(c, e, SNil)); Listp(v) && Length(v) == 2 && Length(v.cdr) == 1
  {
    assert Length(SNil) == 0 && Listp(SNil);
    var rest := SCons(c, e, SNil);
    assert Length(rest) == 1 + Length(rest.cdr) && Listp(rest);
  }
}
