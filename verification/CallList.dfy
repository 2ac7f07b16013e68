/** The run-time half of `apply`: deep_copy, call_list_args and _call_list. */
module CallList {
  import opened Sets
  import opened Wrappers
  import opened Words
  import opened Cells

  // ----- structures -----

  /** What copying has to know of a closure: the closure it is a copy of, or itself, which
      says what code it runs; and its captured values, if they are there. */
  datatype Kid = Kid(origin: nat, data: Option<seq<Word>>)

  datatype Store = Store(cells: seq<Cell>, kids: seq<Kid>) {
    predicate Has(w: Word) { (w.Cons? ==> w.c < |cells|) && (w.Clo? ==> w.k < |kids|) }

    predicate HasAll(ws: seq<Word>) { forall i :: 0 <= i < |ws| ==> Has(ws[i]) }

    /** No cell and no closure holds a dangling pointer. */
    predicate Closed() {
      && (forall a :: 0 <= a < |cells| ==> Has(cells[a].car) && Has(cells[a].cdr))
      && (forall k :: 0 <= k < |kids| ==> kids[k].data.None? || HasAll(kids[k].data.value))
    }

    /** `m` has more cells and closures, and these unchanged. */
    predicate Within(m: Store) { cells <= m.cells && kids <= m.kids }

    function Size(): nat { |cells| + |kids| }
  }

  /** A store whose closures are not looked into. */
  function Flat(cs: seq<Cell>): Store { Store(cs, []) }

  /** The structure a word stands for, sharing forgotten.  A closure is what it runs and
      the structures of what it captured; a closure that the store does not know is a leaf. */
  datatype Tree = TNil | TInt(i: int) | TSym(name: string) | TStr(text: string)
                | TCons(car: Tree, cdr: Tree) | TClo(origin: nat, captured: seq<Tree>)

  function TreeOf(m: Store, w: Word, fuel: nat): Option<Tree>
    decreases fuel, 0, 0
  {
    match w
    case Nil => Some(TNil)
    case Int(i) => Some(TInt(i))
    case Sym(s) => Some(TSym(s))
    case Str(s) => Some(TStr(s))
    case Cons(c) =>
      if fuel == 0 || c >= |m.cells| then None
      else (match (TreeOf(m, m.cells[c].car, fuel - 1), TreeOf(m, m.cells[c].cdr, fuel - 1))
            case (Some(a), Some(d)) => Some(TCons(a, d))
            case _ => None)
    case Clo(k) =>
      if k >= |m.kids| then Some(TClo(k, []))
      else if fuel == 0 || m.kids[k].data.None? then None
      else (match TreesOf(m, m.kids[k].data.value, fuel - 1)
            case Some(ts) => Some(TClo(m.kids[k].origin, ts))
            case None => None)
    case _ => None
  }

  function TreesOf(m: Store, ws: seq<Word>, fuel: nat): (r: Option<seq<Tree>>)
    ensures r.Some? ==> |r.value| == |ws|
    decreases fuel, 1, |ws|
  {
    if ws == [] then Some([])
    else match (TreeOf(m, ws[0], fuel), TreesOf(m, ws[1..], fuel))
      case (Some(t), Some(ts)) => Some([t] + ts)
      case _ => None
  }

  function TreeSize(t: Tree): nat {
    match t
    case TCons(a, d) => 1 + TreeSize(a) + TreeSize(d)
    case TClo(_, ts) => 1 + TreesSize(ts)
    case _ => 0
  }

  function TreesSize(ts: seq<Tree>): nat {
    if ts == [] then 0 else TreeSize(ts[0]) + TreesSize(ts[1..])
  }

  /** A structure does not depend on what is added to the store. */
  lemma {:induction false} TreeGrows(m: Store, m': Store, w: Word, fuel: nat)
    requires m.Within(m') && m.Closed() && m.Has(w)
    ensures TreeOf(m', w, fuel) == TreeOf(m, w, fuel)
    decreases fuel, 0, 0
  {
    if fuel > 0 {
      match w
      case Cons(c) =>
        TreeGrows(m, m', m.cells[c].car, fuel - 1);
        TreeGrows(m, m', m.cells[c].cdr, fuel - 1);
      case Clo(k) => if m.kids[k].data.Some? { TreesGrow(m, m', m.kids[k].data.value, fuel - 1); }
      case _ =>
    }
  }

  lemma {:induction false} TreesGrow(m: Store, m': Store, ws: seq<Word>, fuel: nat)
    requires m.Within(m') && m.Closed() && m.HasAll(ws)
    ensures TreesOf(m', ws, fuel) == TreesOf(m, ws, fuel)
    decreases fuel, 1, |ws|
  {
    if ws != [] {
      TreeGrows(m, m', ws[0], fuel);
      TreesGrow(m, m', ws[1..], fuel);
    }
  }

  lemma {:induction false} TreeFuel(m: Store, w: Word, f: nat, g: nat)
    requires TreeOf(m, w, f).Some? && TreeOf(m, w, g).Some?
    ensures TreeOf(m, w, f) == TreeOf(m, w, g)
    decreases f, 0, 0
  {
    match w
    case Cons(c) =>
      TreeFuel(m, m.cells[c].car, f - 1, g - 1);
      TreeFuel(m, m.cells[c].cdr, f - 1, g - 1);
    case Clo(k) => if k < |m.kids| { TreesFuel(m, m.kids[k].data.value, f - 1, g - 1); }
    case _ =>
  }

  lemma {:induction false} TreesFuel(m: Store, ws: seq<Word>, f: nat, g: nat)
    requires TreesOf(m, ws, f).Some? && TreesOf(m, ws, g).Some?
    ensures TreesOf(m, ws, f) == TreesOf(m, ws, g)
    decreases f, 1, |ws|
  {
    if ws != [] {
      TreeFuel(m, ws[0], f, g);
      TreesFuel(m, ws[1..], f, g);
    }
  }

  lemma {:induction false} TreeMore(m: Store, w: Word, f: nat, g: nat)
    requires TreeOf(m, w, f).Some? && f <= g
    ensures TreeOf(m, w, g) == TreeOf(m, w, f)
    decreases f, 0, 0
  {
    match w
    case Cons(c) =>
      TreeMore(m, m.cells[c].car, f - 1, g - 1);
      TreeMore(m, m.cells[c].cdr, f - 1, g - 1);
    case Clo(k) => if k < |m.kids| { TreesMore(m, m.kids[k].data.value, f - 1, g - 1); }
    case _ =>
  }

  lemma {:induction false} TreesMore(m: Store, ws: seq<Word>, f: nat, g: nat)
    requires TreesOf(m, ws, f).Some? && f <= g
    ensures TreesOf(m, ws, g) == TreesOf(m, ws, f)
    decreases f, 1, |ws|
  {
    if ws != [] {
      TreeMore(m, ws[0], f, g);
      TreesMore(m, ws[1..], f, g);
    }
  }

  // ----- no more fuel than cells and closures -----

  /** A word that points into the store. */
  predicate Node(m: Store, w: Word) { (w.Cons? && w.c < |m.cells|) || (w.Clo? && w.k < |m.kids|) }

  ghost function Nodes(cells: nat, kids: nat): (r: set<Word>)
    ensures |r| == cells + kids
    ensures forall w :: w in r <==> (w.Cons? && w.c < cells) || (w.Clo? && w.k < kids)
  {
    if cells > 0 then Nodes(cells - 1, kids) + {Cons(cells - 1)}
    else if kids > 0 then Nodes(cells, kids - 1) + {Clo(kids - 1)}
    else {}
  }

  /** `w` stands for a structure of more than `n` conses and closures. */
  ghost predicate Larger(m: Store, w: Word, n: nat) {
    Node(m, w) && exists g: nat :: TreeOf(m, w, g).Some? && TreeSize(TreeOf(m, w, g).value) > n
  }

  lemma LargerFits(m: Store, above: set<Word>, n: nat)
    requires forall a :: a in above ==> Larger(m, a, n)
    ensures |above| <= m.Size()
  {
    assert forall a :: a in above ==> a in Nodes(|m.cells|, |m.kids|);
    SubsetSize(above, Nodes(|m.cells|, |m.kids|));
  }

  lemma NotBelowItself(m: Store, w: Word, f: nat)
    requires TreeOf(m, w, f).Some?
    ensures !Larger(m, w, TreeSize(TreeOf(m, w, f).value))
  {
    var n := TreeSize(TreeOf(m, w, f).value);
    if Larger(m, w, n) {
      var g: nat :| TreeOf(m, w, g).Some? && TreeSize(TreeOf(m, w, g).value) > n;
      TreeFuel(m, w, f, g);
    }
  }

  lemma LargerWeakens(m: Store, above: set<Word>, n: nat, k: nat)
    requires (forall a :: a in above ==> Larger(m, a, n)) && k <= n
    ensures forall a :: a in above ==> Larger(m, a, k)
  {
    forall a | a in above ensures Larger(m, a, k) {
      var g: nat :| TreeOf(m, a, g).Some? && TreeSize(TreeOf(m, a, g).value) > n;
      assert TreeSize(TreeOf(m, a, g).value) > k;
    }
  }

  /** Along one branch of a finite structure all nodes differ. */
  lemma {:induction false} TreeBranch(m: Store, w: Word, f: nat, above: set<Word>)
    requires TreeOf(m, w, f).Some?
    requires forall a :: a in above ==> Larger(m, a, TreeSize(TreeOf(m, w, f).value))
    requires |above| <= m.Size()
    ensures TreeOf(m, w, m.Size() - |above|) == TreeOf(m, w, f)
    decreases f, 0, 0
  {
    hide Larger;
    if Node(m, w) {
      var n := TreeSize(TreeOf(m, w, f).value);
      NotBelowItself(m, w, f);
      var more := above + {w};
      LargerWeakens(m, above, n, n - 1);
      NodeLarger(m, w, f);
      LargerFits(m, more, n - 1);
      assert |more| == |above| + 1;
      match w
      case Cons(c) =>
        var x, y := m.cells[c].car, m.cells[c].cdr;
        LargerWeakens(m, more, n - 1, TreeSize(TreeOf(m, x, f - 1).value));
        TreeBranch(m, x, f - 1, more);
        LargerWeakens(m, more, n - 1, TreeSize(TreeOf(m, y, f - 1).value));
        TreeBranch(m, y, f - 1, more);
      case Clo(k) =>
        TreesBranch(m, m.kids[k].data.value, f - 1, more);
    }
  }

  lemma NodeLarger(m: Store, w: Word, f: nat)
    requires Node(m, w) && TreeOf(m, w, f).Some?
    ensures f > 0 && TreeSize(TreeOf(m, w, f).value) > 0 && Larger(m, w, TreeSize(TreeOf(m, w, f).value) - 1)
  {
    assert TreeSize(TreeOf(m, w, f).value) > TreeSize(TreeOf(m, w, f).value) - 1;
  }

  lemma {:induction false} TreesBranch(m: Store, ws: seq<Word>, f: nat, above: set<Word>)
    requires TreesOf(m, ws, f).Some?
    requires forall a :: a in above ==> Larger(m, a, TreesSize(TreesOf(m, ws, f).value))
    requires |above| <= m.Size()
    ensures TreesOf(m, ws, m.Size() - |above|) == TreesOf(m, ws, f)
    decreases f, 1, |ws|
  {
    hide Larger;
    if ws != [] {
      var n := TreesSize(TreesOf(m, ws, f).value);
      assert TreesOf(m, ws, f).value[1..] == TreesOf(m, ws[1..], f).value;
      LargerWeakens(m, above, n, TreeSize(TreeOf(m, ws[0], f).value));
      TreeBranch(m, ws[0], f, above);
      LargerWeakens(m, above, n, TreesSize(TreesOf(m, ws[1..], f).value));
      TreesBranch(m, ws[1..], f, above);
    }
  }

  lemma TreeComplete(m: Store, w: Word, f: nat)
    requires TreeOf(m, w, f).Some?
    ensures TreeOf(m, w, m.Size()) == TreeOf(m, w, f)
  {
    TreeBranch(m, w, f, {});
  }

  /** The structure of a word: no fuel to choose, by `TreeComplete`. */
  function Structure(m: Store, w: Word): Option<Tree> {
    TreeOf(m, w, m.Size())
  }

  lemma StructureGrows(m: Store, m': Store, w: Word)
    requires m.Within(m') && m.Closed() && m.Has(w) && Structure(m, w).Some?
    ensures Structure(m', w) == Structure(m, w)
  {
    TreeGrows(m, m', w, m.Size());
    TreeComplete(m', w, m.Size());
  }

  // ----- deep_copy -----

  /** `deep_copy`: fresh cells and closures throughout; a closure is made before what it
      captured is copied into it.  `None` for a value whose copying never ends, and for
      words that are no values. */
  function DeepCopy(m: Store, w: Word, fuel: nat): Option<(Word, Store)>
    decreases fuel, 0, 0
  {
    match w
    case Nil => Some((w, m))
    case Int(_) => Some((w, m))
    case Sym(_) => Some((w, m))
    case Str(_) => Some((w, m))
    case Cons(c) =>
      if fuel == 0 || c >= |m.cells| then None
      else (match CopyAll(m, [m.cells[c].car, m.cells[c].cdr], fuel - 1)
            case None => None
            case Some((ws, m')) => Some((Cons(|m'.cells|), m'.(cells := m'.cells + [Cell(ws[0], ws[1])]))))
    case Clo(k) =>
      if fuel == 0 || k >= |m.kids| || m.kids[k].data.None? then None
      else (match CopyAll(NewKid(m, m.kids[k].origin), m.kids[k].data.value, fuel - 1)
            case None => None
            case Some((ws, m')) => Some((Clo(|m.kids|), FillKid(m', |m.kids|, ws))))
    case _ => None
  }

  /** Values copied from left to right. */
  function CopyAll(m: Store, ws: seq<Word>, fuel: nat): (r: Option<(seq<Word>, Store)>)
    ensures r.Some? ==> |r.value.0| == |ws|
    decreases fuel, 1, |ws|
  {
    if ws == [] then Some(([], m))
    else match DeepCopy(m, ws[0], fuel)
      case None => None
      case Some((w, m1)) =>
        match CopyAll(m1, ws[1..], fuel)
        case None => None
        case Some((ws', m2)) => Some(([w] + ws', m2))
  }

  /** A new closure that has nothing in it yet, and what it gets. */
  function NewKid(m: Store, origin: nat): Store { m.(kids := m.kids + [Kid(origin, None)]) }

  function FillKid(m: Store, k: nat, ws: seq<Word>): Store {
    if k < |m.kids| then m.(kids := m.kids[k := Kid(m.kids[k].origin, Some(ws))]) else m
  }

  /** A structure that exists already does not depend on a closure that is filled later. */
  lemma {:induction false} TreeFilled(m: Store, k: nat, ws: seq<Word>, w: Word, fuel: nat)
    requires k < |m.kids| && m.kids[k].data.None? && TreeOf(m, w, fuel).Some?
    ensures TreeOf(FillKid(m, k, ws), w, fuel) == TreeOf(m, w, fuel)
    decreases fuel, 0, 0
  {
    match w
    case Cons(c) =>
      TreeFilled(m, k, ws, m.cells[c].car, fuel - 1);
      TreeFilled(m, k, ws, m.cells[c].cdr, fuel - 1);
    case Clo(j) => if j < |m.kids| { TreesFilled(m, k, ws, m.kids[j].data.value, fuel - 1); }
    case _ =>
  }

  lemma {:induction false} TreesFilled(m: Store, k: nat, ws: seq<Word>, vs: seq<Word>, fuel: nat)
    requires k < |m.kids| && m.kids[k].data.None? && TreesOf(m, vs, fuel).Some?
    ensures TreesOf(FillKid(m, k, ws), vs, fuel) == TreesOf(m, vs, fuel)
    decreases fuel, 1, |vs|
  {
    if vs != [] {
      TreeFilled(m, k, ws, vs[0], fuel);
      TreesFilled(m, k, ws, vs[1..], fuel);
    }
  }

  /** What copying keeps: the old store, and that nothing dangles. */
  ghost predicate Copied(m: Store, m': Store, w': Word) {
    m.Within(m') && m'.Closed() && m'.Has(w') && (w'.Cons? ==> |m.cells| <= w'.c) && (w'.Clo? ==> |m.kids| <= w'.k)
  }

  /** The copy has the structure of the original, in new cells and closures, and nothing
      old changes; and copying ends on exactly the finite values. */
  lemma {:induction false} DeepCopyCopies(m: Store, w: Word, fuel: nat)
    requires m.Closed() && m.Has(w)
    ensures DeepCopy(m, w, fuel).Some? <==> TreeOf(m, w, fuel).Some?
    ensures DeepCopy(m, w, fuel).Some? ==>
      var (w', m') := DeepCopy(m, w, fuel).value; Copied(m, m', w') && TreeOf(m', w', fuel) == TreeOf(m, w, fuel)
    decreases fuel, 0, 0
  {
    if fuel > 0 {
      match w
      case Cons(c) => ConsCopies(m, c, fuel);
      case Clo(k) => ClosureCopies(m, k, fuel);
      case _ =>
    }
  }

  lemma {:induction false} ConsCopies(m: Store, c: nat, fuel: nat)
    requires m.Closed() && c < |m.cells| && fuel > 0
    ensures DeepCopy(m, Cons(c), fuel).Some? <==> TreeOf(m, Cons(c), fuel).Some?
    ensures DeepCopy(m, Cons(c), fuel).Some? ==>
      var (w', m') := DeepCopy(m, Cons(c), fuel).value;
      Copied(m, m', w') && TreeOf(m', w', fuel) == TreeOf(m, Cons(c), fuel)
    decreases fuel - 1, 2, 0
  {
    hide DeepCopy;
    var ws := [m.cells[c].car, m.cells[c].cdr];
    CopyAllCopies(m, ws, fuel - 1);
    PairTrees(m, ws[0], ws[1], fuel - 1);
    ConsCopy(m, c, fuel);
    if CopyAll(m, ws, fuel - 1).Some? {
      var (vs, m1) := CopyAll(m, ws, fuel - 1).value;
      var m2 := m1.(cells := m1.cells + [Cell(vs[0], vs[1])]);
      assert vs == [vs[0], vs[1]];
      PairTrees(m2, vs[0], vs[1], fuel - 1);
      TreesGrow(m1, m2, vs, fuel - 1);
    }
  }

  lemma ConsCopy(m: Store, c: nat, fuel: nat)
    requires c < |m.cells| && fuel > 0
    ensures DeepCopy(m, Cons(c), fuel) ==
      match CopyAll(m, [m.cells[c].car, m.cells[c].cdr], fuel - 1)
      case None => None
      case Some((ws, m')) => Some((Cons(|m'.cells|), m'.(cells := m'.cells + [Cell(ws[0], ws[1])])))
  {
    hide CopyAll;
  }

  lemma PairTrees(m: Store, x: Word, y: Word, fuel: nat)
    ensures TreesOf(m, [x, y], fuel) ==
      match (TreeOf(m, x, fuel), TreeOf(m, y, fuel))
      case (Some(t), Some(u)) => Some([t, u])
      case _ => None
  {
    assert [x, y][1..] == [y] && [y][1..] == [];
    var none := TreesOf(m, [], fuel).value;
    assert none == [];
    if TreeOf(m, x, fuel).Some? && TreeOf(m, y, fuel).Some? {
      var t, u := TreeOf(m, x, fuel).value, TreeOf(m, y, fuel).value;
      assert TreesOf(m, [y], fuel) == Some([u] + none);
      assert [t] + ([u] + none) == [t, u];
    } else {
      assert TreeOf(m, y, fuel).None? ==> TreesOf(m, [y], fuel).None?;
    }
  }

  lemma {:induction false} ClosureCopies(m: Store, k: nat, fuel: nat)
    requires m.Closed() && k < |m.kids| && fuel > 0
    ensures DeepCopy(m, Clo(k), fuel).Some? <==> TreeOf(m, Clo(k), fuel).Some?
    ensures DeepCopy(m, Clo(k), fuel).Some? ==>
      var (w', m') := DeepCopy(m, Clo(k), fuel).value;
      Copied(m, m', w') && TreeOf(m', w', fuel) == TreeOf(m, Clo(k), fuel)
    decreases fuel - 1, 2, 0
  {
    hide CopyAll, TreesOf;
    if m.kids[k].data.Some? {
      var ws, n := m.kids[k].data.value, |m.kids|;
      var m0 := NewKid(m, m.kids[k].origin);
      TreesGrow(m, m0, ws, fuel - 1);
      CopyAllCopies(m0, ws, fuel - 1);
      if CopyAll(m0, ws, fuel - 1).Some? {
        var (vs, m1) := CopyAll(m0, ws, fuel - 1).value;
        assert m1.kids[n] == m0.kids[n];
        TreesFilled(m1, n, vs, vs, fuel - 1);
        FilledClosed(m1, n, vs);
      }
    }
  }

  lemma FilledClosed(m: Store, k: nat, ws: seq<Word>)
    requires m.Closed() && m.HasAll(ws) && k < |m.kids|
    ensures FillKid(m, k, ws).Closed()
  {
    var m' := FillKid(m, k, ws);
    forall j | 0 <= j < |m'.kids| && m'.kids[j].data.Some? ensures m'.HasAll(m'.kids[j].data.value) {
      assert m.HasAll(m'.kids[j].data.value);
    }
  }

  lemma {:induction false} CopyAllCopies(m: Store, ws: seq<Word>, fuel: nat)
    requires m.Closed() && m.HasAll(ws)
    ensures CopyAll(m, ws, fuel).Some? <==> TreesOf(m, ws, fuel).Some?
    ensures CopyAll(m, ws, fuel).Some? ==>
      var (ws', m') := CopyAll(m, ws, fuel).value;
      m.Within(m') && m'.Closed() && m'.HasAll(ws') && TreesOf(m', ws', fuel) == TreesOf(m, ws, fuel)
    decreases fuel, 1, |ws|
  {
    hide DeepCopy, TreeOf;
    if ws != [] {
      DeepCopyCopies(m, ws[0], fuel);
      if DeepCopy(m, ws[0], fuel).Some? {
        var (w, m1) := DeepCopy(m, ws[0], fuel).value;
        TreesGrow(m, m1, ws[1..], fuel);
        CopyAllCopies(m1, ws[1..], fuel);
        if CopyAll(m1, ws[1..], fuel).Some? {
          var (vs, m2) := CopyAll(m1, ws[1..], fuel).value;
          TreeGrows(m1, m2, w, fuel);
          assert ([w] + vs)[1..] == vs;
        }
      }
    }
  }

  // ----- call_list_args -----

  /** The `value_t *` cursor: the list variable itself, or the cdr of a cell. */
  datatype Ref = Head | CdrOf(a: nat)

  function Put(cs: seq<Cell>, list: Word, r: Ref, v: Word): (Word, seq<Cell>) {
    match r
    case Head => (v, cs)
    case CdrOf(a) => if a < |cs| then (list, cs[a := cs[a].(cdr := v)]) else (list, cs)
  }

  /** The appending loop: each value goes into a fresh cell linked at the cursor. */
  function AppendAll(cs: seq<Cell>, list: Word, r: Ref, vs: seq<Word>): (Word, seq<Cell>)
    decreases |vs|
  {
    if vs == [] then (list, cs)
    else
      var (list', cs') := Put(cs + [Cell(vs[0], Nil)], list, r, Cons(|cs|));
      AppendAll(cs', list', CdrOf(|cs|), vs[1..])
  }

  function TailRef(ys: seq<nat>): Ref {
    if ys == [] then Head else CdrOf(ys[|ys| - 1])
  }

  /** `call_list_args` up to the list it hands to _call_list.  With fewer values than
      required parameters the original reads before its table of defaults: `None`. */
  function CallListArgs(m: Store, args: Args, given: Word): Option<(Word, Store)> {
    match DeepCopy(m, given, m.Size())
    case None => None
    case Some((list, m1)) =>
      match Walk(m1.cells, list, |m1.cells|)
      case None => None
      case Some(spine) =>
        if spine.last != Nil || |spine.addrs| < args.required then None
        else
          var (list', cells') := Arrange(m1.cells, args, list, spine.addrs);
          Some((list', m1.(cells := cells')))
  }

  /** Rearranging the copied list, whose cells are `ys`: values beyond the optional
      ones move into a list of their own; otherwise defaults and a nil are appended. */
  function Arrange(cs: seq<Cell>, args: Args, list: Word, ys: seq<nat>): (Word, seq<Cell>)
    requires |ys| >= args.required
  {
    var total := args.Total();
    if |ys| > total then
      Put(cs + [Cell(Cons(ys[total]), Nil)], list, TailRef(ys[..total]), Cons(|cs|))
    else
      AppendAll(cs, list, TailRef(ys), args.optional[|ys| - args.required..] + [Nil])
  }

  /** The words _call_list finds by `elt`, in order. */
  function ElementsOf(cs: seq<Cell>, list: Word): seq<Word> {
    match Walk(cs, list, |cs|)
    case None => []
    case Some(r) =>
      seq(|r.addrs|, i requires 0 <= i < |r.addrs| => if r.addrs[i] < |cs| then cs[r.addrs[i]].car else Nil)
  }

  lemma ElementsAre(cs: seq<Cell>, list: Word, ys: seq<nat>)
    requires Path(cs, list, ys, Nil)
    ensures |ElementsOf(cs, list)| == |ys|
    ensures forall i :: 0 <= i < |ys| ==> ys[i] < |cs| && ElementsOf(cs, list)[i] == cs[ys[i]].car
  {
    WalkComplete(cs, list, ys, Nil);
    PathLinks(cs, list, ys, Nil);
  }

  /** Linking a fresh chain `w` at the end of a list. */
  lemma PutPath(cs: seq<Cell>, list: Word, ys: seq<nat>, w: Word, zs: seq<nat>)
    requires Path(cs, list, ys, Nil) && Path(cs, w, zs, Nil)
    requires forall y :: y in ys ==> y !in zs
    ensures var (list', cs') := Put(cs, list, TailRef(ys), w);
      && |cs'| == |cs| && Path(cs', list', ys + zs, Nil)
      && (forall a :: 0 <= a < |cs| ==> cs'[a].car == cs[a].car)
      && (forall a :: 0 <= a < |cs| && (ys == [] || a != ys[|ys| - 1]) ==> cs'[a] == cs[a])
  {
    if ys == [] {
      assert ys + zs == zs;
    } else {
      PathLinks(cs, list, ys, Nil);
      assert ys[|ys| - 1] in ys;
      MergeApart(cs, list, w, ys, zs);
    }
  }

  ghost function From(n: nat, k: nat): (r: seq<nat>)
    ensures |r| == k && forall i :: 0 <= i < k ==> r[i] == n + i
  {
    seq(k, i => n + i)
  }

  /** `(list', cs')` is `(list, cs)` with the values `vs` appended in fresh cells. */
  ghost predicate Appended(cs: seq<Cell>, ys: seq<nat>, vs: seq<Word>, cs': seq<Cell>, list': Word) {
    && |cs'| == |cs| + |vs|
    && Path(cs', list', ys + From(|cs|, |vs|), Nil)
    && (forall a :: 0 <= a < |cs| ==> cs'[a].car == cs[a].car)
    && (forall a :: 0 <= a < |cs| && (ys == [] || a != ys[|ys| - 1]) ==> cs'[a] == cs[a])
    && (forall i :: 0 <= i < |vs| ==> cs'[|cs| + i].car == vs[i])
  }

  lemma {:induction false} AppendAllPath(cs: seq<Cell>, list: Word, ys: seq<nat>, vs: seq<Word>)
    requires Path(cs, list, ys, Nil)
    ensures var (list', cs') := AppendAll(cs, list, TailRef(ys), vs); Appended(cs, ys, vs, cs', list')
    decreases |vs|
  {
    if vs == [] {
      assert ys + From(|cs|, 0) == ys;
    } else {
      AppendOne(cs, list, ys, vs[0]);
      var (list1, cs1) := Put(cs + [Cell(vs[0], Nil)], list, TailRef(ys), Cons(|cs|));
      AppendAllPath(cs1, list1, ys + [|cs|], vs[1..]);
      var (list2, cs2) := AppendAll(cs, list, TailRef(ys), vs);
      AppendedTwice(cs, ys, vs, cs1, list1, cs2, list2);
    }
  }

  lemma AppendOne(cs: seq<Cell>, list: Word, ys: seq<nat>, v: Word)
    requires Path(cs, list, ys, Nil)
    ensures var (list1, cs1) := Put(cs + [Cell(v, Nil)], list, TailRef(ys), Cons(|cs|));
      Appended(cs, ys, [v], cs1, list1) && Path(cs1, list1, ys + [|cs|], Nil)
  {
    var cs0 := cs + [Cell(v, Nil)];
    PathDistinct(cs, list, ys, Nil);
    PathFrame(cs, cs0, list, ys, Nil);
    assert [|cs|][1..] == [];
    assert Path(cs0, Cons(|cs|), [|cs|], Nil);
    PutPath(cs0, list, ys, Cons(|cs|), [|cs|]);
    assert From(|cs|, 1) == [|cs|];
  }

  lemma AppendedTwice(cs: seq<Cell>, ys: seq<nat>, vs: seq<Word>, cs1: seq<Cell>, list1: Word, cs2: seq<Cell>,
                      list2: Word)
    requires vs != [] && Appended(cs, ys, [vs[0]], cs1, list1)
    requires Appended(cs1, ys + [|cs|], vs[1..], cs2, list2)
    ensures Appended(cs, ys, vs, cs2, list2)
  {
    assert ys + [|cs|] + From(|cs1|, |vs| - 1) == ys + From(|cs|, |vs|);
    forall i | 0 <= i < |vs| ensures cs2[|cs| + i].car == vs[i] {
      if i > 0 {
        assert cs2[|cs1| + (i - 1)].car == vs[1..][i - 1];
      } else {
        assert cs1[|cs| + 0].car == [vs[0]][0];
      }
    }
  }

  // ----- the copy of a list -----

  /** The words in the cells of a chain. */
  function Cars(cs: seq<Cell>, xs: seq<nat>): seq<Word>
    requires forall i :: 0 <= i < |xs| ==> xs[i] < |cs|
  {
    seq(|xs|, i requires 0 <= i < |xs| => cs[xs[i]].car)
  }

  /** Cells from `n` on that hold the list of `vs`, made from its end. */
  function Spine(vs: seq<Word>, n: nat): (r: seq<Cell>)
    ensures |r| == |vs|
  {
    seq(|vs|, i requires 0 <= i < |vs| => Cell(vs[|vs| - 1 - i], Last(i, n)))
  }

  /** The list that the first `k` cells of a spine hold, and the cells of it. */
  function Last(k: nat, n: nat): Word { if k == 0 then Nil else Cons(n + k - 1) }

  ghost function Down(n: nat, k: nat): (r: seq<nat>)
    ensures |r| == k && forall i :: 0 <= i < k ==> r[i] == n + k - 1 - i
  {
    seq(k, i requires 0 <= i < k => n + k - 1 - i)
  }

  lemma {:induction false} SpinePath(cs: seq<Cell>, vs: seq<Word>, n: nat, k: nat)
    requires k <= |vs| && n + |vs| <= |cs| && cs[n..n + |vs|] == Spine(vs, n)
    ensures Path(cs, Last(k, n), Down(n, k), Nil)
    ensures forall i :: 0 <= i < k ==> cs[Down(n, k)[i]].car == vs[|vs| - k + i]
    decreases k
  {
    if k > 0 {
      SpinePath(cs, vs, n, k - 1);
      assert cs[n + k - 1] == Spine(vs, n)[k - 1];
      assert Down(n, k)[1..] == Down(n, k - 1);
    }
  }

  /** `vs` are copies of `us`. */
  ghost predicate SameValues(m: Store, us: seq<Word>, m': Store, vs: seq<Word>) {
    && |us| == |vs| && m.Within(m') && m'.Closed() && m'.HasAll(vs)
    && forall i :: 0 <= i < |us| ==> Structure(m, us[i]).Some? && Structure(m', vs[i]) == Structure(m, us[i])
  }

  /** The result of copying a list: first copies of its elements, then its cells. */
  ghost predicate ListCopied(m: Store, us: seq<Word>, mid: Store, vs: seq<Word>, w': Word, m': Store) {
    && SameValues(m, us, mid, vs)
    && w' == Last(|vs|, |mid.cells|) && m' == mid.(cells := mid.cells + Spine(vs, |mid.cells|))
  }

  lemma {:induction false} CopyList(m: Store, w: Word, fuel: nat, xs: seq<nat>) returns (mid: Store, vs: seq<Word>)
    requires m.Closed() && m.Has(w) && DeepCopy(m, w, fuel).Some? && Path(m.cells, w, xs, Nil)
    ensures forall i :: 0 <= i < |xs| ==> xs[i] < |m.cells|
    ensures ListCopied(m, Cars(m.cells, xs), mid, vs, DeepCopy(m, w, fuel).value.0, DeepCopy(m, w, fuel).value.1)
    decreases fuel
  {
    hide DeepCopy, Structure, Spine, SameValues, Cars;
    PathLinks(m.cells, w, xs, Nil);
    if xs == [] {
      mid, vs := m, [];
      NilCopy(m, xs, fuel);
    } else {
      var a, d := m.cells[w.c].car, m.cells[w.c].cdr;
      ConsCopyParts(m, w.c, fuel);
      var (v, m1) := DeepCopy(m, a, fuel - 1).value;
      DeepCopyCopies(m, a, fuel - 1);
      SameStructure(m, a, m1, v, fuel - 1);
      PathFrame(m.cells, m1.cells, d, xs[1..], Nil);
      var vs1;
      mid, vs1 := CopyList(m1, d, fuel - 1, xs[1..]);
      vs := [v] + vs1;
      PrependCopy(m, xs, m1, v, mid, vs1);
      SpineConsed(v, vs1, |mid.cells|);
    }
  }

  lemma NilCopy(m: Store, xs: seq<nat>, fuel: nat)
    requires m.Closed() && xs == []
    ensures DeepCopy(m, Nil, fuel) == Some((Nil, m)) && ListCopied(m, Cars(m.cells, xs), m, [], Nil, m)
  {
    assert m.cells + Spine([], |m.cells|) == m.cells;
  }

  lemma ConsCopyParts(m: Store, c: nat, fuel: nat)
    requires c < |m.cells| && DeepCopy(m, Cons(c), fuel).Some?
    ensures fuel > 0 && DeepCopy(m, m.cells[c].car, fuel - 1).Some?
    ensures var (a, m1) := DeepCopy(m, m.cells[c].car, fuel - 1).value;
      && DeepCopy(m1, m.cells[c].cdr, fuel - 1).Some?
      && var (d, m2) := DeepCopy(m1, m.cells[c].cdr, fuel - 1).value;
         DeepCopy(m, Cons(c), fuel) == Some((Cons(|m2.cells|), m2.(cells := m2.cells + [Cell(a, d)])))
  {
    var x, y := m.cells[c].car, m.cells[c].cdr;
    ConsCopy(m, c, fuel);
    CopyPair(m, x, y, fuel - 1);
  }

  lemma CopyPair(m: Store, x: Word, y: Word, fuel: nat)
    requires CopyAll(m, [x, y], fuel).Some?
    ensures DeepCopy(m, x, fuel).Some?
    ensures var (a, m1) := DeepCopy(m, x, fuel).value;
      && DeepCopy(m1, y, fuel).Some?
      && CopyAll(m, [x, y], fuel) == Some(([a, DeepCopy(m1, y, fuel).value.0], DeepCopy(m1, y, fuel).value.1))
  {
    assert [x, y][1..] == [y] && [y][1..] == [];
    var m1 := DeepCopy(m, x, fuel).value.1;
    assert CopyAll(m1, [y], fuel).Some?;
    var (d, m2) := DeepCopy(m1, y, fuel).value;
    var none := CopyAll(m2, [], fuel).value.0;
    assert none == [];
    assert CopyAll(m1, [y], fuel).value == ([d] + none, m2);
    var a := DeepCopy(m, x, fuel).value.0;
    assert [a] + ([d] + none) == [a, d];
  }

  lemma SameStructure(m: Store, w: Word, m': Store, w': Word, fuel: nat)
    requires TreeOf(m, w, fuel).Some? && TreeOf(m', w', fuel) == TreeOf(m, w, fuel)
    ensures Structure(m, w).Some? && Structure(m', w') == Structure(m, w)
  {
    TreeComplete(m, w, fuel);
    TreeComplete(m', w', fuel);
  }

  lemma PrependCopy(m: Store, xs: seq<nat>, m1: Store, v: Word, mid: Store, vs: seq<Word>)
    requires xs != [] && (forall i :: 0 <= i < |xs| ==> xs[i] < |m.cells|) && m.Closed() && m1.Closed()
    requires m.Within(m1) && m1.Has(v) && Structure(m, m.cells[xs[0]].car).Some?
    requires Structure(m1, v) == Structure(m, m.cells[xs[0]].car)
    requires SameValues(m1, Cars(m1.cells, xs[1..]), mid, vs)
    ensures SameValues(m, Cars(m.cells, xs), mid, [v] + vs)
  {
    hide Structure;
    var us, vs' := Cars(m.cells, xs), [v] + vs;
    StructureGrows(m1, mid, v);
    forall i | 0 <= i < |us|
      ensures Structure(m, us[i]).Some? && Structure(mid, vs'[i]) == Structure(m, us[i]) && mid.Has(vs'[i])
    {
      if i > 0 {
        var u := Cars(m1.cells, xs[1..])[i - 1];
        assert u == us[i] && vs'[i] == vs[i - 1];
        StructureShrinks(m, m1, u);
      }
    }
  }

  lemma StructureShrinks(m: Store, m': Store, w: Word)
    requires m.Within(m') && m.Closed() && m.Has(w) && Structure(m', w).Some?
    ensures Structure(m, w) == Structure(m', w)
  {
    TreeGrows(m, m', w, m'.Size());
    TreeComplete(m, w, m'.Size());
  }

  lemma SpineConsed(v: Word, vs: seq<Word>, n: nat)
    ensures Spine([v] + vs, n) == Spine(vs, n) + [Cell(v, Last(|vs|, n))]
  {
  }

  // ----- what apply passes -----

  /** Lists with the same elements have the same structure. */
  lemma {:induction false} ListStructure(m: Store, w: Word, xs: seq<nat>, m': Store, w': Word, ys: seq<nat>)
    requires Path(m.cells, w, xs, Nil) && Path(m'.cells, w', ys, Nil) && |xs| == |ys|
    requires forall i :: 0 <= i < |xs| ==> xs[i] < |m.cells| && ys[i] < |m'.cells|
    requires forall i :: 0 <= i < |xs| ==>
      && Structure(m, m.cells[xs[i]].car).Some?
      && Structure(m', m'.cells[ys[i]].car) == Structure(m, m.cells[xs[i]].car)
    ensures Structure(m, w).Some? && Structure(m', w') == Structure(m, w)
    decreases |xs|
  {
    hide Structure;
    if xs == [] {
      NilStructure(m);
      NilStructure(m');
    } else {
      var xs1, ys1 := xs[1..], ys[1..];
      forall i | 0 <= i < |xs1|
        ensures xs1[i] < |m.cells| && ys1[i] < |m'.cells|
        ensures Structure(m, m.cells[xs1[i]].car).Some?
        ensures Structure(m', m'.cells[ys1[i]].car) == Structure(m, m.cells[xs1[i]].car)
      {
        assert xs1[i] == xs[i + 1] && ys1[i] == ys[i + 1];
      }
      ListStructure(m, m.cells[xs[0]].cdr, xs1, m', m'.cells[ys[0]].cdr, ys1);
      ConsStructure(m, xs[0]);
      ConsStructure(m', ys[0]);
    }
  }

  lemma NilStructure(m: Store)
    ensures Structure(m, Nil) == Some(TNil)
  {
  }

  lemma ConsStructure(m: Store, c: nat)
    requires c < |m.cells| && Structure(m, m.cells[c].car).Some? && Structure(m, m.cells[c].cdr).Some?
    ensures Structure(m, Cons(c)) ==
      Some(TCons(Structure(m, m.cells[c].car).value, Structure(m, m.cells[c].cdr).value))
  {
    assert TreeOf(m, Cons(c), m.Size() + 1) ==
      Some(TCons(Structure(m, m.cells[c].car).value, Structure(m, m.cells[c].cdr).value));
    TreeComplete(m, Cons(c), m.Size() + 1);
  }

  /** The words `apply` lays out for the values `us`, against the parameters of `args`:
      copies of the values, the defaults of the missing optionals, then nil or a list of
      copies of the values left over. */
  ghost predicate BindsArgs(m: Store, args: Args, us: seq<Word>, m': Store, ws: seq<Word>) {
    && |ws| == args.Total() + 1 && args.required <= |us| && m.Within(m')
    && (forall i :: 0 <= i < |us| && i < args.Total() ==>
          Structure(m, us[i]).Some? && Structure(m', ws[i]) == Structure(m, us[i]))
    && (forall i :: |us| <= i < args.Total() ==> ws[i] == args.optional[i - args.required])
    && (|us| <= args.Total() ==> ws[args.Total()] == Nil)
    && (|us| > args.Total() ==> IsList(m, us[args.Total()..], m', ws[args.Total()]))
  }

  /** `w` is a list of words with the structures of `us`. */
  ghost predicate IsList(m: Store, us: seq<Word>, m': Store, w: Word) {
    exists ys: seq<nat> :: IsListAt(m, us, m', w, ys)
  }

  ghost predicate IsListAt(m: Store, us: seq<Word>, m': Store, w: Word, ys: seq<nat>) {
    && Path(m'.cells, w, ys, Nil) && |ys| == |us|
    && forall i :: 0 <= i < |us| ==>
         && ys[i] < |m'.cells| && Structure(m, us[i]).Some?
         && Structure(m', m'.cells[ys[i]].car) == Structure(m, us[i])
  }

  /** Whatever is done above them, the copies stay what they are. */
  lemma CopiesStay(m: Store, us: seq<Word>, mid: Store, vs: seq<Word>, m': Store)
    requires SameValues(m, us, mid, vs) && mid.Within(m')
    ensures forall i :: 0 <= i < |us| ==>
      Structure(m, us[i]).Some? && Structure(mid, vs[i]).Some? && Structure(m', vs[i]) == Structure(m, us[i])
  {
    hide Structure;
    forall i | 0 <= i < |us|
      ensures Structure(m, us[i]).Some? && Structure(mid, vs[i]).Some? && Structure(m', vs[i]) == Structure(m, us[i])
    {
      StructureGrows(mid, m', vs[i]);
    }
  }

  lemma RestPath(cs: seq<Cell>, list: Word, ys: seq<nat>, t: nat)
    requires Path(cs, list, ys, Nil) && t < |ys|
    ensures var (list', cs') := Put(cs + [Cell(Cons(ys[t]), Nil)], list, TailRef(ys[..t]), Cons(|cs|));
      && Path(cs', list', ys[..t] + [|cs|], Nil) && Path(cs', Cons(ys[t]), ys[t..], Nil) && |cs'| == |cs| + 1
      && cs'[|cs|] == Cell(Cons(ys[t]), Nil)
      && (forall a :: 0 <= a < |cs| ==> cs'[a].car == cs[a].car)
      && (forall a :: 0 <= a < |cs| && (t > 0 ==> a != ys[t - 1]) ==> cs'[a] == cs[a])
  {
    var front := ys[..t];
    PathLinks(cs, list, ys, Nil);
    PathDistinct(cs, list, ys, Nil);
    PathAt(cs, list, ys, Nil, t);
    var (list', cs') := Put(cs + [Cell(Cons(ys[t]), Nil)], list, TailRef(front), Cons(|cs|));
    assert [|cs|][1..] == [];
    assert Path(cs', Cons(|cs|), [|cs|], Nil);
    PathFrame(cs, cs', Cons(ys[t]), ys[t..], Nil);
    if t == 0 {
      assert front + [|cs|] == [|cs|];
    } else {
      forall k | 0 <= k < |front| - 1 ensures cs'[front[k]].cdr == Cons(front[k + 1]) {
        assert ys[t - 1] != ys[k];
      }
      PathAppend(cs', list, front, Cons(|cs|), [|cs|], Nil);
    }
  }

  lemma AppendedElements(cs: seq<Cell>, list: Word, ys: seq<nat>, vs: seq<Word>, cs': seq<Cell>, list': Word)
    requires Path(cs, list, ys, Nil) && Appended(cs, ys, vs, cs', list')
    ensures var ws := ElementsOf(cs', list');
      && |ws| == |ys| + |vs|
      && (forall i :: 0 <= i < |ys| ==> ys[i] < |cs| && ws[i] == cs[ys[i]].car)
      && (forall i :: |ys| <= i < |ws| ==> ws[i] == vs[i - |ys|])
  {
    hide ElementsOf;
    PathLinks(cs, list, ys, Nil);
    var added := From(|cs|, |vs|);
    ElementsAre(cs', list', ys + added);
    assert forall i :: 0 <= i < |ys| ==> (ys + added)[i] == ys[i];
    assert forall i :: |ys| <= i < |ys| + |vs| ==> (ys + added)[i] == |cs| + (i - |ys|);
  }

  lemma SpineList(mid: Store, vs: seq<Word>)
    ensures var n := |mid.cells|; var cs := mid.cells + Spine(vs, n); var ys := Down(n, |vs|);
      Path(cs, Last(|vs|, n), ys, Nil) && forall i :: 0 <= i < |vs| ==> ys[i] < |cs| && cs[ys[i]].car == vs[i]
  {
    var n := |mid.cells|;
    var cs := mid.cells + Spine(vs, n);
    assert cs[n..n + |vs|] == Spine(vs, n);
    SpinePath(cs, vs, n, |vs|);
  }

  lemma RestIsList(m: Store, us: seq<Word>, vs: seq<Word>, m': Store, ys: seq<nat>, t: nat)
    requires t < |ys| == |us| == |vs| && Path(m'.cells, Cons(ys[t]), ys[t..], Nil)
    requires forall i :: 0 <= i < |us| ==> Structure(m, us[i]).Some? && Structure(m', vs[i]) == Structure(m, us[i])
    requires forall i :: 0 <= i < |us| ==> ys[i] < |m'.cells| && m'.cells[ys[i]].car == vs[i]
    ensures IsList(m, us[t..], m', Cons(ys[t]))
  {
    hide Structure;
    var rest := ys[t..];
    forall i | 0 <= i < |us| - t
      ensures rest[i] < |m'.cells| && Structure(m, us[t..][i]).Some?
      ensures Structure(m', m'.cells[rest[i]].car) == Structure(m, us[t..][i])
    {
      assert rest[i] == ys[t + i] && us[t..][i] == us[t + i] && m'.cells[rest[i]].car == vs[t + i];
    }
    assert IsListAt(m, us[t..], m', Cons(ys[t]), rest);
  }

  /** What is on the rearranged list; cells that are not of the list stay. */
  lemma ArrangedRest(cs: seq<Cell>, args: Args, list: Word, ys: seq<nat>)
    requires Path(cs, list, ys, Nil) && |ys| > args.Total()
    ensures var (list', cs') := Arrange(cs, args, list, ys); var (ws, t) := (ElementsOf(cs', list'), args.Total());
      && |ws| == t + 1 && (forall i :: 0 <= i < t ==> ys[i] < |cs| && ws[i] == cs[ys[i]].car)
      && ws[t] == Cons(ys[t]) && Path(cs', Cons(ys[t]), ys[t..], Nil) && |cs| <= |cs'|
      && forall a :: 0 <= a < |cs| ==> cs'[a].car == cs[a].car && (a in ys || cs'[a] == cs[a])
  {
    hide ElementsOf, Path;
    var t := args.Total();
    PathLinks(cs, list, ys, Nil);
    RestPath(cs, list, ys, t);
    var (list', cs') := Arrange(cs, args, list, ys);
    var zs := ys[..t] + [|cs|];
    ElementsAre(cs', list', zs);
    assert forall i :: 0 <= i < t ==> zs[i] == ys[i];
    assert zs[t] == |cs|;
  }

  lemma ArrangedDefaults(cs: seq<Cell>, args: Args, list: Word, ys: seq<nat>)
    requires Path(cs, list, ys, Nil) && args.required <= |ys| <= args.Total()
    ensures var (list', cs') := Arrange(cs, args, list, ys); var (ws, t) := (ElementsOf(cs', list'), args.Total());
      && |ws| == t + 1 && (forall i :: 0 <= i < |ys| ==> ys[i] < |cs| && ws[i] == cs[ys[i]].car)
      && (forall i :: |ys| <= i < t ==> ws[i] == args.optional[i - args.required]) && ws[t] == Nil && |cs| <= |cs'|
      && forall a :: 0 <= a < |cs| ==> a in ys || cs'[a] == cs[a]
  {
    hide ElementsOf, Path, AppendAll;
    var more := args.optional[|ys| - args.required..] + [Nil];
    AppendAllPath(cs, list, ys, more);
    var (list', cs') := Arrange(cs, args, list, ys);
    AppendedElements(cs, list, ys, more, cs', list');
  }

  lemma BindsRest(m: Store, args: Args, us: seq<Word>, mid: Store, vs: seq<Word>, list: Word, m1: Store)
    requires ListCopied(m, us, mid, vs, list, m1) && |us| > args.Total()
    ensures var (list', cells') := Arrange(m1.cells, args, list, Down(|mid.cells|, |vs|));
      BindsArgs(m, args, us, m1.(cells := cells'), ElementsOf(cells', list'))
  {
    hide Structure, ElementsOf, Spine, Arrange, Path, IsList;
    var t, ys, cs := args.Total(), Down(|mid.cells|, |vs|), m1.cells;
    SpineList(mid, vs);
    ArrangedRest(cs, args, list, ys);
    var (list', cs') := Arrange(cs, args, list, ys);
    BelowSame(mid, cs, cs', ys);
    CopiesStay(m, us, mid, vs, m1.(cells := cs'));
    RestIsList(m, us, vs, m1.(cells := cs'), ys, t);
  }

  lemma BelowSame(mid: Store, cs: seq<Cell>, cs': seq<Cell>, ys: seq<nat>)
    requires mid.cells <= cs && |cs| <= |cs'| && forall i :: 0 <= i < |ys| ==> ys[i] >= |mid.cells|
    requires forall a :: 0 <= a < |cs| ==> a in ys || cs'[a] == cs[a]
    ensures mid.cells <= cs'
  {
  }

  lemma BindsDefaults(m: Store, args: Args, us: seq<Word>, mid: Store, vs: seq<Word>, list: Word, m1: Store)
    requires ListCopied(m, us, mid, vs, list, m1) && args.required <= |us| <= args.Total()
    ensures var (list', cells') := Arrange(m1.cells, args, list, Down(|mid.cells|, |vs|));
      BindsArgs(m, args, us, m1.(cells := cells'), ElementsOf(cells', list'))
  {
    hide Structure, ElementsOf, Spine, Arrange, Path, IsList;
    var ys, cs := Down(|mid.cells|, |vs|), m1.cells;
    SpineList(mid, vs);
    ArrangedDefaults(cs, args, list, ys);
    var (list', cs') := Arrange(cs, args, list, ys);
    BelowSame(mid, cs, cs', ys);
    CopiesStay(m, us, mid, vs, m1.(cells := cs'));
  }

  /** `apply` binds copies of the values it is given, closures included, exactly where a
      direct call would put the values; it is defined precisely when the values are finite
      and at least the required arguments are given.  Nothing checks that a function
      without a rest parameter is not given too many. */
  lemma ApplyBinds(m: Store, args: Args, given: Word, xs: seq<nat>)
    requires m.Closed() && m.Has(given) && Path(m.cells, given, xs, Nil)
    ensures forall i :: 0 <= i < |xs| ==> xs[i] < |m.cells|
    ensures CallListArgs(m, args, given).Some? <==> Structure(m, given).Some? && |xs| >= args.required
    ensures CallListArgs(m, args, given).Some? ==>
      var (list, m') := CallListArgs(m, args, given).value;
      BindsArgs(m, args, Cars(m.cells, xs), m', ElementsOf(m'.cells, list))
  {
    hide DeepCopy, Arrange, ElementsOf, BindsArgs;
    DeepCopyCopies(m, given, m.Size());
    PathLinks(m.cells, given, xs, Nil);
    if Structure(m, given).Some? {
      var mid, vs := CopyList(m, given, m.Size(), xs);
      var (list, m1) := DeepCopy(m, given, m.Size()).value;
      var us := Cars(m.cells, xs);
      SpineList(mid, vs);
      WalkComplete(m1.cells, list, Down(|mid.cells|, |vs|), Nil);
      if |us| > args.Total() {
        BindsRest(m, args, us, mid, vs, list, m1);
      } else if |us| >= args.required {
        BindsDefaults(m, args, us, mid, vs, list, m1);
      }
    }
  }

  // ----- _call_list -----

  /** The lowest index the copying loop reaches: `jcxz` tests the low 16 bits of the
      counter, so the loop also stops at every other multiple of 0x10000. */
  function LastStored(n: nat): nat
    requires n > 0
  {
    (n - 1) - (n - 1) % 0x1_0000
  }

  /** The reserved stack area after the loop; `old` is what it held before. */
  function LaidOut(ws: seq<Word>, before: seq<Word>): (r: seq<Word>)
    requires |before| == |ws|
  {
    seq(|ws|, i requires 0 <= i < |ws| => if i >= LastStored(|ws|) then ws[i] else before[i])
  }

  /** Every word is laid out if and only if there are at most 65536 of them. */
  lemma LaidOutWhole(ws: seq<Word>, before: seq<Word>)
    requires |before| == |ws|
    ensures |ws| <= 0x1_0000 ==> LaidOut(ws, before) == ws
    ensures |ws| > 0x1_0000 ==> LastStored(|ws|) > 0 && LaidOut(ws, before)[0] == before[0]
  {
    if 0 < |ws| <= 0x1_0000 {
      assert LastStored(|ws|) == 0;
    }
  }

  /** From the last word down, the first index the test stops at. */
  lemma StoredLast(n: nat, ecx: nat)
    requires ecx < n
    ensures LastStored(n) < n
    ensures LastStored(n) <= ecx ==> (ecx % 0x1_0000 == 0 <==> ecx == LastStored(n))
  {
    var q := (n - 1) / 0x1_0000;
    assert LastStored(n) == q * 0x1_0000;
  }

  lemma LaidOutAt(ws: seq<Word>, before: seq<Word>)
    requires |before| == |ws|
    ensures |LaidOut(ws, before)| == |ws|
    ensures forall i :: 0 <= i < |ws| ==> LaidOut(ws, before)[i] == if i >= LastStored(|ws|) then ws[i] else before[i]
  {
  }

  method ElementAt(cs: seq<Cell>, list: Word, index: nat, ghost ys: seq<nat>) returns (w: Word)
    requires Path(cs, list, ys, Nil) && index < |ys|
    ensures ys[index] < |cs| && w == cs[ys[index]].car
  {
    var v := list;
    for i := 0 to index
      invariant Path(cs, v, ys[i..], Nil)
    {
      assert ys[i..][1..] == ys[i + 1..] && ys[i..][0] == ys[i];
      v := cs[v.c].cdr;
    }
    w := cs[v.c].car;
  }

  /** The loop of _call_list: `area` is the reserved stack, `ecx` counts down. */
  method CallListLoop(cs: seq<Cell>, list: Word, ghost ys: seq<nat>, area: array<Word>)
    requires Path(cs, list, ys, Nil) && area.Length == |ys|
    modifies area
    ensures |ElementsOf(cs, list)| == area.Length
    ensures area[..] == LaidOut(ElementsOf(cs, list), old(area[..]))
  {
    hide ElementsOf, Path, LaidOut, LastStored;
    ElementsAre(cs, list, ys);
    LaidOutAt(ElementsOf(cs, list), area[..]);
    var ecx := area.Length;
    if ecx == 0 { return; }
    ecx := ecx - 1;
    area[ecx] := ElementAt(cs, list, ecx, ys);
    StoredLast(area.Length, ecx);
    while ecx % 0x1_0000 != 0
      invariant LastStored(area.Length) <= ecx < area.Length
      invariant (ecx % 0x1_0000 == 0 <==> ecx == LastStored(area.Length))
      invariant forall i :: ecx <= i < area.Length ==> area[i] == ElementsOf(cs, list)[i]
      invariant forall i :: 0 <= i < ecx ==> area[i] == old(area[i])
    {
      ecx := ecx - 1;
      area[ecx] := ElementAt(cs, list, ecx, ys);
      StoredLast(area.Length, ecx);
    }
  }
}
