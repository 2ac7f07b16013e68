/** Copying for `apply` does the same on both sides: deep_copy in the machine's memory
    follows deep_copy in the source's, and the new closures stand for each other. */
module CopyFacts {
  import opened Wrappers
  import opened Sexps
  import opened Words
  import opened Cells
  import opened CallList
  import opened Scopes
  import opened ScopeFacts
  import opened Codegen
  import opened Machine
  import opened Source
  import opened CodegenFacts
  import opened Frames

  // ----- two memories -----

  /** `m'` is `m`, except that it may know the captured values of more closures. */
  ghost predicate Agrees(m: Store, m': Store) {
    && m'.cells == m.cells && |m'.kids| == |m.kids|
    && forall k :: 0 <= k < |m.kids| ==>
         m'.kids[k].origin == m.kids[k].origin && (m.kids[k].data.Some? ==> m'.kids[k].data == m.kids[k].data)
  }

  lemma {:induction false} CopyAgrees(m: Store, m': Store, w: Word, fuel: nat)
    requires Agrees(m, m') && DeepCopy(m, w, fuel).Some?
    ensures DeepCopy(m', w, fuel).Some? && DeepCopy(m', w, fuel).value.0 == DeepCopy(m, w, fuel).value.0
    ensures Agrees(DeepCopy(m, w, fuel).value.1, DeepCopy(m', w, fuel).value.1)
    decreases fuel, 0, 0
  {
    match w
    case Cons(c) => CopyAllAgrees(m, m', [m.cells[c].car, m.cells[c].cdr], fuel - 1);
    case Clo(k) => CopyAllAgrees(NewKid(m, m.kids[k].origin), NewKid(m', m.kids[k].origin), m.kids[k].data.value,
                                 fuel - 1);
    case _ =>
  }

  lemma {:induction false} CopyAllAgrees(m: Store, m': Store, ws: seq<Word>, fuel: nat)
    requires Agrees(m, m') && CopyAll(m, ws, fuel).Some?
    ensures CopyAll(m', ws, fuel).Some? && CopyAll(m', ws, fuel).value.0 == CopyAll(m, ws, fuel).value.0
    ensures Agrees(CopyAll(m, ws, fuel).value.1, CopyAll(m', ws, fuel).value.1)
    decreases fuel, 1, |ws|
  {
    hide DeepCopy;
    if ws != [] {
      CopyAgrees(m, m', ws[0], fuel);
      CopyAllAgrees(DeepCopy(m, ws[0], fuel).value.1, DeepCopy(m', ws[0], fuel).value.1, ws[1..], fuel);
    }
  }

  lemma ArgsAgree(m: Store, m': Store, args: Args, given: Word)
    requires Agrees(m, m') && CallListArgs(m, args, given).Some?
    ensures CallListArgs(m', args, given).Some?
    ensures CallListArgs(m', args, given).value.0 == CallListArgs(m, args, given).value.0
    ensures Agrees(CallListArgs(m, args, given).value.1, CallListArgs(m', args, given).value.1)
  {
    hide DeepCopy;
    CopyAgrees(m, m', given, m.Size());
  }

  // ----- what the new closures are -----

  /** The closures of `m` beyond those of `base` are copies of those of `base`, and have
      as many captured values. */
  ghost predicate CopiesOf(base: Store, m: Store) {
    && base.Within(m)
    && forall k :: |base.kids| <= k < |m.kids| ==> CopyOfOld(base, m.kids[k])
  }

  ghost predicate CopyOfOld(base: Store, kid: Kid) {
    && kid.origin < |base.kids| && base.kids[kid.origin].data.Some?
    && (kid.data.Some? ==> |kid.data.value| == |base.kids[kid.origin].data.value|)
  }

  /** Every closure says what it is a copy of. */
  ghost predicate Original(base: Store) { forall k :: 0 <= k < |base.kids| ==> base.kids[k].origin == k }

  /** From `m` to `m'` the store grew, and the new closures got their values. */
  ghost predicate Grew(m: Store, m': Store) {
    m.Within(m') && forall k :: |m.kids| <= k < |m'.kids| ==> m'.kids[k].data.Some?
  }

  lemma {:induction false} CopyGrows(base: Store, m: Store, w: Word, fuel: nat)
    requires Original(base) && CopiesOf(base, m) && DeepCopy(m, w, fuel).Some?
    ensures var m' := DeepCopy(m, w, fuel).value.1; CopiesOf(base, m') && Grew(m, m')
    decreases fuel, 0, 0
  {
    match w
    case Cons(c) => CopyAllGrows(base, m, [m.cells[c].car, m.cells[c].cdr], fuel - 1);
    case Clo(k) => ClosureGrows(base, m, k, fuel);
    case _ =>
  }

  lemma {:induction false} ClosureGrows(base: Store, m: Store, k: nat, fuel: nat)
    requires Original(base) && CopiesOf(base, m) && fuel > 0 && DeepCopy(m, Clo(k), fuel).Some?
    ensures var m' := DeepCopy(m, Clo(k), fuel).value.1; CopiesOf(base, m') && Grew(m, m')
    decreases fuel - 1, 2, 0
  {
    hide CopyAll;
    var n, ws := |m.kids|, m.kids[k].data.value;
    var m0 := NewKid(m, m.kids[k].origin);
    CopyAllGrows(base, m0, ws, fuel - 1);
    var (vs, m1) := CopyAll(m0, ws, fuel - 1).value;
    assert m1.kids[n] == m0.kids[n];
    assert CopyOfOld(base, m1.kids[n]);
    assert k < |base.kids| ==> m.kids[k] == base.kids[k];
    assert DeepCopy(m, Clo(k), fuel).value.1 == FillKid(m1, n, vs);
  }

  lemma {:induction false} CopyAllGrows(base: Store, m: Store, ws: seq<Word>, fuel: nat)
    requires Original(base) && CopiesOf(base, m) && CopyAll(m, ws, fuel).Some?
    ensures var m' := CopyAll(m, ws, fuel).value.1; CopiesOf(base, m') && Grew(m, m')
    decreases fuel, 1, |ws|
  {
    hide DeepCopy;
    if ws != [] {
      CopyGrows(base, m, ws[0], fuel);
      var m1 := DeepCopy(m, ws[0], fuel).value.1;
      CopyAllGrows(base, m1, ws[1..], fuel);
    }
  }

  lemma ArgsGrow(base: Store, args: Args, given: Word)
    requires Original(base) && CallListArgs(base, args, given).Some?
    ensures var m' := CallListArgs(base, args, given).value.1;
      |base.kids| <= |m'.kids| && forall k :: |base.kids| <= k < |m'.kids| ==>
        CopyOfOld(base, m'.kids[k]) && m'.kids[k].data.Some?
  {
    hide DeepCopy;
    CopyGrows(base, base, given, base.Size());
  }

  // ----- related heaps -----

  lemma MemoriesAgree(u: Unit, h: Heap, st: State)
    requires HeapRel(u, h, st)
    ensures Agrees(MemoryOf(h), Memory(st)) && Original(MemoryOf(h))
  {
    hide ClosureVia;
    forall k | 0 <= k < |h.clos| && CapturedValues(h.clos[k]).Some? ensures CapturedValues(h.clos[k]) ==
      Some(st.clos[k].data) {
      assert ClosureRel(u, h.clos[k], st.clos[k]);
      var a: Act :| ClosureVia(a, u, h.clos[k], st.clos[k]);
      SameData(a, u, h.clos[k], st.clos[k]);
    }
  }

  lemma SameData(a: Act, u: Unit, c: SClosure, c': Closure)
    requires ClosureVia(a, u, c, c') && CapturedValues(c).Some?
    ensures CapturedValues(c) == Some(c'.data)
  {
    hide Compiled, Frees;
    var vs := CapturedValues(c).value;
    forall i | 0 <= i < |vs| ensures vs[i] == c'.data[i] {
      assert c.free[i] in c.rho;
    }
    assert vs == c'.data;
  }

  /** Copies of related closures are related. */
  lemma CopyRelated(a: Act, u: Unit, c: SClosure, c': Closure, ds: seq<Word>)
    requires ClosureVia(a, u, c, c') && CapturedValues(c).Some? && |ds| == |c.free|
    ensures ClosureRel(u, c.(rho := c.rho + Bind(c.free, ds)), c'.(data := ds))
  {
    hide Compiled, Frees;
    var rho := c.rho + Bind(c.free, ds);
    FreeDistinct(a);
    BindNames(c.free, ds);
    var a' := a.(f := a.f.(rho := rho));
    assert rho.Keys == c.rho.Keys;
    CompiledCopy(a, a');
    assert ClosureVia(a', u, c.(rho := rho), c'.(data := ds));
  }

  lemma CompiledCopy(a: Act, a': Act)
    requires Compiled(a) && a' == a.(f := a.f.(rho := a'.f.rho)) && a'.f.rho.Keys == a.f.rho.Keys
    ensures Compiled(a')
  {
    hide CompileFunction, TidyFunction, EnvOk, WellNumbered;
    Compilation(a);
    assert IsCompiled(a');
  }

  lemma {:induction false} BindNames(names: seq<string>, ws: seq<Word>)
    requires |names| <= |ws| && forall i, j :: 0 <= i < j < |names| ==> names[i] != names[j]
    ensures forall x :: x in Bind(names, ws) <==> x in names
    ensures forall i :: 0 <= i < |names| ==> names[i] in Bind(names, ws) && Bind(names, ws)[names[i]] == ws[i]
    decreases |names|
  {
    if names != [] {
      var n := |names| - 1;
      BindNames(names[..n], ws);
      assert names == names[..n] + [names[n]];
      forall i | 0 <= i < |names| ensures names[i] in Bind(names, ws) && Bind(names, ws)[names[i]] == ws[i] {
        if i < n { assert names[..n][i] == names[i]; }
      }
    }
  }

  lemma FreeDistinct(a: Act)
    requires Compiled(a)
    ensures forall i, j :: 0 <= i < j < |a.Free()| ==> a.Free()[i] != a.Free()[j]
  {
    hide CompileFunction, TidyFunction, EnvOk;
    Compilation(a);
    SoundFunction(a.u, a.f.env, a.f.arglist, a.f.body, a.f.name, a.parent, a.vis);
    FreesDistinct(a.g.scope.vars);
  }

  /** Passing a list to a closure: both sides make the same list and the same closures. */
  lemma ArgsRelated(u: Unit, args: Args, list: Word, h: Heap, st: State)
    requires HeapRel(u, h, st) && CallListArgs(MemoryOf(h), args, list).Some?
    ensures CallListArgs(Memory(st), args, list).Some?
    ensures var ((w, m), (w', m')) := (CallListArgs(MemoryOf(h), args, list).value,
                                       CallListArgs(Memory(st), args, list).value);
      && w' == w && m'.cells == m.cells && st.clos <= WithCopies(st.clos, m'.kids)
      && HeapRel(u, Heap(m.cells, CopiesAdded(h.clos, m.kids)),
                 st.(cells := m.cells, clos := WithCopies(st.clos, m'.kids)))
  {
    hide CallListArgs, ClosureRel;
    MemoriesAgree(u, h, st);
    ArgsAgree(MemoryOf(h), Memory(st), args, list);
    ArgsGrow(MemoryOf(h), args, list);
    var (m, m') := (CallListArgs(MemoryOf(h), args, list).value.1, CallListArgs(Memory(st), args, list).value.1);
    var cs, cs' := CopiesAdded(h.clos, m.kids), WithCopies(st.clos, m'.kids);
    forall k | 0 <= k < |cs| ensures ClosureRel(u, cs[k], cs'[k]) {
      if k >= |h.clos| { NewRelated(u, h, st, m.kids[k], m'.kids[k]); }
    }
  }

  lemma NewRelated(u: Unit, h: Heap, st: State, kid: Kid, kid': Kid)
    requires HeapRel(u, h, st) && CopyOfOld(MemoryOf(h), kid) && kid.data.Some? && kid' == kid
    ensures ClosureRel(u, CopyOf(h.clos, kid), CopiedClosure(st.clos, kid'))
  {
    hide ClosureVia;
    var c, c' := h.clos[kid.origin], st.clos[kid.origin];
    assert ClosureRel(u, c, c');
    var a: Act :| ClosureVia(a, u, c, c');
    CopyRelated(a, u, c, c', kid.data.value);
  }
}
