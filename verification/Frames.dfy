/** The relation between a source environment and a running stack frame. */
module Frames {
  import opened Wrappers
  import opened Sexps
  import opened Words
  import opened Cells
  import opened Machine
  import opened Scopes
  import opened ScopeFacts
  import opened Codegen
  import opened Source
  import opened CodegenFacts

  /** A compiled function: its source, the scope it stands in, and what was emitted.
      `vis` bounds the names visible where it stands. */
  datatype Act = Act(u: Unit, f: Fun, parent: Option<Scope>, vis: set<string>, g: Gen) {
    ghost function Entries(): nat { FrameEntries(f.body) }
    ghost function Real(): nat { g.scope.args.Real() }
    ghost function Free(): seq<string> { Frees(g.scope.vars) }
  }

  /** Every Lisp function of the environment holds the code the compiler emits for it. */
  ghost predicate EnvOk(u: Unit, env: Env)
    decreases env, 0
  {
    env.Function? ==>
      && EnvOk(u, env.prev)
      && (env.def.Lisp? ==> Compiled(FunctionAct(u, env)) && env.def.code == FunctionAct(u, env).g.code
                            && env.args == FunctionAct(u, env).g.scope.args)
      && (env.def.Apply? ==> env.args == Args(2, [], false))
  }

  ghost function FunctionAct(u: Unit, env: Env): Act
    requires env.Function? && env.def.Lisp?
  {
    var r := CompileFunction(u, env.prev, env.def.arglist, env.def.body, env.name, None);
    Act(u, Fun(env.prev, env.name, env.def.arglist, env.def.body, map[]), None, {},
        if r.Ok? then r.value else Gen([], FreshScope("", None)))
  }

  /** `IsCompiled`, kept folded: a proof that needs what it says asks for it through
      `Compilation`, and all other proofs carry it along unopened. */
  ghost predicate Compiled(a: Act)
    decreases a.f.env, 2
  {
    forall x: Act {:trigger Opened(x)} :: x == a ==> IsCompiled(x)
  }

  lemma Compilation(a: Act)
    requires Compiled(a)
    ensures IsCompiled(a)
  {
    assert Opened(a);
  }

  ghost predicate IsCompiled(a: Act)
    decreases a.f.env, 1
  {
    && CompileFunction(a.u, a.f.env, a.f.arglist, a.f.body, a.f.name, a.parent) == Ok(a.g)
    && TidyFunction(a.u, a.f.arglist, a.f.body, a.vis) && a.f.rho.Keys <= a.vis
    && (a.parent.Some? ==> WellNumbered(a.parent.value))
    && EnvOk(a.u, a.f.env)
  }

  // ----- heaps -----

  /** `data` holds the values of the captured names that the environment knows. */
  ghost predicate Data(rho: Rho, free: seq<string>, data: seq<Word>) {
    |data| == |free| && forall k :: 0 <= k < |free| && free[k] in rho ==> data[k] == rho[free[k]]
  }

  ghost predicate ClosureVia(a: Act, u: Unit, c: SClosure, c': Closure) {
    && a.u == u && a.f == Fun(c.env, "recurse", c.arglist, c.body, c.rho) && Compiled(a)
    && c.free == a.Free() && c'.code == a.g.code && c'.args == a.g.scope.args && Data(c.rho, a.Free(), c'.data)
  }

  /** A machine closure stands for a source closure: its code is the compiled lambda
      and its data the captured part of the lexical environment. */
  ghost predicate ClosureRel(u: Unit, c: SClosure, c': Closure) {
    exists a: Act :: ClosureVia(a, u, c, c')
  }

  /** Both sides allocate alike: the same cells, and closures related one by one. */
  ghost predicate HeapRel(u: Unit, h: Heap, st: State) {
    && st.cells == h.cells && |st.clos| == |h.clos|
    && forall k {:trigger ClosureRel(u, h.clos[k], st.clos[k])} :: 0 <= k < |h.clos| ==>
      ClosureRel(u, h.clos[k], st.clos[k])
  }

  // ----- frames -----

  ghost predicate Shape(a: Act, st: State) {
    && st.code == a.g.code
    && 2 + a.Real() <= st.ebp && st.ebp + a.Entries() <= |st.stack|
    && st.stack[st.ebp - 1].Frame? && st.stack[st.ebp - 2].RetAddr?
  }

  ghost predicate EdiOk(a: Act, st: State) {
    a.Free() != [] ==> st.edi.Clo? && st.edi.k < |st.clos| && Data(a.f.rho, a.Free(), st.clos[st.edi.k].data)
  }

  /** Where the frame keeps the value of a visible name. */
  ghost predicate LocatedAt(a: Act, v: Option<Variable>, x: string, w: Word, st: State, d: nat)
    requires Shape(a, st)
  {
    match v
    case None => x in a.f.rho && w == a.f.rho[x]
    case Some(v) =>
      match v.kind
      case Argument => v.number < a.Real() && st.stack[st.ebp - 3 - v.number] == w
      case Bound => v.number < d && v.number < a.Entries() && st.stack[st.ebp + v.number] == w
      case Free => x in a.f.rho && w == a.f.rho[x]
  }

  ghost predicate Located(a: Act, s: Scope, rho: Rho, st: State, d: nat)
    requires Shape(a, st)
  {
    forall x :: x in rho ==> LocatedAt(a, Find(s.vars, x), x, rho[x], st, d)
  }

  /** The machine is running `a`, the compiler stood at scope `s` with `d` slots in use,
      and the frame agrees with the environment `rho`. */
  ghost predicate Here(a: Act, s: Scope, d: nat, rho: Rho, vis: set<string>, h: Heap, st: State) {
    && Compiled(a) && HeapRel(a.u, h, st) && Shape(a, st)
    && forall x: Scope {:trigger Opened(x)} :: x == s ==> Inside(a, x, d, rho, vis, st)
  }

  ghost predicate Inside(a: Act, s: Scope, d: nat, rho: Rho, vis: set<string>, st: State)
    requires Shape(a, st)
  {
    && Ready(s, d, a.Entries()) && s.args == a.g.scope.args && s.fname == a.f.name
    && Frees(s.vars) <= a.Free() && rho.Keys <= vis && EdiOk(a, st) && Located(a, s, rho, st, d)
  }

  lemma HereFacts(a: Act, s: Scope, d: nat, rho: Rho, vis: set<string>, h: Heap, st: State)
    requires Here(a, s, d, rho, vis, h, st)
    ensures Inside(a, s, d, rho, vis, st)
  {
    assert Opened(s);
  }

  /** From `st` to `st'` the words `ws` were pushed, ws[0] last; otherwise only stack
      slots not in use may differ, and closures are only added. */
  ghost predicate Pushed(st: State, st': State, ws: seq<Word>, d: nat, n: nat) {
    && st'.code == st.code && st'.ebp == st.ebp && st'.edi == st.edi && st.clos <= st'.clos
    && |st'.stack| == |st.stack| + |ws|
    && (forall j :: 0 <= j < |st.stack| && !(st.ebp + d <= j < st.ebp + n) ==> st'.stack[j] == st.stack[j])
    && (forall j :: |st.stack| <= j < |st'.stack| ==> st'.stack[j] == ws[|st'.stack| - 1 - j])
  }

  lemma PushedTrans(st: State, st1: State, st2: State, ws1: seq<Word>, ws2: seq<Word>, d: nat, n: nat)
    requires Pushed(st, st1, ws1, d, n) && Pushed(st1, st2, ws2, d, n) && st.ebp + n <= |st.stack|
    ensures Pushed(st, st2, ws2 + ws1, d, n)
  {
    forall j | |st.stack| <= j < |st2.stack| ensures st2.stack[j] == (ws2 + ws1)[|st2.stack| - 1 - j] {
      if j < |st1.stack| {
        assert st2.stack[j] == st1.stack[j];
      }
    }
  }

  lemma LocationKept(a: Act, v: Option<Variable>, v': Option<Variable>, x: string, w: Word, st: State, st': State,
                     d: nat, ws: seq<Word>)
    requires Shape(a, st) && Shape(a, st') && Pushed(st, st', ws, d, a.Entries())
    requires LocatedAt(a, v, x, w, st, d)
    requires v' == v || (v.None? && v'.Some? && v'.value.kind == Free)
    ensures LocatedAt(a, v', x, w, st', d)
  {
  }

  lemma LocatedStays(a: Act, s: Scope, s': Scope, d: nat, rho: Rho, vis: set<string>, st: State, st': State,
                     ws: seq<Word>)
    requires Shape(a, st) && Shape(a, st') && Located(a, s, rho, st, d) && rho.Keys <= vis
    requires Pushed(st, st', ws, d, a.Entries()) && Kept(s.vars, s'.vars, vis)
    ensures Located(a, s', rho, st', d)
  {
    forall x | x in rho ensures LocatedAt(a, Find(s'.vars, x), x, rho[x], st', d) {
      assert x in vis;
      LocationKept(a, Find(s.vars, x), Find(s'.vars, x), x, rho[x], st, st', d, ws);
    }
  }

  lemma InsideStays(a: Act, s: Scope, s': Scope, d: nat, rho: Rho, vis: set<string>, st: State, st': State,
                    ws: seq<Word>)
    requires Shape(a, st) && Inside(a, s, d, rho, vis, st) && Pushed(st, st', ws, d, a.Entries())
    requires Evolved(s, s', vis, d, a.Entries()) && Frees(s'.vars) <= a.Free()
    ensures Shape(a, st') && Inside(a, s', d, rho, vis, st')
  {
    LocatedStays(a, s, s', d, rho, vis, st, st', ws);
  }

  lemma Stay(a: Act, s: Scope, s': Scope, d: nat, rho: Rho, vis: set<string>, h: Heap, h': Heap, st: State,
             st': State, ws: seq<Word>)
    requires Here(a, s, d, rho, vis, h, st) && Pushed(st, st', ws, d, a.Entries())
    requires Evolved(s, s', vis, d, a.Entries()) && Frees(s'.vars) <= a.Free() && HeapRel(a.u, h', st')
    ensures Here(a, s', d, rho, vis, h', st')
  {
    HereFacts(a, s, d, rho, vis, h, st);
    InsideStays(a, s, s', d, rho, vis, st, st', ws);
  }

  lemma StayPut(a: Act, s: Scope, d: nat, rho: Rho, vis: set<string>, h: Heap, h': Heap, st: State, st': State,
                ws: seq<Word>)
    requires Here(a, s, d, rho, vis, h, st) && Pushed(st, st', ws, d, a.Entries()) && HeapRel(a.u, h', st')
    ensures Here(a, s, d, rho, vis, h', st')
  {
    HereFacts(a, s, d, rho, vis, h, st);
    EvolvedSelf(s, vis, d, a.Entries());
    Stay(a, s, s, d, rho, vis, h, h', st, st', ws);
  }

  // ----- outcomes -----

  ghost predicate Normal(a: Act, st: State, st': State, pc: nat, out: Out, d: nat) {
    Pushed(st, st', [], d, a.Entries()) && st'.pc == pc && st'.eax == out.value && HeapRel(a.u, out.heap, st')
  }

  /** The function has returned: the frame is gone, eip, ebp and edi are the caller's;
      only the argument words may have been overwritten. */
  ghost predicate Returned(a: Act, st: State, st': State, out: Out)
    requires Shape(a, st)
  {
    var r := st.stack[st.ebp - 2];
    && st'.code == r.code && st'.pc == r.pc && st'.ebp == st.stack[st.ebp - 1].ebp && st'.edi == st.edi
    && |st'.stack| == st.ebp - 2
    && (forall j :: 0 <= j < st.ebp - 2 - a.Real() ==> st'.stack[j] == st.stack[j])
    && st.clos <= st'.clos && st'.eax == out.value && HeapRel(a.u, out.heap, st')
  }

  /** A form in tail position may instead finish the whole function by a self-call. */
  ghost predicate Finished(a: Act, st: State, st': State, tail: bool, pc: nat, out: Out, d: nat)
    requires Shape(a, st)
  {
    Normal(a, st, st', pc, out, d) || (tail && Returned(a, st, st', out))
  }

  ghost predicate Done(a: Act, st: State, st': State, tail: bool, pc: nat, out: Out, d: nat) {
    Shape(a, st) && forall x: State {:trigger Opened(x)} :: x == st' ==> Finished(a, st, x, tail, pc, out, d)
  }

  lemma DoneFacts(a: Act, st: State, st': State, tail: bool, pc: nat, out: Out, d: nat)
    requires Done(a, st, st', tail, pc, out, d)
    ensures Shape(a, st) && Finished(a, st, st', tail, pc, out, d)
  {
    assert Opened(st');
  }

  lemma NormalDone(a: Act, st: State, st': State, tail: bool, pc: nat, out: Out, d: nat)
    requires Shape(a, st) && Normal(a, st, st', pc, out, d)
    ensures Done(a, st, st', tail, pc, out, d)
  {
    assert Finished(a, st, st', tail, pc, out, d);
  }

  lemma DoneAfter(a: Act, st: State, st1: State, st2: State, tail: bool, pc: nat, out: Out, d: nat)
    requires Shape(a, st) && Pushed(st, st1, [], d, a.Entries())
    requires Shape(a, st1) && Done(a, st1, st2, tail, pc, out, d)
    ensures Done(a, st, st2, tail, pc, out, d)
  {
    DoneFacts(a, st1, st2, tail, pc, out, d);
    if Normal(a, st1, st2, pc, out, d) {
      PushedTrans(st, st1, st2, [], [], d, a.Entries());
      var none: seq<Word> := [];
      assert none + none == none;
    }
    assert Finished(a, st, st2, tail, pc, out, d);
  }

  // ----- code in place -----

  ghost predicate CodeAt(code: seq<Instr>, pc: nat, c: seq<Instr>) {
    pc + |c| <= |code| && forall i {:trigger c[i]} :: 0 <= i < |c| ==> code[pc + i] == c[i]
  }

  lemma CodeSplit(code: seq<Instr>, pc: nat, a: seq<Instr>, b: seq<Instr>)
    requires CodeAt(code, pc, a + b)
    ensures CodeAt(code, pc, a) && CodeAt(code, pc + |a|, b)
  {
    forall i | 0 <= i < |a| ensures code[pc + i] == a[i] {
      assert (a + b)[i] == a[i];
    }
    forall i | 0 <= i < |b| ensures code[pc + |a| + i] == b[i] {
      assert (a + b)[|a| + i] == b[i];
    }
  }

  lemma CodeSplit3(code: seq<Instr>, pc: nat, a: seq<Instr>, b: seq<Instr>, c: seq<Instr>)
    requires CodeAt(code, pc, a + b + c)
    ensures CodeAt(code, pc, a) && CodeAt(code, pc + |a|, b) && CodeAt(code, pc + |a| + |b|, c)
  {
    CodeSplit(code, pc, a + b, c);
    CodeSplit(code, pc, a, b);
  }

  lemma Code1(code: seq<Instr>, pc: nat, i: Instr)
    requires CodeAt(code, pc, [i])
    ensures code[pc] == i
  {
    assert [i][0] == code[pc + 0];
  }

  lemma Code2(code: seq<Instr>, pc: nat, i: Instr, j: Instr)
    requires CodeAt(code, pc, [i, j])
    ensures code[pc] == i && code[pc + 1] == j
  {
    var c := [i, j];
    assert c[0] == code[pc + 0] && c[1] == code[pc + 1];
  }

  lemma Code3(code: seq<Instr>, pc: nat, i: Instr, j: Instr, k: Instr)
    requires CodeAt(code, pc, [i, j, k])
    ensures code[pc] == i && code[pc + 1] == j && code[pc + 2] == k
  {
    var c := [i, j, k];
    assert c[0] == code[pc + 0] && c[1] == code[pc + 1] && c[2] == code[pc + 2];
  }

  lemma Code4(code: seq<Instr>, pc: nat, i: Instr, j: Instr, k: Instr, l: Instr)
    requires CodeAt(code, pc, [i, j, k, l])
    ensures code[pc] == i && code[pc + 1] == j && code[pc + 2] == k && code[pc + 3] == l
  {
    var c := [i, j, k, l];
    assert c[0] == code[pc + 0] && c[1] == code[pc + 1] && c[2] == code[pc + 2] && c[3] == code[pc + 3];
  }
}
