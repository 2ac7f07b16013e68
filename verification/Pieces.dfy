/** Pieces of the compiler's correctness proof that need no induction. */
module Pieces {
  import opened Wrappers
  import opened Sexps
  import opened Words
  import opened Cells
  import opened Machine
  import opened Scopes
  import opened ScopeFacts
  import opened Codegen
  import opened Source
  import opened CodegenFacts
  import opened Steps
  import opened Frames

  /** The operand of a variable's load instruction is in range, and holds the variable's
      value if it is visible. */
  ghost predicate Holds(v: Variable, st: State, visible: bool, w: Word) {
    match v.kind
    case Argument => v.number + 3 <= st.ebp <= |st.stack| && (visible ==> st.stack[st.ebp - 3 - v.number] == w)
    case Bound => st.ebp + v.number < |st.stack| && (visible ==> st.stack[st.ebp + v.number] == w)
    case Free =>
      && st.edi.Clo? && st.edi.k < |st.clos| && v.number < |st.clos[st.edi.k].data|
      && (visible ==> st.clos[st.edi.k].data[v.number] == w)
  }

  lemma VariableHolds(a: Act, s: Scope, d: nat, rho: Rho, vis: set<string>, st: State, name: string, v: Variable)
    requires Shape(a, st) && Inside(a, s, d, rho, vis, st) && Find(s.vars, name) == Some(v)
    ensures Holds(v, st, name in rho, if name in rho then rho[name] else Nil)
  {
    hide Frees, EdiOk, Data, Numbered, Resolved, Slotted, Find, WellNumbered;
    if name in rho {
      assert LocatedAt(a, Some(v), name, rho[name], st, d);
    }
    match v.kind
    case Argument => assert v.number < a.Real();
    case Bound => assert v.number < a.Entries();
    case Free =>
      assert Numbered(s.vars) by { NumberedOf(s); }
      CaptureHolds(a, s.vars, st, name, v);
  }

  lemma NumberedOf(s: Scope)
    requires WellNumbered(s)
    ensures Numbered(s.vars)
  {
  }

  lemma CaptureHolds(a: Act, vars: seq<Variable>, st: State, name: string, v: Variable)
    requires Numbered(vars) && Frees(vars) <= a.Free() && EdiOk(a, st) && Find(vars, name) == Some(v) && v.kind == Free
    ensures Holds(v, st, name in a.f.rho, if name in a.f.rho then a.f.rho[name] else Nil)
  {
    hide Frees, Numbered;
    FreeNumber(vars, name);
    assert a.Free()[v.number] == name;
  }

  lemma DoLoadVariable(b: Builtins, s0: State, st: State, v: Variable, visible: bool, w: Word) returns (st': State)
    requires Reaches(b, s0, st) && At(st, CompileVariable(v)) && Holds(v, st, visible, w)
    ensures Reaches(b, s0, st') && st' == st.(pc := st.pc + 1, eax := st'.eax)
    ensures visible ==> st'.eax == w
  {
    match v.kind
    case Argument => st' := DoLoad(b, s0, st, v.number + 2);
    case Bound => st' := DoLoad(b, s0, st, -(v.number + 1));
    case Free => st' := DoLoadEdi(b, s0, st, v.number);
  }

  /** Loading a variable never gets stuck, and gives its value if it is visible. */
  lemma LoadVariable(b: Builtins, s0: State, a: Act, s: Scope, d: nat, rho: Rho, vis: set<string>, st: State,
                     name: string, v: Variable)
    returns (st': State)
    requires Reaches(b, s0, st) && Shape(a, st) && Inside(a, s, d, rho, vis, st)
    requires Find(s.vars, name) == Some(v) && At(st, CompileVariable(v))
    ensures Reaches(b, s0, st') && st' == st.(pc := st.pc + 1, eax := st'.eax)
    ensures name in rho ==> st'.eax == rho[name]
  {
    VariableHolds(a, s, d, rho, vis, st, name, v);
    st' := DoLoadVariable(b, s0, st, v, name in rho, if name in rho then rho[name] else Nil);
  }

  /** push eax; call cons; add esp, 8; push eax: the top of the stack is consed onto. */
  lemma DoPushCons(b: Builtins, s0: State, st: State) returns (st': State)
    requires Reaches(b, s0, st) && CodeAt(st.code, st.pc, PUSH_CONS) && |st.stack| >= 1
    ensures Reaches(b, s0, st')
    ensures st' == st.(pc := st.pc + 4, eax := Cons(|st.cells|), stack := st.stack[|st.stack| - 1 := Cons(|st.cells|)],
                       cells := st.cells + [Cell(st.eax, st.stack[|st.stack| - 1])])
  {
    Code4(st.code, st.pc, PushEax, CallCons, AddEsp(2), PushEax);
    var s1 := DoPush(b, s0, st);
    var s2 := DoCons(b, s0, s1);
    var s3 := DoAddEsp(b, s0, s2, 2);
    st' := DoPush(b, s0, s3);
    assert st'.stack == st.stack[|st.stack| - 1 := Cons(|st.cells|)];
  }

  lemma DoPushMerge(b: Builtins, s0: State, st: State, w: Word, cells: seq<Cell>) returns (st': State)
    requires Reaches(b, s0, st) && CodeAt(st.code, st.pc, PUSH_MERGE) && |st.stack| >= 1
    requires Merge2(st.cells, st.eax, st.stack[|st.stack| - 1]) == Some((w, cells))
    ensures Reaches(b, s0, st')
    ensures st' == st.(pc := st.pc + 4, eax := w, stack := st.stack[|st.stack| - 1 := w], cells := cells)
  {
    Code4(st.code, st.pc, PushEax, CallMerge2, AddEsp(2), PushEax);
    var s1 := DoPush(b, s0, st);
    var s2 := DoMerge(b, s0, s1, w, cells);
    var s3 := DoAddEsp(b, s0, s2, 2);
    st' := DoPush(b, s0, s3);
    assert st'.stack == st.stack[|st.stack| - 1 := w];
  }

  /** A label of the function's code, at the place where it was emitted. */
  lemma PlacedAt(a: Act, l: nat, i: nat)
    requires Compiled(a) && i < |a.g.code| && a.g.code[i] == Label(l)
    ensures Placed(a.g.code, l, i)
  {
    Compilation(a);
    SoundFunction(a.u, a.f.env, a.f.arglist, a.f.body, a.f.name, a.parent, a.vis);
    forall j | 0 <= j < i ensures a.g.code[j] != Label(l) {
      if a.g.code[j].Label? { assert a.g.code[j].l != a.g.code[i].l; }
    }
  }

  // ----- function entry and exit -----

  lemma {:induction false} BindFind(names: seq<string>, ws: seq<Word>, x: string)
    requires |names| <= |ws|
    ensures match Find(ArgVars(names), x)
            case None => x !in Bind(names, ws)
            case Some(v) =>
              v.kind == Argument && v.number < |names| && x in Bind(names, ws) && Bind(names, ws)[x] == ws[v.number]
  {
    hide ArgVars, Find;
    NoneFound(x);
    if names != [] {
      var last := |names| - 1;
      BindFind(names[..last], ws, x);
      FindStep(names, x);
    }
  }

  lemma NoneFound(x: string)
    ensures Find(ArgVars([]), x).None?
  {
  }

  lemma FindStep(names: seq<string>, x: string)
    requires names != []
    ensures var last := |names| - 1;
      Find(ArgVars(names), x) == if names[last] == x then Some(Variable(x, Argument, last))
        else Find(ArgVars(names[..last]), x)
  {
    var last := |names| - 1;
    assert ArgVars(names)[1..] == ArgVars(names[..last]);
  }

  lemma {:induction false} BindKeys(names: seq<string>, ws: seq<Word>)
    requires |names| <= |ws|
    ensures Bind(names, ws).Keys == Names(names)
  {
    if names != [] {
      var last := |names| - 1;
      BindKeys(names[..last], ws);
      assert names == names[..last] + [names[last]];
    }
  }

  /** The state in which a function of `a` is entered: arguments, first one on top, and
      the return address. */
  ghost predicate Entered(a: Act, ws: seq<Word>, h: Heap, st: State) {
    && Compiled(a) && st.code == a.g.code && st.pc == 0 && HeapRel(a.u, h, st) && EdiOk(a, st)
    && a.Real() <= |ws| && |ws| + 1 <= |st.stack| && st.stack[|st.stack| - 1].RetAddr?
    && forall j :: |st.stack| - 1 - |ws| <= j < |st.stack| - 1 ==> st.stack[j] == ws[|st.stack| - 2 - j]
  }

  /** After the return: only argument words may differ, and they are still there. */
  ghost predicate Left(a: Act, st: State, st': State, out: Out)
    requires |st.stack| > 0 && st.stack[|st.stack| - 1].RetAddr?
  {
    var r := st.stack[|st.stack| - 1];
    && st'.code == r.code && st'.pc == r.pc && st'.ebp == st.ebp && st'.edi == st.edi
    && |st'.stack| == |st.stack| - 1
    && (forall j :: 0 <= j < |st.stack| - 1 - a.Real() ==> st'.stack[j] == st.stack[j])
    && st.clos <= st'.clos && st'.eax == out.value && HeapRel(a.u, out.heap, st')
  }

  /** The scope and code of a compiled function's body. */
  ghost function BodyOf(a: Act): (Scope, Gen)
    requires Compiled(a)
  {
    Compilation(a);
    BodyScope(a.u, a.f.arglist, a.f.body, a.f.name, a.parent);
    var s := ListToArgs(a.u.defaults, a.f.arglist, FreshScope(a.f.name, a.parent), Args(0, [], false), false).value;
    var s1 := Prepare(s, a.f.body).0;
    (s1, CompileBody(a.u, a.f.env, s1, a.f.body, true).value)
  }

  lemma BodyFacts(a: Act)
    requires Compiled(a)
    ensures var (s1, g) := BodyOf(a);
      && ParamsOf(a.u.defaults, a.f.arglist, NO_PARAMS).Some?
      && var p := ParamsOf(a.u.defaults, a.f.arglist, NO_PARAMS).value;
      && CompileBody(a.u, a.f.env, s1, a.f.body, true) == Ok(g)
      && a.g == Gen(Setup(a.Entries()) + g.code + CLEANUP, g.scope)
      && Ready(s1, 0, a.Entries()) && s1.vars == ArgVars(p.names) && s1.args == p.args && s1.fname == a.f.name
      && a.g.scope.args == p.args && |p.names| == a.Real()
      && a.f.rho.Keys <= a.vis && TidyEach(a.u, a.f.body, a.vis + Names(p.names)) && NeedEach(a.f.body) <= a.Entries()
  {
    Compilation(a);
    BodyScope(a.u, a.f.arglist, a.f.body, a.f.name, a.parent);
    SoundFunction(a.u, a.f.env, a.f.arglist, a.f.body, a.f.name, a.parent, a.vis);
  }

  /** The setup code establishes the frame of a function that was just entered. */
  lemma Enter(b: Builtins, a: Act, ws: seq<Word>, h: Heap, st: State) returns (st': State)
    requires Entered(a, ws, h, st)
    ensures Reaches(b, st, st') && st'.pc == 3
    ensures st'.ebp == |st.stack| + 1 && st'.stack == st.stack + [Frame(st.ebp)] + seq(a.Entries(), _ => Junk)
    ensures st' == st.(pc := 3, ebp := st'.ebp, stack := st'.stack)
    ensures ParamsOf(a.u.defaults, a.f.arglist, NO_PARAMS).Some?
    ensures var p := ParamsOf(a.u.defaults, a.f.arglist, NO_PARAMS).value;
      |p.names| == a.Real() && Here(a, BodyOf(a).0, 0, a.f.rho + Bind(p.names, ws), a.vis + Names(p.names), h, st')
  {
    BodyFacts(a);
    assert CodeAt(a.g.code, 0, Setup(a.Entries()));
    st' := DoSetup(b, a, st);
    var p := ParamsOf(a.u.defaults, a.f.arglist, NO_PARAMS).value;
    FrameHere(a, ws, h, st, st', BodyOf(a).0, p.names);
  }

  lemma DoSetup(b: Builtins, a: Act, st: State) returns (st': State)
    requires st.pc == 0 && CodeAt(st.code, 0, Setup(a.Entries()))
    ensures Reaches(b, st, st')
    ensures st' == st.(pc := 3, ebp := |st.stack| + 1, stack := st.stack + [Frame(st.ebp)] + seq(a.Entries(), _ =>
      Junk))
  {
    Code3(st.code, 0, PushEbp, MovEbpEsp, SubEsp(a.Entries()));
    ReachesSelf(b, st);
    var st1 := DoPushEbp(b, st, st);
    var st2 := DoMovEbpEsp(b, st, st1);
    st' := DoSubEsp(b, st, st2, a.Entries());
  }

  lemma FrameHere(a: Act, ws: seq<Word>, h: Heap, st: State, st': State, s1: Scope, names: seq<string>)
    requires Entered(a, ws, h, st) && a.f.rho.Keys <= a.vis
    requires Ready(s1, 0, a.Entries()) && s1.args == a.g.scope.args && s1.fname == a.f.name
    requires |names| == a.Real() && s1.vars == ArgVars(names)
    requires st' == st.(pc := 3, ebp := |st.stack| + 1, stack := st.stack + [Frame(st.ebp)] + seq(a.Entries(), _ =>
      Junk))
    ensures Here(a, s1, 0, a.f.rho + Bind(names, ws), a.vis + Names(names), h, st')
  {
    assert st'.stack[|st.stack|] == Frame(st.ebp) && st'.stack[|st.stack| - 1] == st.stack[|st.stack| - 1];
    FrameLocated(a, ws, st, st', s1, names);
    ArgVarsPlain(names);
    BindKeys(names, ws);
    assert Inside(a, s1, 0, a.f.rho + Bind(names, ws), a.vis + Names(names), st');
  }

  lemma FrameLocated(a: Act, ws: seq<Word>, st: State, st': State, s1: Scope, names: seq<string>)
    requires Shape(a, st') && st'.ebp == |st.stack| + 1 && st.stack <= st'.stack
    requires |names| == a.Real() <= |ws| && |ws| + 1 <= |st.stack| && s1.vars == ArgVars(names)
    requires forall j :: |st.stack| - 1 - |ws| <= j < |st.stack| - 1 ==> st.stack[j] == ws[|st.stack| - 2 - j]
    ensures Located(a, s1, a.f.rho + Bind(names, ws), st', 0)
  {
    var rho := a.f.rho + Bind(names, ws);
    forall x | x in rho ensures LocatedAt(a, Find(s1.vars, x), x, rho[x], st', 0) {
      BindFind(names, ws, x);
      match Find(s1.vars, x)
      case None =>
      case Some(v) =>
        assert st'.stack[st'.ebp - 3 - v.number] == st.stack[|st.stack| - 2 - v.number] == ws[v.number];
    }
  }

  /** mov esp, ebp; pop ebp; ret. */
  lemma Leave(b: Builtins, s0: State, a: Act, st: State) returns (st': State)
    requires Reaches(b, s0, st) && Shape(a, st) && CodeAt(st.code, st.pc, CLEANUP)
    ensures Reaches(b, s0, st')
    ensures var r := st.stack[st.ebp - 2];
      st' == st.(code := r.code, pc := r.pc, ebp := st.stack[st.ebp - 1].ebp, stack := st.stack[..st.ebp - 2])
  {
    Code3(st.code, st.pc, MovEspEbp, PopEbp, Ret);
    var s1 := DoMovEspEbp(b, s0, st);
    var s2 := DoPopEbp(b, s0, s1);
    assert s2.stack == st.stack[..st.ebp - 1];
    st' := DoRet(b, s0, s2, st.stack[st.ebp - 2].code, st.stack[st.ebp - 2].pc);
    assert st'.stack == st.stack[..st.ebp - 2];
  }
}
