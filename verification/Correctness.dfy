/** Running the emitted code computes what the source means. */
module Correctness {
  import opened Wrappers
  import opened Sexps
  import opened Words
  import opened Cells
  import opened CallList
  import opened Machine
  import opened Scopes
  import opened ScopeFacts
  import opened Codegen
  import opened Source
  import opened CodegenFacts
  import opened Steps
  import opened Frames
  import opened Pieces
  import opened CaptureFacts
  import opened CopyFacts

  /** The machine stands before the code of `g`, which was generated at scope `s`. */
  ghost predicate Before(a: Act, s: Scope, g: Gen, d: nat, rho: Rho, vis: set<string>, h: Heap, st: State) {
    Here(a, s, d, rho, vis, h, st) && CodeAt(a.g.code, st.pc, g.code) && Frees(g.scope.vars) <= a.Free()
  }

  lemma BeforeFacts(a: Act, s: Scope, g: Gen, d: nat, rho: Rho, vis: set<string>, h: Heap, st: State)
    requires Before(a, s, g, d, rho, vis, h, st)
    ensures Here(a, s, d, rho, vis, h, st) && Compiled(a) && HeapRel(a.u, h, st) && Shape(a, st)
    ensures CodeAt(a.g.code, st.pc, g.code) && Frees(g.scope.vars) <= a.Free()
  {
  }

  lemma BeforeHolds(a: Act, s: Scope, g: Gen, d: nat, rho: Rho, vis: set<string>, h: Heap, st: State)
    requires Here(a, s, d, rho, vis, h, st) && CodeAt(a.g.code, st.pc, g.code) && Frees(g.scope.vars) <= a.Free()
    ensures Before(a, s, g, d, rho, vis, h, st)
  {
    hide Here, CodeAt, Frees;
  }

  lemma After(a: Act, s: Scope, g: Gen, d: nat, rho: Rho, vis: set<string>, h: Heap, st: State, st1: State, out: Out)
    requires Here(a, s, d, rho, vis, h, st) && Sound(s, g, vis, d, a.Entries()) && Frees(g.scope.vars) <= a.Free()
    requires Pushed(st, st1, [], d, a.Entries()) && HeapRel(a.u, out.heap, st1)
    ensures Here(a, g.scope, d, rho, vis, out.heap, st1)
  {
    SoundFacts(s, g, vis, d, a.Entries());
    Stay(a, s, g.scope, d, rho, vis, h, out.heap, st, st1, []);
  }

  /** Captures are only added, so a bound on the later ones bounds the earlier ones. */
  lemma Earlier(a: Act, s: Scope, g: Gen, vis: set<string>, d: nat)
    requires Sound(s, g, vis, d, a.Entries()) && Frees(g.scope.vars) <= a.Free()
    ensures Frees(s.vars) <= a.Free()
  {
    SoundFacts(s, g, vis, d, a.Entries());
  }

  lemma {:induction false} CorrectExpr(b: Builtins, fuel: nat, a: Act, s: Scope, e: Sexp, tail: bool, g: Gen, d: nat,
                                       rho: Rho, vis: set<string>, h: Heap, out: Out, st: State)
    returns (st': State)
    requires Compile(a.u, a.f.env, s, e, tail) == Ok(g) && Eval(a.u, b, fuel, a.f, rho, e, h) == Some(out)
    requires Tidy(a.u, e, vis) && d + Need(e) <= a.Entries() && Before(a, s, g, d, rho, vis, h, st)
    ensures Reaches(b, st, st') && Done(a, st, st', tail, st.pc + |g.code|, out, d)
    decreases fuel, 0, Size(e), 1
  {
    hide Reaches, Done, Shape, Normal, Before, Here, CompileForm, EvalForm, TidyForm, NeedForm, CompileSymbol,
         EvalSymbol, HeapRel, Frees, CodeAt;
    BeforeFacts(a, s, g, d, rho, vis, h, st);
    match e
    case SCons(_, fsym, args) => st' := CorrectForm(b, fuel, a, s, fsym.name, args, tail, g, d, rho, vis, h, out, st);
    case SSym(name) =>
      st' := CorrectSymbol(b, a, s, name, g, d, rho, vis, h, out, st);
      NormalDone(a, st, st', tail, st.pc + |g.code|, out, d);
    case _ =>
      st' := CorrectConstant(b, a, d, h, WordOf(e), st);
      NormalDone(a, st, st', tail, st.pc + 1, out, d);
  }

  lemma {:induction false} CorrectForm(b: Builtins, fuel: nat, a: Act, s: Scope, name: string, args: Sexp, tail: bool,
                                       g: Gen, d: nat, rho: Rho, vis: set<string>, h: Heap, out: Out, st: State)
    returns (st': State)
    requires CompileForm(a.u, a.f.env, s, name, args, tail) == Ok(g)
    requires EvalForm(a.u, b, fuel, a.f, rho, name, args, h) == Some(out)
    requires TidyForm(a.u, name, args, vis) && d + NeedForm(name, args) <= a.Entries()
    requires Before(a, s, g, d, rho, vis, h, st)
    requires Listp(args)
    ensures Reaches(b, st, st') && Done(a, st, st', tail, st.pc + |g.code|, out, d)
    decreases fuel, 0, Size(args), 6
  {
    hide *;
    if FormOf(name) == FIf || FormOf(name) == FProgn || FormOf(name) == FLet1 || FormOf(name) == FCall {
      st' := CorrectControl(b, fuel, a, s, name, args, tail, g, d, rho, vis, h, out, st);
    } else {
      st' := CorrectPlain(b, fuel, a, s, name, args, tail, g, d, rho, vis, h, out, st);
      BeforeFacts(a, s, g, d, rho, vis, h, st);
      NormalDone(a, st, st', tail, st.pc + |g.code|, out, d);
    }
  }

  /** The forms that may leave the function by a tail call. */
  lemma {:induction false} CorrectControl(b: Builtins, fuel: nat, a: Act, s: Scope, name: string, args: Sexp,
                                          tail: bool, g: Gen, d: nat, rho: Rho, vis: set<string>, h: Heap, out: Out,
                                          st: State)
    returns (st': State)
    requires CompileForm(a.u, a.f.env, s, name, args, tail) == Ok(g)
    requires EvalForm(a.u, b, fuel, a.f, rho, name, args, h) == Some(out)
    requires TidyForm(a.u, name, args, vis) && d + NeedForm(name, args) <= a.Entries()
    requires Before(a, s, g, d, rho, vis, h, st)
    requires Listp(args)
    requires FormOf(name) == FIf || FormOf(name) == FProgn || FormOf(name) == FLet1 || FormOf(name) == FCall
    ensures Reaches(b, st, st') && Done(a, st, st', tail, st.pc + |g.code|, out, d)
    decreases fuel, 0, Size(args), 5
  {
    hide Reaches, Done, Before, Shape, Normal, FormOf, Compile, Eval, Tidy, Need, Here, HeapRel;
    match FormOf(name)
    case FIf => st' := CorrectIf(b, fuel, a, s, args, tail, g, d, rho, vis, h, out, st);
    case FProgn => st' := CorrectBody(b, fuel, a, s, args, tail, g, d, rho, vis, h, out, st);
    case FLet1 => st' := CorrectLet1(b, fuel, a, s, args, tail, g, d, rho, vis, h, out, st);
    case FCall => st' := CorrectCall(b, fuel, a, s, name, args, tail, g, d, rho, vis, h, out, st);
  }

  /** The forms that never leave the function. */
  lemma {:induction false} CorrectPlain(b: Builtins, fuel: nat, a: Act, s: Scope, name: string, args: Sexp,
                                        tail: bool, g: Gen, d: nat, rho: Rho, vis: set<string>, h: Heap, out: Out,
                                        st: State)
    returns (st': State)
    requires CompileForm(a.u, a.f.env, s, name, args, tail) == Ok(g)
    requires EvalForm(a.u, b, fuel, a.f, rho, name, args, h) == Some(out)
    requires TidyForm(a.u, name, args, vis) && d + NeedForm(name, args) <= a.Entries()
    requires Before(a, s, g, d, rho, vis, h, st)
    requires FormOf(name) != FIf && FormOf(name) != FProgn && FormOf(name) != FLet1 && FormOf(name) != FCall
    ensures Reaches(b, st, st') && Normal(a, st, st', st.pc + |g.code|, out, d)
    decreases fuel, 0, Size(args), 5
  {
    hide *;
    if FormOf(name) == FBackquote || FormOf(name) == FList || FormOf(name) == FLambda {
      st' := CorrectData(b, fuel, a, s, name, args, tail, g, d, rho, vis, h, out, st);
    } else if FormOf(name) == FAnd || FormOf(name) == FOr {
      st' := CorrectChoice(b, fuel, a, s, name, args, tail, g, d, rho, vis, h, out, st);
    } else {
      st' := CorrectQuote(b, fuel, a, s, name, args, tail, g, d, rho, vis, h, out, st);
    }
  }

  /** The forms that make conses or closures. */
  lemma {:induction false} CorrectData(b: Builtins, fuel: nat, a: Act, s: Scope, name: string, args: Sexp, tail: bool,
                                       g: Gen, d: nat, rho: Rho, vis: set<string>, h: Heap, out: Out, st: State)
    returns (st': State)
    requires CompileForm(a.u, a.f.env, s, name, args, tail) == Ok(g)
    requires EvalForm(a.u, b, fuel, a.f, rho, name, args, h) == Some(out)
    requires TidyForm(a.u, name, args, vis) && d + NeedForm(name, args) <= a.Entries()
    requires Before(a, s, g, d, rho, vis, h, st)
    requires FormOf(name) == FBackquote || FormOf(name) == FList || FormOf(name) == FLambda
    ensures Reaches(b, st, st') && Normal(a, st, st', st.pc + |g.code|, out, d)
    decreases fuel, 0, Size(args), 4
  {
    hide Reaches, Shape, Normal, FormOf, Compile, Eval, Tidy, Need, CodeAt, Before, Here, CompileAndOr,
         CompileBackquote, CompileList, CompileLambda, EvalChain, EvalBackquote, EvalConses, HeapRel;
    match FormOf(name)
    case FBackquote => st' := CorrectBackquote(b, fuel, a, s, Car(args), g, d, rho, vis, h, out, st);
    case FList => st' := CorrectList(b, fuel, a, s, args, g, d, rho, vis, h, out, st);
    case FLambda => st' := CorrectLambda(b, fuel, a, s, args, g, d, rho, vis, h, out, st);
  }

  lemma {:induction false} CorrectChoice(b: Builtins, fuel: nat, a: Act, s: Scope, name: string, args: Sexp,
                                         tail: bool, g: Gen, d: nat, rho: Rho, vis: set<string>, h: Heap, out: Out,
                                         st: State)
    returns (st': State)
    requires CompileForm(a.u, a.f.env, s, name, args, tail) == Ok(g)
    requires EvalForm(a.u, b, fuel, a.f, rho, name, args, h) == Some(out)
    requires TidyForm(a.u, name, args, vis) && d + NeedForm(name, args) <= a.Entries()
    requires Before(a, s, g, d, rho, vis, h, st)
    requires FormOf(name) == FAnd || FormOf(name) == FOr
    ensures Reaches(b, st, st') && Normal(a, st, st', st.pc + |g.code|, out, d)
    decreases fuel, 0, Size(args), 4
  {
    hide Reaches, Shape, Normal, FormOf, Compile, Eval, Tidy, Need, CodeAt, Before, Here, CompileAndOr,
         CompileBackquote, CompileList, CompileLambda, EvalChain, EvalBackquote, EvalConses, HeapRel;
    if FormOf(name) == FAnd {
      st' := CorrectAndOr(b, fuel, a, s, args, false, g, d, rho, vis, h, out, st);
    } else {
      st' := CorrectAndOr(b, fuel, a, s, args, true, g, d, rho, vis, h, out, st);
    }
  }

  lemma CorrectQuote(b: Builtins, fuel: nat, a: Act, s: Scope, name: string, args: Sexp, tail: bool, g: Gen, d: nat,
                     rho: Rho, vis: set<string>, h: Heap, out: Out, st: State)
    returns (st': State)
    requires CompileForm(a.u, a.f.env, s, name, args, tail) == Ok(g)
    requires EvalForm(a.u, b, fuel, a.f, rho, name, args, h) == Some(out)
    requires TidyForm(a.u, name, args, vis) && d + NeedForm(name, args) <= a.Entries()
    requires Before(a, s, g, d, rho, vis, h, st)
    requires FormOf(name) != FIf && FormOf(name) != FProgn && FormOf(name) != FLet1 && FormOf(name) != FCall
    requires FormOf(name) != FBackquote && FormOf(name) != FList && FormOf(name) != FLambda && FormOf(name) != FAnd
    requires FormOf(name) != FOr
    ensures Reaches(b, st, st') && Normal(a, st, st', st.pc + |g.code|, out, d)
  {
    hide *;
    QuoteMeaning(a.u, b, fuel, a.f, rho, a.f.env, s, name, args, tail, h, g, out);
    BeforeFacts(a, s, g, d, rho, vis, h, st);
    st' := CorrectConstant(b, a, d, h, WordOf(Car(args)), st);
  }

  /** Of the other forms only quote compiles. */
  lemma QuoteMeaning(u: Unit, b: Builtins, fuel: nat, f: Fun, rho: Rho, env: Env, s: Scope, name: string, args: Sexp,
                     tail: bool, h: Heap, g: Gen, out: Out)
    requires CompileForm(u, env, s, name, args, tail) == Ok(g)
    requires EvalForm(u, b, fuel, f, rho, name, args, h) == Some(out)
    requires FormOf(name) != FIf && FormOf(name) != FProgn && FormOf(name) != FLet1 && FormOf(name) != FCall
    requires FormOf(name) != FBackquote && FormOf(name) != FList && FormOf(name) != FLambda && FormOf(name) != FAnd
    requires FormOf(name) != FOr
    ensures g == Gen([MovEaxImm(WordOf(Car(args)))], s) && out == Source.Out(WordOf(Car(args)), h)
  {
    hide FormOf;
  }

  /** A form that is not in tail position: the machine then stands at the next scope. */
  lemma {:induction false} CorrectStep(b: Builtins, fuel: nat, a: Act, s: Scope, e: Sexp, g: Gen, d: nat, rho: Rho,
                                       vis: set<string>, h: Heap, out: Out, st: State)
    returns (st': State)
    requires Compile(a.u, a.f.env, s, e, false) == Ok(g) && Eval(a.u, b, fuel, a.f, rho, e, h) == Some(out)
    requires Tidy(a.u, e, vis) && d + Need(e) <= a.Entries() && Before(a, s, g, d, rho, vis, h, st)
    ensures Reaches(b, st, st') && Normal(a, st, st', st.pc + |g.code|, out, d)
    ensures Here(a, g.scope, d, rho, vis, out.heap, st')
    decreases fuel, 0, Size(e), 2
  {
    hide Reaches, Done, Shape, Before, Here, Compile, Eval, Tidy, Need, HeapRel, Frees, CodeAt, Pushed, Sound, Ready,
         Located;
    BeforeFacts(a, s, g, d, rho, vis, h, st);
    st' := CorrectExpr(b, fuel, a, s, e, false, g, d, rho, vis, h, out, st);
    DoneFacts(a, st, st', false, st.pc + |g.code|, out, d);
    HereFacts(a, s, d, rho, vis, h, st);
    SoundExpr(a.u, a.f.env, s, e, false, vis, d, a.Entries());
    After(a, s, g, d, rho, vis, h, st, st', out);
  }

  lemma CorrectConstant(b: Builtins, a: Act, d: nat, h: Heap, w: Word, st: State) returns (st': State)
    requires Shape(a, st) && HeapRel(a.u, h, st) && CodeAt(a.g.code, st.pc, [MovEaxImm(w)])
    ensures Reaches(b, st, st') && Normal(a, st, st', st.pc + 1, Out(w, h), d)
  {
    Code1(a.g.code, st.pc, MovEaxImm(w));
    ReachesSelf(b, st);
    st' := DoImm(b, st, st, w);
  }

  lemma CorrectSymbol(b: Builtins, a: Act, s: Scope, name: string, g: Gen, d: nat, rho: Rho, vis: set<string>,
                      h: Heap, out: Out, st: State) returns (st': State)
    requires CompileSymbol(a.u, s, name) == Ok(g) && EvalSymbol(a.u, rho, name, h) == Some(out)
    requires Before(a, s, g, d, rho, vis, h, st)
    ensures Reaches(b, st, st') && Normal(a, st, st', st.pc + |g.code|, out, d)
  {
    match SymbolOf(name)
    case NilSymbol => st' := CorrectConstant(b, a, d, h, Nil, st);
    case TSymbol => st' := CorrectConstant(b, a, d, h, T, st);
    case CurrentFile => st' := CorrectConstant(b, a, d, h, Str(a.u.file), st);
    case VariableName => st' := CorrectVariable(b, a, s, name, g, d, rho, vis, h, st);
  }

  lemma CorrectVariable(b: Builtins, a: Act, s: Scope, name: string, g: Gen, d: nat, rho: Rho, vis: set<string>,
                        h: Heap, st: State) returns (st': State)
    requires FindVariable(s, name).1.Some? && name in rho
    requires g == Gen([CompileVariable(FindVariable(s, name).1.value)], FindVariable(s, name).0)
    requires Before(a, s, g, d, rho, vis, h, st)
    ensures Reaches(b, st, st') && Normal(a, st, st', st.pc + 1, Out(rho[name], h), d)
  {
    HereFacts(a, s, d, rho, vis, h, st);
    FindVariableGrows(s, name);
    var v := FindVariable(s, name).1.value;
    GrownEvolves(s, g.scope, vis, d, a.Entries());
    Stay(a, s, g.scope, d, rho, vis, h, h, st, st, []);
    HereFacts(a, g.scope, d, rho, vis, h, st);
    Code1(a.g.code, st.pc, CompileVariable(v));
    ReachesSelf(b, st);
    st' := LoadVariable(b, st, a, g.scope, d, rho, vis, st, name, v);
  }

  // ----- control flow -----

  /** An `if` lies in `code`: its branches begin at `pc`, right after the test jump. */
  ghost predicate IfPlaced(code: seq<Instr>, pc: nat, t: seq<Instr>, f: seq<Instr>, l: nat, fin: nat) {
    && pc >= 2 && pc + |t| + 2 + |f| + 1 == fin <= |code|
    && code[pc - 2] == CmpEax(Nil) && code[pc - 1] == Je(l)
    && CodeAt(code, pc, t) && code[pc + |t|] == Jmp(l + 1) && code[pc + |t| + 1] == Label(l)
    && CodeAt(code, pc + |t| + 2, f) && code[fin - 1] == Label(l + 1)
  }

  lemma IfLayout(code: seq<Instr>, pc: nat, c: seq<Instr>, t: seq<Instr>, f: seq<Instr>, l: nat)
    requires CodeAt(code, pc, IfCode(c, t, f, l, l + 1))
    ensures CodeAt(code, pc, c) && IfPlaced(code, pc + |c| + 2, t, f, l, pc + |IfCode(c, t, f, l, l + 1)|)
  {
    var test, jump := [CmpEax(Nil), Je(l)], [Jmp(l + 1), Label(l)];
    CodeSplit3(code, pc, c + test + t + jump, f, [Label(l + 1)]);
    CodeSplit(code, pc, c + test + t, jump);
    CodeSplit3(code, pc, c, test, t);
    Code2(code, pc + |c|, CmpEax(Nil), Je(l));
    Code2(code, pc + |c + test + t|, Jmp(l + 1), Label(l));
    Code1(code, pc + |c + test + t + jump| + |f|, Label(l + 1));
  }

  /** cmp eax, nil; je l. */
  lemma DoTest(b: Builtins, s0: State, a: Act, st: State, l: nat, target: nat) returns (st': State)
    requires Reaches(b, s0, st) && Compiled(a) && st.code == a.g.code && st.pc + 1 < |st.code|
    requires st.code[st.pc] == CmpEax(Nil) && st.code[st.pc + 1] == Je(l) && target < |st.code|
    requires st.code[target] == Label(l)
    ensures Reaches(b, s0, st') && st' == st.(pc := if st.eax == Nil then target else st.pc + 2, zf := st.eax == Nil)
  {
    PlacedAt(a, l, target);
    var st1 := DoCmp(b, s0, st, Nil);
    st' := DoJe(b, s0, st1, l, target);
  }

  lemma {:induction false} CorrectIf(b: Builtins, fuel: nat, a: Act, s: Scope, args: Sexp, tail: bool, g: Gen, d: nat,
                                     rho: Rho, vis: set<string>, h: Heap, out: Out, st: State)
    returns (st': State)
    requires CompileIf(a.u, a.f.env, s, args, tail) == Ok(g) && EvalIf(a.u, b, fuel, a.f, rho, args, h) == Some(out)
    requires TidyEach(a.u, args, vis) && d + NeedEach(args) <= a.Entries() && Before(a, s, g, d, rho, vis, h, st)
    ensures Reaches(b, st, st') && Done(a, st, st', tail, st.pc + |g.code|, out, d)
    decreases fuel, 0, Size(args), 3
  {
    hide Compile, Eval, EvalElse, Tidy, Need, CompileBranches, Before, Reaches, Done, Shape;
    BeforeFacts(a, s, g, d, rho, vis, h, st);
    assert Listp(args) && Length(args) >= 2;
    assert Listp(args.cdr) && Length(args.cdr) >= 1;
    assert NeedEach(args.cdr) <= NeedEach(args) && Need(args.cdr.car) <= NeedEach(args.cdr);
    var c, v := Compile(a.u, a.f.env, s, args.car, false).value, Eval(a.u, b, fuel, a.f, rho, args.car, h).value;
    st' := RunIf(b, fuel, a, s, args.car, Car(args.cdr), Cdr(args.cdr), tail, c, g, d, rho, vis, h, v, out, st);
  }

  lemma {:induction false} RunIf(b: Builtins, fuel: nat, a: Act, s: Scope, test: Sexp, e: Sexp, rest: Sexp,
                                 tail: bool, c: Gen, g: Gen, d: nat, rho: Rho, vis: set<string>, h: Heap, v: Out,
                                 out: Out, st: State)
    returns (st': State)
    requires Compile(a.u, a.f.env, s, test, false) == Ok(c) && CompileBranches(a.u, a.f.env, c, e, rest, tail) == Ok(g)
    requires Eval(a.u, b, fuel, a.f, rho, test, h) == Some(v)
    requires if v.value != Nil then Eval(a.u, b, fuel, a.f, rho, e, v.heap) == Some(out)
             else EvalElse(a.u, b, fuel, a.f, rho, rest, v.heap) == Some(out)
    requires Tidy(a.u, test, vis) && Tidy(a.u, e, vis) && TidyEach(a.u, rest, vis)
    requires d + Need(test) <= a.Entries() && d + Need(e) <= a.Entries() && d + NeedEach(rest) <= a.Entries()
    requires Before(a, s, g, d, rho, vis, h, st) && Shape(a, st)
    ensures Reaches(b, st, st') && Done(a, st, st', tail, st.pc + |g.code|, out, d)
    decreases fuel, 0, Size(test) + Size(e) + Size(rest), 4
  {
    hide *;
    BeforeFacts(a, s, g, d, rho, vis, h, st);
    FormReady(a, s, test, c, d, rho, vis, h, st);
    var s2, t, f := BranchParts(a, c, e, rest, tail, g, vis, d, st.pc);
    BranchesFacts(a, c.scope, s2, e, rest, tail, t, f, vis, d);
    Earlier(a, s, c, vis, d);
    BeforeHolds(a, s, c, d, rho, vis, h, st);
    var st1 := CorrectStep(b, fuel, a, s, test, c, d, rho, vis, h, v, st);
    NormalPc(a, st, st1, st.pc + |c.code|, v, d);
    st' := CorrectBranches(b, fuel, a, c.scope, s2, e, rest, tail, t, f, d, rho, vis, v, out, st, st1,
                           st.pc + |g.code|);
  }

  lemma NormalPc(a: Act, st: State, st': State, pc: nat, out: Out, d: nat)
    requires Normal(a, st, st', pc, out, d)
    ensures st'.pc == pc
  {
  }

  /** Generating a form at the scope where the machine stands. */
  lemma FormReady(a: Act, s: Scope, e: Sexp, c: Gen, d: nat, rho: Rho, vis: set<string>, h: Heap, st: State)
    requires Here(a, s, d, rho, vis, h, st) && Compile(a.u, a.f.env, s, e, false) == Ok(c)
    requires Tidy(a.u, e, vis) && d + Need(e) <= a.Entries()
    ensures Sound(s, c, vis, d, a.Entries()) && Ready(c.scope, d, a.Entries())
  {
    hide Compile, Tidy, Need, Here, Sound, Shape, Ready;
    HereFacts(a, s, d, rho, vis, h, st);
    SoundExpr(a.u, a.f.env, s, e, false, vis, d, a.Entries());
    SoundReady(s, c, vis, d, a.Entries());
  }

  /** The branches of an `if` whose test left scope `s1`. */
  ghost predicate Branches(a: Act, s1: Scope, s2: Scope, e: Sexp, rest: Sexp, tail: bool, t: Gen, f: Gen,
                           vis: set<string>, d: nat) {
    && s2 == s1.(nextpc := s1.nextpc + 2)
    && Compile(a.u, a.f.env, s2, e, tail) == Ok(t) && CompileElse(a.u, a.f.env, t.scope, rest, tail) == Ok(f)
    && Frees(s1.vars) <= a.Free() && Frees(t.scope.vars) <= a.Free() && Frees(f.scope.vars) <= a.Free()
    && Sound(s2, t, vis, d, a.Entries())
  }

  lemma BranchesHold(a: Act, s1: Scope, s2: Scope, e: Sexp, rest: Sexp, tail: bool, t: Gen, f: Gen, vis: set<string>,
                     d: nat)
    requires s2 == s1.(nextpc := s1.nextpc + 2)
    requires Compile(a.u, a.f.env, s2, e, tail) == Ok(t) && CompileElse(a.u, a.f.env, t.scope, rest, tail) == Ok(f)
    requires Frees(s2.vars) <= a.Free() && Frees(t.scope.vars) <= a.Free() && Frees(f.scope.vars) <= a.Free()
    requires Sound(s2, t, vis, d, a.Entries())
    ensures Branches(a, s1, s2, e, rest, tail, t, f, vis, d)
  {
    hide Compile, CompileElse, Sound, Frees;
  }

  lemma BranchesFacts(a: Act, s1: Scope, s2: Scope, e: Sexp, rest: Sexp, tail: bool, t: Gen, f: Gen, vis: set<string>,
                      d: nat)
    requires Branches(a, s1, s2, e, rest, tail, t, f, vis, d)
    ensures s2 == s1.(nextpc := s1.nextpc + 2)
    ensures Compile(a.u, a.f.env, s2, e, tail) == Ok(t) && CompileElse(a.u, a.f.env, t.scope, rest, tail) == Ok(f)
    ensures Frees(s1.vars) <= a.Free() && Frees(t.scope.vars) <= a.Free() && Frees(f.scope.vars) <= a.Free()
    ensures Sound(s2, t, vis, d, a.Entries())
  {
    hide Compile, CompileElse, Sound, Frees;
  }

  /** How the code of the two branches is put together. */
  lemma BranchCode(u: Unit, env: Env, c: Gen, e: Sexp, rest: Sexp, tail: bool, g: Gen)
    returns (s2: Scope, t: Gen, f: Gen)
    requires CompileBranches(u, env, c, e, rest, tail) == Ok(g)
    ensures s2 == c.scope.(nextpc := c.scope.nextpc + 2)
    ensures Compile(u, env, s2, e, tail) == Ok(t) && CompileElse(u, env, t.scope, rest, tail) == Ok(f)
    ensures g == Gen(IfCode(c.code, t.code, f.code, c.scope.nextpc, c.scope.nextpc + 1), f.scope)
  {
    hide Compile, CompileElse;
    s2 := NextPc(NextPc(c.scope).0).0;
    assert s2 == c.scope.(nextpc := c.scope.nextpc + 2);
    t := Compile(u, env, s2, e, tail).value;
    f := CompileElse(u, env, t.scope, rest, tail).value;
  }

  lemma BranchParts(a: Act, c: Gen, e: Sexp, rest: Sexp, tail: bool, g: Gen, vis: set<string>, d: nat, pc: nat)
    returns (s2: Scope, t: Gen, f: Gen)
    requires CompileBranches(a.u, a.f.env, c, e, rest, tail) == Ok(g) && Frees(g.scope.vars) <= a.Free()
    requires Ready(c.scope, d, a.Entries()) && CodeAt(a.g.code, pc, g.code)
    requires Tidy(a.u, e, vis) && d + Need(e) <= a.Entries() && TidyEach(a.u, rest, vis)
    requires d + NeedEach(rest) <= a.Entries()
    ensures Branches(a, c.scope, s2, e, rest, tail, t, f, vis, d)
    ensures CodeAt(a.g.code, pc, c.code)
    ensures IfPlaced(a.g.code, pc + |c.code| + 2, t.code, f.code, c.scope.nextpc, pc + |g.code|)
  {
    hide *;
    s2, t, f := BranchCode(a.u, a.f.env, c, e, rest, tail, g);
    ReadyMoved(c.scope, s2, d, a.Entries());
    SoundExpr(a.u, a.f.env, s2, e, tail, vis, d, a.Entries());
    SoundReady(s2, t, vis, d, a.Entries());
    SoundElse(a.u, a.f.env, t.scope, rest, tail, vis, d, a.Entries());
    Earlier(a, t.scope, f, vis, d);
    Earlier(a, s2, t, vis, d);
    IfLayout(a.g.code, pc, c.code, t.code, f.code, c.scope.nextpc);
    BranchesHold(a, c.scope, s2, e, rest, tail, t, f, vis, d);
  }

  lemma {:induction false} CorrectBranches(b: Builtins, fuel: nat, a: Act, s1: Scope, s2: Scope, e: Sexp, rest: Sexp,
                                           tail: bool, t: Gen, f: Gen, d: nat, rho: Rho, vis: set<string>, v: Out,
                                           out: Out, st: State, st1: State, fin: nat) returns (st': State)
    requires Branches(a, s1, s2, e, rest, tail, t, f, vis, d)
    requires IfPlaced(a.g.code, st1.pc + 2, t.code, f.code, s1.nextpc, fin)
    requires if v.value != Nil then Eval(a.u, b, fuel, a.f, rho, e, v.heap) == Some(out)
             else EvalElse(a.u, b, fuel, a.f, rho, rest, v.heap) == Some(out)
    requires Tidy(a.u, e, vis) && d + Need(e) <= a.Entries() && TidyEach(a.u, rest, vis)
    requires d + NeedEach(rest) <= a.Entries()
    requires Shape(a, st) && Here(a, s1, d, rho, vis, v.heap, st1) && Reaches(b, st, st1)
    requires Normal(a, st, st1, st1.pc, v, d)
    ensures Reaches(b, st, st') && Done(a, st, st', tail, fin, out, d)
    decreases fuel, 0, Size(e) + Size(rest), 3
  {
    hide Compile, CompileElse, Eval, EvalElse, Tidy, TidyEach, Need, NeedEach, Branches, Here, Sound, Evolved, Done,
         Reaches, Shape, HeapRel, Frees;
    BranchesFacts(a, s1, s2, e, rest, tail, t, f, vis, d);
    var st2 := DoBranch(b, a, s1, s2, t.code, f.code, d, rho, vis, v, st, st1, fin);
    if v.value != Nil {
      st' := CorrectThen(b, fuel, a, s2, e, tail, t, d, rho, vis, v.heap, out, st, st2, s1.nextpc + 1, fin);
    } else {
      SoundFacts(s2, t, vis, d, a.Entries());
      st' := CorrectElse(b, fuel, a, s2, t.scope, rest, tail, f, d, rho, vis, v.heap, out, st, st2, s1.nextpc, fin);
    }
  }

  /** The test of an `if`: the machine then stands at one branch or at the else label. */
  lemma DoBranch(b: Builtins, a: Act, s1: Scope, s2: Scope, t: seq<Instr>, f: seq<Instr>, d: nat, rho: Rho,
                 vis: set<string>, v: Out, st: State, st1: State, fin: nat)
    returns (st2: State)
    requires Shape(a, st) && Here(a, s1, d, rho, vis, v.heap, st1) && Reaches(b, st, st1)
    requires Normal(a, st, st1, st1.pc, v, d) && Frees(s1.vars) <= a.Free() && s2 == s1.(nextpc := s1.nextpc + 2)
    requires IfPlaced(a.g.code, st1.pc + 2, t, f, s1.nextpc, fin)
    ensures Here(a, s2, d, rho, vis, v.heap, st2) && Reaches(b, st, st2) && Pushed(st, st2, [], d, a.Entries())
    ensures st2.eax == v.value
    ensures st2.pc == (if v.value != Nil then st1.pc + 2 else st1.pc + 2 + |t| + 1)
  {
    hide *;
    IfTest(a, s1, d, rho, vis, v.heap, st1, t, f, fin);
    st2 := DoTest(b, st, a, st1, s1.nextpc, st1.pc + 2 + |t| + 1);
    Moved(a, s1, s2, d, rho, vis, v.heap, st1, st2);
    BranchPushed(a, st, st1, st2, d, v);
  }

  lemma IfTest(a: Act, s: Scope, d: nat, rho: Rho, vis: set<string>, h: Heap, st: State, t: seq<Instr>, f: seq<Instr>,
               fin: nat)
    requires Here(a, s, d, rho, vis, h, st) && IfPlaced(a.g.code, st.pc + 2, t, f, s.nextpc, fin)
    ensures Compiled(a) && st.code == a.g.code && st.pc + 2 + |t| + 1 < |st.code|
    ensures st.code[st.pc] == CmpEax(Nil) && st.code[st.pc + 1] == Je(s.nextpc)
    ensures st.code[st.pc + 2 + |t| + 1] == Label(s.nextpc)
  {
    hide Compiled, Inside, HeapRel, CodeAt;
  }

  lemma BranchPushed(a: Act, st: State, st1: State, st2: State, d: nat, v: Out)
    requires Shape(a, st) && Normal(a, st, st1, st1.pc, v, d) && Pushed(st1, st2, [], d, a.Entries())
    requires st2.eax == st1.eax
    ensures Pushed(st, st2, [], d, a.Entries()) && st2.eax == v.value && (st1.eax == Nil <==> v.value == Nil)
  {
    hide HeapRel;
    PushedOn(st, st1, st2, d, a.Entries());
  }

  /** The first branch, from `st2` to behind the end label. */
  lemma {:induction false} CorrectThen(b: Builtins, fuel: nat, a: Act, s: Scope, e: Sexp, tail: bool, g: Gen, d: nat,
                                       rho: Rho, vis: set<string>, h: Heap, out: Out, st: State, st2: State, l: nat,
                                       fin: nat) returns (st': State)
    requires Compile(a.u, a.f.env, s, e, tail) == Ok(g) && Eval(a.u, b, fuel, a.f, rho, e, h) == Some(out)
    requires Tidy(a.u, e, vis) && d + Need(e) <= a.Entries() && Before(a, s, g, d, rho, vis, h, st2)
    requires Shape(a, st) && Pushed(st, st2, [], d, a.Entries()) && Reaches(b, st, st2)
    requires st2.pc + |g.code| < |a.g.code| && a.g.code[st2.pc + |g.code|] == Jmp(l) && 0 < fin <= |a.g.code|
    requires a.g.code[fin - 1] == Label(l)
    ensures Reaches(b, st, st') && Done(a, st, st', tail, fin, out, d)
    decreases fuel, 0, Size(e), 2
  {
    hide Reaches, Done, Shape, Before, Here, Compile, Eval, Tidy, Need, HeapRel, Frees, CodeAt, Pushed;
    BeforeFacts(a, s, g, d, rho, vis, h, st2);
    var st3 := CorrectExpr(b, fuel, a, s, e, tail, g, d, rho, vis, h, out, st2);
    ReachesTrans(b, st, st2, st3);
    DoneAfter(a, st, st2, st3, tail, st2.pc + |g.code|, out, d);
    st' := LeaveThen(b, a, st, st3, tail, l, st2.pc + |g.code|, fin, out, d);
  }

  /** The second branch, from its label on; there being none leaves nil in eax. */
  lemma {:induction false} CorrectElse(b: Builtins, fuel: nat, a: Act, s0: Scope, s: Scope, rest: Sexp, tail: bool,
                                       g: Gen, d: nat, rho: Rho, vis: set<string>, h: Heap, out: Out, st: State,
                                       st2: State, l: nat, fin: nat) returns (st': State)
    requires CompileElse(a.u, a.f.env, s, rest, tail) == Ok(g) && EvalElse(a.u, b, fuel, a.f, rho, rest, h) == Some(out)
    requires TidyEach(a.u, rest, vis) && d + NeedEach(rest) <= a.Entries()
    requires Here(a, s0, d, rho, vis, h, st2) && Evolved(s0, s, vis, d, a.Entries())
    requires Frees(s.vars) <= a.Free() && Frees(g.scope.vars) <= a.Free() && CodeAt(a.g.code, st2.pc + 1, g.code)
    requires Shape(a, st) && Pushed(st, st2, [], d, a.Entries()) && Reaches(b, st, st2)
    requires a.g.code[st2.pc] == Label(l) && st2.eax == Nil
    requires st2.pc + 1 + |g.code| + 1 == fin <= |a.g.code| && a.g.code[fin - 1] == Label(l + 1)
    ensures Reaches(b, st, st') && Done(a, st, st', tail, fin, out, d)
    decreases fuel, 0, Size(rest), 2
  {
    hide Reaches, Done, Before, CompileElse, EvalElse, TidyEach, NeedEach, HeapRel, Frees, CodeAt, Evolved, Compiled,
         Inside;
    var st3 := DoLabel(b, st, st2, l);
    Moved(a, s0, s, d, rho, vis, h, st2, st3);
    PushedOn(st, st2, st3, d, a.Entries());
    var st4 := CorrectRest(b, fuel, a, s, rest, tail, g, d, rho, vis, h, out, st3);
    ReachesTrans(b, st, st3, st4);
    assert st3.pc + |g.code| == fin - 1;
    DoneAfter(a, st, st3, st4, tail, fin - 1, out, d);
    st' := LeaveElse(b, a, st, st4, tail, l + 1, fin, out, d);
  }

  lemma {:induction false} CorrectRest(b: Builtins, fuel: nat, a: Act, s: Scope, rest: Sexp, tail: bool, g: Gen,
                                       d: nat, rho: Rho, vis: set<string>, h: Heap, out: Out, st: State)
    returns (st': State)
    requires CompileElse(a.u, a.f.env, s, rest, tail) == Ok(g) && EvalElse(a.u, b, fuel, a.f, rho, rest, h) == Some(out)
    requires TidyEach(a.u, rest, vis) && d + NeedEach(rest) <= a.Entries() && Before(a, s, g, d, rho, vis, h, st)
    requires st.eax == Nil
    ensures Reaches(b, st, st') && Done(a, st, st', tail, st.pc + |g.code|, out, d)
    decreases fuel, 0, Size(rest), 1
  {
    if rest.SCons? {
      st' := CorrectExpr(b, fuel, a, s, rest.car, tail, g, d, rho, vis, h, out, st);
    } else {
      ReachesSelf(b, st);
      st' := st;
      NormalDone(a, st, st', tail, st.pc, out, d);
    }
  }

  lemma PushedOn(st: State, st1: State, st2: State, d: nat, n: nat)
    requires Pushed(st, st1, [], d, n) && Pushed(st1, st2, [], d, n) && st.ebp + n <= |st.stack|
    ensures Pushed(st, st2, [], d, n)
  {
    PushedTrans(st, st1, st2, [], [], d, n);
    var none: seq<Word> := [];
    assert none + none == none;
  }

  /** Jumps, tests and labels leave the frame as it is. */
  lemma Moved(a: Act, s: Scope, s': Scope, d: nat, rho: Rho, vis: set<string>, h: Heap, st: State, st': State)
    requires Here(a, s, d, rho, vis, h, st) && Frees(s'.vars) <= a.Free()
    requires Evolved(s, s', vis, d, a.Entries()) || (s' == s.(nextpc := s'.nextpc) && s.nextpc <= s'.nextpc)
    requires st' == st.(pc := st'.pc, zf := st'.zf)
    ensures Here(a, s', d, rho, vis, h, st') && Pushed(st, st', [], d, a.Entries())
  {
    HereFacts(a, s, d, rho, vis, h, st);
    ParentGrownSelf(s.parent);
    Stay(a, s, s', d, rho, vis, h, h, st, st', []);
  }

  /** After the first branch: jmp to the end label, unless the function has returned. */
  lemma LeaveThen(b: Builtins, a: Act, st: State, st1: State, tail: bool, l: nat, pc: nat, fin: nat, out: Out, d: nat)
    returns (st': State)
    requires Compiled(a) && Shape(a, st) && Reaches(b, st, st1) && Done(a, st, st1, tail, pc, out, d)
    requires pc < |a.g.code| && a.g.code[pc] == Jmp(l) && 0 < fin <= |a.g.code| && a.g.code[fin - 1] == Label(l)
    ensures Reaches(b, st, st') && Done(a, st, st', tail, fin, out, d)
  {
    DoneFacts(a, st, st1, tail, pc, out, d);
    if Normal(a, st, st1, pc, out, d) {
      PlacedAt(a, l, fin - 1);
      var st2 := DoJmp(b, st, st1, l, fin - 1);
      st' := DoLabel(b, st, st2, l);
    } else {
      st' := st1;
    }
    assert Finished(a, st, st', tail, fin, out, d);
  }

  lemma LeaveElse(b: Builtins, a: Act, st: State, st1: State, tail: bool, l: nat, fin: nat, out: Out, d: nat)
    returns (st': State)
    requires Shape(a, st) && Reaches(b, st, st1) && 0 < fin <= |a.g.code| && Done(a, st, st1, tail, fin - 1, out, d)
    requires a.g.code[fin - 1] == Label(l)
    ensures Reaches(b, st, st') && Done(a, st, st', tail, fin, out, d)
  {
    DoneFacts(a, st, st1, tail, fin - 1, out, d);
    if Normal(a, st, st1, fin - 1, out, d) {
      st' := DoLabel(b, st, st1, l);
    } else {
      st' := st1;
    }
    assert Finished(a, st, st', tail, fin, out, d);
  }

  // ----- and, or -----

  lemma ChainCode(u: Unit, env: Env, s: Scope, args: Sexp, or: bool, after: nat, g: Gen) returns (c: Gen, r: Gen)
    requires CompileChain(u, env, s, args, or, after) == Ok(g) && args.SCons?
    ensures Compile(u, env, s, args.car, false) == Ok(c) && (args.cdr.SNil? ==> g == c)
    ensures !args.cdr.SNil? ==>
      && CompileChain(u, env, c.scope, args.cdr, or, after) == Ok(r)
      && g == Gen(c.code + [CmpEax(Nil), if or then Jne(after) else Je(after)] + r.code, r.scope)
  {
    hide Compile;
    c := Compile(u, env, s, args.car, false).value;
    r := if args.cdr.SNil? then c else CompileChain(u, env, c.scope, args.cdr, or, after).value;
  }

  /** From the first operand of `and` or `or` to the label behind the last, at `fin`. */
  lemma {:induction false} CorrectChain(b: Builtins, fuel: nat, a: Act, s: Scope, args: Sexp, or: bool, after: nat,
                                        g: Gen, d: nat, rho: Rho, vis: set<string>, h: Heap, out: Out, st: State,
                                        fin: nat)
    returns (st': State)
    requires CompileChain(a.u, a.f.env, s, args, or, after) == Ok(g)
    requires EvalChain(a.u, b, fuel, a.f, rho, args, or, h) == Some(out)
    requires TidyEach(a.u, args, vis) && d + NeedEach(args) <= a.Entries() && Before(a, s, g, d, rho, vis, h, st)
    requires st.pc + |g.code| == fin < |a.g.code| && a.g.code[fin] == Label(after)
    ensures Reaches(b, st, st') && Normal(a, st, st', fin, out, d)
    decreases fuel, 0, Size(args), 2
  {
    hide Compile, CompileChain, Eval, Tidy, Need, Here, Sound, Reaches, Shape, HeapRel, Pushed, Frees, Before;
    BeforeFacts(a, s, g, d, rho, vis, h, st);
    var c, r := ChainCode(a.u, a.f.env, s, args, or, after, g);
    var v := Eval(a.u, b, fuel, a.f, rho, args.car, h).value;
    if args.cdr.SNil? {
      st' := CorrectStep(b, fuel, a, s, args.car, c, d, rho, vis, h, v, st);
    } else {
      ChainParts(a, s, args, or, after, c, r, g, d, rho, vis, h, st);
      var st1 := CorrectStep(b, fuel, a, s, args.car, c, d, rho, vis, h, v, st);
      var st2 := DoExit(b, a, c.scope, or, after, fin, d, rho, vis, v, st, st1);
      if or <==> v.value != Nil {
        st' := st2;
      } else {
        BeforeHolds(a, c.scope, r, d, rho, vis, v.heap, st2);
        st' := CorrectChain(b, fuel, a, c.scope, args.cdr, or, after, r, d, rho, vis, v.heap, out, st2, fin);
        NormalThen(b, a, st, st2, st', fin, out, d);
      }
    }
  }

  lemma ChainParts(a: Act, s: Scope, args: Sexp, or: bool, after: nat, c: Gen, r: Gen, g: Gen, d: nat, rho: Rho,
                   vis: set<string>, h: Heap, st: State)
    requires args.SCons? && Compile(a.u, a.f.env, s, args.car, false) == Ok(c)
    requires CompileChain(a.u, a.f.env, c.scope, args.cdr, or, after) == Ok(r)
    requires g == Gen(c.code + [CmpEax(Nil), if or then Jne(after) else Je(after)] + r.code, r.scope)
    requires TidyEach(a.u, args, vis) && d + NeedEach(args) <= a.Entries() && Before(a, s, g, d, rho, vis, h, st)
    ensures Before(a, s, c, d, rho, vis, h, st) && Frees(r.scope.vars) <= a.Free()
    ensures CodeAt(a.g.code, st.pc + |c.code| + 2, r.code) && st.pc + |c.code| + 2 <= |a.g.code|
    ensures a.g.code[st.pc + |c.code|] == CmpEax(Nil)
    ensures a.g.code[st.pc + |c.code| + 1] == if or then Jne(after) else Je(after)
  {
    hide Compile, CompileChain, Tidy, Need, Here, Sound, Shape, HeapRel, Frees, Before;
    BeforeFacts(a, s, g, d, rho, vis, h, st);
    FormReady(a, s, args.car, c, d, rho, vis, h, st);
    SoundChain(a.u, a.f.env, c.scope, args.cdr, or, after, vis, d, a.Entries());
    Earlier(a, c.scope, r, vis, d);
    var test := [CmpEax(Nil), if or then Jne(after) else Je(after)];
    CodeSplit3(a.g.code, st.pc, c.code, test, r.code);
    Code2(a.g.code, st.pc + |c.code|, test[0], test[1]);
    BeforeHolds(a, s, c, d, rho, vis, h, st);
  }

  /** The test between two operands: on to the next one, or out to the label. */
  lemma DoExit(b: Builtins, a: Act, s: Scope, or: bool, after: nat, fin: nat, d: nat, rho: Rho, vis: set<string>,
               v: Out, st: State, st1: State)
    returns (st2: State)
    requires Reaches(b, st, st1) && Shape(a, st) && Normal(a, st, st1, st1.pc, v, d)
    requires Here(a, s, d, rho, vis, v.heap, st1)
    requires st1.pc + 1 < |a.g.code| && fin < |a.g.code| && a.g.code[fin] == Label(after)
    requires a.g.code[st1.pc] == CmpEax(Nil) && a.g.code[st1.pc + 1] == if or then Jne(after) else Je(after)
    ensures Reaches(b, st, st2) && Normal(a, st, st2, st2.pc, v, d) && Here(a, s, d, rho, vis, v.heap, st2)
    ensures st2.pc == if or <==> v.value != Nil then fin else st1.pc + 2
  {
    hide Reaches, Compiled, Located, Ready, EdiOk, Placed, HeapRel;
    HereFacts(a, s, d, rho, vis, v.heap, st1);
    HereShape(a, s, d, rho, vis, v.heap, st1);
    PlacedAt(a, after, fin);
    var st' := DoCmp(b, st, st1, Nil);
    if or {
      st2 := DoJne(b, st, st', after, fin);
    } else {
      st2 := DoJe(b, st, st', after, fin);
    }
    Moved(a, s, s, d, rho, vis, v.heap, st1, st2);
    PushedOn(st, st1, st2, d, a.Entries());
  }

  lemma {:induction false} CorrectAndOr(b: Builtins, fuel: nat, a: Act, s: Scope, args: Sexp, or: bool, g: Gen,
                                        d: nat, rho: Rho, vis: set<string>, h: Heap, out: Out, st: State)
    returns (st': State)
    requires CompileAndOr(a.u, a.f.env, s, args, or) == Ok(g)
    requires EvalChain(a.u, b, fuel, a.f, rho, args, or, h) == Some(out)
    requires TidyEach(a.u, args, vis) && d + NeedEach(args) <= a.Entries() && Before(a, s, g, d, rho, vis, h, st)
    ensures Reaches(b, st, st') && Normal(a, st, st', st.pc + |g.code|, out, d)
    decreases fuel, 0, Size(args), 3
  {
    hide CompileChain, EvalChain, TidyEach, NeedEach, Here, Reaches, Shape, HeapRel, Pushed, Frees, Before;
    BeforeFacts(a, s, g, d, rho, vis, h, st);
    var s1 := NextPc(s).0;
    var c := CompileChain(a.u, a.f.env, s1, args, or, s.nextpc).value;
    CodeSplit(a.g.code, st.pc, c.code, [Label(s.nextpc)]);
    Code1(a.g.code, st.pc + |c.code|, Label(s.nextpc));
    Numbering(a, s, s1, c, d, rho, vis, h, st);
    BeforeHolds(a, s1, c, d, rho, vis, h, st);
    var st1 := CorrectChain(b, fuel, a, s1, args, or, s.nextpc, c, d, rho, vis, h, out, st, st.pc + |c.code|);
    st' := OverLabel(b, a, st, st1, s.nextpc, out, d);
  }

  /** Allocating labels changes nothing about the frame. */
  lemma Numbering(a: Act, s: Scope, s1: Scope, c: Gen, d: nat, rho: Rho, vis: set<string>, h: Heap, st: State)
    requires Here(a, s, d, rho, vis, h, st) && s1 == s.(nextpc := s1.nextpc) && s.nextpc <= s1.nextpc
    ensures Here(a, s1, d, rho, vis, h, st)
  {
    HereFacts(a, s, d, rho, vis, h, st);
    Moved(a, s, s1, d, rho, vis, h, st, st);
  }

  lemma OverLabel(b: Builtins, a: Act, st: State, st1: State, l: nat, out: Out, d: nat) returns (st': State)
    requires Shape(a, st) && Reaches(b, st, st1) && Normal(a, st, st1, st1.pc, out, d)
    requires st1.pc < |a.g.code| && a.g.code[st1.pc] == Label(l)
    ensures Reaches(b, st, st') && Normal(a, st, st', st1.pc + 1, out, d)
  {
    st' := DoLabel(b, st, st1, l);
  }

  lemma NormalThen(b: Builtins, a: Act, st: State, st1: State, st2: State, pc: nat, out: Out, d: nat)
    requires Reaches(b, st, st1) && Reaches(b, st1, st2)
    requires Shape(a, st) && Pushed(st, st1, [], d, a.Entries()) && Normal(a, st1, st2, pc, out, d)
    ensures Reaches(b, st, st2) && Normal(a, st, st2, pc, out, d)
  {
    ReachesTrans(b, st, st1, st2);
    PushedOn(st, st1, st2, d, a.Entries());
  }

  // ----- sequences -----

  lemma BodyCode(u: Unit, env: Env, s: Scope, body: Sexp, tail: bool, g: Gen) returns (c: Gen, r: Gen)
    requires CompileBody(u, env, s, body, tail) == Ok(g) && body.SCons?
    ensures Compile(u, env, s, body.car, tail && body.cdr.SNil?) == Ok(c)
    ensures CompileBody(u, env, c.scope, body.cdr, tail) == Ok(r) && g == Gen(c.code + r.code, r.scope)
    ensures body.cdr.SNil? ==> g == c
  {
    hide Compile;
    c := Compile(u, env, s, body.car, tail && body.cdr.SNil?).value;
    r := CompileBody(u, env, c.scope, body.cdr, tail).value;
    assert c.code + [] == c.code;
  }

  lemma {:induction false} CorrectBody(b: Builtins, fuel: nat, a: Act, s: Scope, body: Sexp, tail: bool, g: Gen,
                                       d: nat, rho: Rho, vis: set<string>, h: Heap, out: Out, st: State)
    returns (st': State)
    requires CompileBody(a.u, a.f.env, s, body, tail) == Ok(g) && EvalBody(a.u, b, fuel, a.f, rho, body, h) == Some(out)
    requires TidyEach(a.u, body, vis) && d + NeedEach(body) <= a.Entries() && Before(a, s, g, d, rho, vis, h, st)
    ensures Reaches(b, st, st') && Done(a, st, st', tail, st.pc + |g.code|, out, d)
    decreases fuel, 0, Size(body), 2
  {
    hide Compile, CompileBody, Eval, Tidy, Need, Here, Sound, Reaches, HeapRel, Frees, Before, Done, Pushed, Shape;
    BeforeFacts(a, s, g, d, rho, vis, h, st);
    var c, r := BodyCode(a.u, a.f.env, s, body, tail, g);
    if body.cdr.SNil? {
      st' := CorrectExpr(b, fuel, a, s, body.car, tail, c, d, rho, vis, h, out, st);
    } else {
      var v := Eval(a.u, b, fuel, a.f, rho, body.car, h).value;
      BodyParts(a, s, body, tail, c, r, g, d, rho, vis, h, st);
      var st1 := CorrectStep(b, fuel, a, s, body.car, c, d, rho, vis, h, v, st);
      BeforeHolds(a, c.scope, r, d, rho, vis, v.heap, st1);
      BeforeFacts(a, c.scope, r, d, rho, vis, v.heap, st1);
      st' := CorrectBody(b, fuel, a, c.scope, body.cdr, tail, r, d, rho, vis, v.heap, out, st1);
      ReachesTrans(b, st, st1, st');
      assert st1.pc + |r.code| == st.pc + |g.code|;
      DoneAfter(a, st, st1, st', tail, st.pc + |g.code|, out, d);
    }
  }

  lemma BodyParts(a: Act, s: Scope, body: Sexp, tail: bool, c: Gen, r: Gen, g: Gen, d: nat, rho: Rho,
                  vis: set<string>, h: Heap, st: State)
    requires body.SCons? && Compile(a.u, a.f.env, s, body.car, false) == Ok(c)
    requires CompileBody(a.u, a.f.env, c.scope, body.cdr, tail) == Ok(r) && g == Gen(c.code + r.code, r.scope)
    requires TidyEach(a.u, body, vis) && d + NeedEach(body) <= a.Entries() && Before(a, s, g, d, rho, vis, h, st)
    ensures Before(a, s, c, d, rho, vis, h, st) && CodeAt(a.g.code, st.pc + |c.code|, r.code)
    ensures Frees(r.scope.vars) <= a.Free()
  {
    hide Compile, CompileBody, Tidy, Need, Here, Sound, Shape, HeapRel, Frees, Before, CodeAt;
    BeforeFacts(a, s, g, d, rho, vis, h, st);
    FormReady(a, s, body.car, c, d, rho, vis, h, st);
    SoundBody(a.u, a.f.env, c.scope, body.cdr, tail, vis, d, a.Entries());
    Earlier(a, c.scope, r, vis, d);
    CodeSplit(a.g.code, st.pc, c.code, r.code);
    BeforeHolds(a, s, c, d, rho, vis, h, st);
  }

  // ----- let1 -----

  lemma {:induction false} CorrectLet1(b: Builtins, fuel: nat, a: Act, s: Scope, args: Sexp, tail: bool, g: Gen,
                                       d: nat, rho: Rho, vis: set<string>, h: Heap, out: Out, st: State)
    returns (st': State)
    requires CompileLet1(a.u, a.f.env, s, args, tail) == Ok(g) && EvalLet1(a.u, b, fuel, a.f, rho, args, h) == Some(out)
    requires var name := Car(Car(args)); Tidy(a.u, Car(Cdr(Car(args))), vis) && name.SSym? && name.name !in vis
                                         && TidyEach(a.u, Cdr(args), vis + {name.name})
    requires d + Need(Car(Cdr(Car(args)))) <= a.Entries() && d + 1 + NeedEach(Cdr(args)) <= a.Entries()
    requires Before(a, s, g, d, rho, vis, h, st)
    ensures Reaches(b, st, st') && Done(a, st, st', tail, st.pc + |g.code|, out, d)
    decreases fuel, 0, Size(args), 3
  {
    hide Compile, CompileBound, Eval, EvalBody, Tidy, TidyEach, Need, NeedEach, Before, Reaches, Done, Shape;
    BeforeFacts(a, s, g, d, rho, vis, h, st);
    var e := Car(Cdr(args.car));
    var c, v := Compile(a.u, a.f.env, s, e, false).value, Eval(a.u, b, fuel, a.f, rho, e, h).value;
    assert Size(e) < Size(args) && Size(args.cdr) < Size(args);
    FormReady(a, s, e, c, d, rho, vis, h, st);
    var i, s2, r := BoundCode(a.u, a.f.env, s, c, Car(args.car).name, args.cdr, tail, g, vis, d, a.Entries());
    st' := RunLet1(b, fuel, a, s, e, Car(args.car).name, args.cdr, tail, c, s2, r, g, d, rho, vis, h, v, out, st);
  }

  lemma BoundCode(u: Unit, env: Env, s: Scope, c: Gen, name: string, body: Sexp, tail: bool, g: Gen, vis: set<string>,
                  d: nat, n: nat)
    returns (i: nat, s2: Scope, r: Gen)
    requires CompileBound(u, env, c, name, body, tail) == Ok(g) && Ready(c.scope, d, n) && d < n
    ensures s2 == AddVariable(LocalAlloc(c.scope).0, Variable(name, Bound, d)) && Ready(s2, d + 1, n)
    ensures CompileBody(u, env, s2, body, tail) == Ok(r)
    ensures g == Gen(c.code + [MovMemEax(-(d + 1))] + r.code, LocalFree(r.scope, d))
  {
    hide CompileBody, WellNumbered;
    AllocSlot(c.scope, d);
    i := d;
    s2 := AddVariable(LocalAlloc(c.scope).0, Variable(name, Bound, d));
    LetReady(c.scope, name, d, n);
    r := CompileBody(u, env, s2, body, tail).value;
  }

  lemma {:induction false} RunLet1(b: Builtins, fuel: nat, a: Act, s: Scope, e: Sexp, name: string, body: Sexp,
                                   tail: bool, c: Gen, s2: Scope, r: Gen, g: Gen, d: nat, rho: Rho, vis: set<string>,
                                   h: Heap, v: Out, out: Out, st: State)
    returns (st': State)
    requires Compile(a.u, a.f.env, s, e, false) == Ok(c) && Eval(a.u, b, fuel, a.f, rho, e, h) == Some(v)
    requires s2 == AddVariable(LocalAlloc(c.scope).0, Variable(name, Bound, d))
    requires CompileBody(a.u, a.f.env, s2, body, tail) == Ok(r)
    requires g == Gen(c.code + [MovMemEax(-(d + 1))] + r.code, LocalFree(r.scope, d)) && Ready(s2, d + 1, a.Entries())
    requires EvalBody(a.u, b, fuel, a.f, rho[name := v.value], body, v.heap) == Some(out)
    requires Tidy(a.u, e, vis) && name !in vis && TidyEach(a.u, body, vis + {name})
    requires d + Need(e) <= a.Entries() && d + 1 + NeedEach(body) <= a.Entries()
    requires Before(a, s, g, d, rho, vis, h, st) && Shape(a, st)
    ensures Reaches(b, st, st') && Done(a, st, st', tail, st.pc + |g.code|, out, d)
    decreases fuel, 0, Size(e) + Size(body), 4
  {
    hide *;
    LetParts(a, s, c, s2, body, tail, r, g, name, e, d, rho, vis, h, st);
    var st1 := CorrectStep(b, fuel, a, s, e, c, d, rho, vis, h, v, st);
    var st2 := DoBind(b, a, c, name, s2, d, rho, vis, v, st, st1, st.pc + |c.code|);
    BeforeHolds(a, s2, r, d + 1, rho[name := v.value], vis + {name}, v.heap, st2);
    BeforeFacts(a, s2, r, d + 1, rho[name := v.value], vis + {name}, v.heap, st2);
    st' := CorrectBody(b, fuel, a, s2, body, tail, r, d + 1, rho[name := v.value], vis + {name}, v.heap, out, st2);
    ReachesTrans(b, st, st2, st');
    assert st2.pc + |r.code| == st.pc + |g.code|;
    DoneInner(a, st2, st', tail, st.pc + |g.code|, out, d);
    DoneAfter(a, st, st2, st', tail, st.pc + |g.code|, out, d);
  }

  lemma LetParts(a: Act, s: Scope, c: Gen, s2: Scope, body: Sexp, tail: bool, r: Gen, g: Gen, name: string, e: Sexp,
                 d: nat, rho: Rho, vis: set<string>, h: Heap, st: State)
    requires Compile(a.u, a.f.env, s, e, false) == Ok(c) && Tidy(a.u, e, vis) && d + Need(e) <= a.Entries()
    requires s2 == AddVariable(LocalAlloc(c.scope).0, Variable(name, Bound, d))
    requires CompileBody(a.u, a.f.env, s2, body, tail) == Ok(r)
    requires g == Gen(c.code + [MovMemEax(-(d + 1))] + r.code, LocalFree(r.scope, d)) && Ready(s2, d + 1, a.Entries())
    requires TidyEach(a.u, body, vis + {name}) && d + 1 + NeedEach(body) <= a.Entries()
    requires Before(a, s, g, d, rho, vis, h, st)
    ensures Before(a, s, c, d, rho, vis, h, st) && CodeAt(a.g.code, st.pc + |c.code| + 1, r.code)
    ensures Frees(r.scope.vars) <= a.Free()
    ensures st.pc + |c.code| < |a.g.code| && a.g.code[st.pc + |c.code|] == MovMemEax(-(d + 1))
    ensures Frees(s2.vars) <= a.Free()
  {
    hide Compile, CompileBody, Tidy, TidyEach, Need, NeedEach, Here, Sound, Shape, HeapRel, Before, CodeAt, Ready,
         FirstUnused, Numbered, Find;
    BeforeFacts(a, s, g, d, rho, vis, h, st);
    SoundBody(a.u, a.f.env, s2, body, tail, vis + {name}, d + 1, a.Entries());
    Earlier(a, s2, r, vis + {name}, d + 1);
    assert s2.vars[1..] == c.scope.vars;
    CodeSplit3(a.g.code, st.pc, c.code, [MovMemEax(-(d + 1))], r.code);
    Code1(a.g.code, st.pc + |c.code|, MovMemEax(-(d + 1)));
    BeforeHolds(a, s, c, d, rho, vis, h, st);
  }

  /** Storing the value of a let1 makes its name visible. */
  lemma DoBind(b: Builtins, a: Act, c: Gen, name: string, s2: Scope, d: nat, rho: Rho, vis: set<string>, v: Out,
               st: State, st1: State, pc: nat)
    returns (st2: State)
    requires Reaches(b, st, st1) && Shape(a, st) && Normal(a, st, st1, pc, v, d)
    requires Here(a, c.scope, d, rho, vis, v.heap, st1)
    requires pc < |a.g.code| && a.g.code[pc] == MovMemEax(-(d + 1)) && d < a.Entries() && name !in vis
    requires s2 == AddVariable(LocalAlloc(c.scope).0, Variable(name, Bound, d)) && Ready(s2, d + 1, a.Entries())
    requires Frees(s2.vars) <= a.Free()
    ensures Reaches(b, st, st2) && Pushed(st, st2, [], d, a.Entries()) && st2.pc == pc + 1
    ensures Here(a, s2, d + 1, rho[name := v.value], vis + {name}, v.heap, st2)
  {
    hide Reaches, Compiled, Located, Ready, EdiOk, Frees, Find;
    HereFacts(a, c.scope, d, rho, vis, v.heap, st1);
    st2 := DoStore(b, st, st1, -(d + 1));
    assert Pushed(st1, st2, [], d, a.Entries());
    PushedOn(st, st1, st2, d, a.Entries());
    BoundLocated(a, c.scope, name, s2, d, rho, vis, v.value, st1, st2);
    EdiSame(a, st1, st2);
    assert Inside(a, s2, d + 1, rho[name := v.value], vis + {name}, st2);
  }

  lemma BoundLocated(a: Act, s: Scope, name: string, s2: Scope, d: nat, rho: Rho, vis: set<string>, w: Word,
                     st1: State, st2: State)
    requires Shape(a, st1) && Shape(a, st2) && Located(a, s, rho, st1, d) && rho.Keys <= vis && name !in vis
    requires d < a.Entries()
    requires s2.vars == [Variable(name, Bound, d)] + s.vars
    requires st1.ebp + d < |st1.stack| && st2 == st1.(pc := st2.pc, stack := st1.stack[st1.ebp + d := w])
    ensures Located(a, s2, rho[name := w], st2, d + 1)
  {
    hide LocatedAt, Shape;
    assert s2.vars[1..] == s.vars;
    BoundItself(a, name, d, w, st1, st2);
    forall x | x in rho[name := w] ensures LocatedAt(a, Find(s2.vars, x), x, rho[name := w][x], st2, d + 1) {
      if x != name {
        assert x in vis;
        OthersStay(a, Find(s.vars, x), x, rho[x], d, w, st1, st2);
      }
    }
  }

  lemma BoundItself(a: Act, name: string, d: nat, w: Word, st1: State, st2: State)
    requires Shape(a, st1) && Shape(a, st2) && d < a.Entries()
    requires st2 == st1.(pc := st2.pc, stack := st1.stack[st1.ebp + d := w])
    ensures LocatedAt(a, Some(Variable(name, Bound, d)), name, w, st2, d + 1)
  {
  }

  lemma OthersStay(a: Act, v: Option<Variable>, x: string, y: Word, d: nat, w: Word, st1: State, st2: State)
    requires Shape(a, st1) && Shape(a, st2) && d < a.Entries() && LocatedAt(a, v, x, y, st1, d)
    requires st2 == st1.(pc := st2.pc, stack := st1.stack[st1.ebp + d := w])
    ensures LocatedAt(a, v, x, y, st2, d + 1)
  {
  }

  /** With one slot more in use, less may have changed. */
  lemma DoneInner(a: Act, st: State, st': State, tail: bool, pc: nat, out: Out, d: nat)
    requires Shape(a, st) && Done(a, st, st', tail, pc, out, d + 1)
    ensures Done(a, st, st', tail, pc, out, d)
  {
    DoneFacts(a, st, st', tail, pc, out, d + 1);
    assert Finished(a, st, st', tail, pc, out, d);
  }

  // ----- lists built on the stack -----

  /** Nothing in the frame, below it or in old closures changed. */
  ghost predicate FrameKept(st: State, st': State, n: nat) {
    && st'.code == st.code && st'.ebp == st.ebp && st'.edi == st.edi && st.clos <= st'.clos
    && st.ebp + n <= |st'.stack| && st.ebp + n <= |st.stack|
    && forall j :: 0 <= j < st.ebp + n ==> st'.stack[j] == st.stack[j]
  }

  lemma LocationBelow(a: Act, v: Option<Variable>, x: string, w: Word, st: State, st': State, d: nat)
    requires Shape(a, st) && Shape(a, st') && FrameKept(st, st', a.Entries()) && LocatedAt(a, v, x, w, st, d)
    ensures LocatedAt(a, v, x, w, st', d)
  {
  }

  lemma HereBelow(a: Act, s: Scope, d: nat, rho: Rho, vis: set<string>, h: Heap, h': Heap, st: State, st': State)
    requires Here(a, s, d, rho, vis, h, st) && HeapRel(a.u, h', st') && FrameKept(st, st', a.Entries())
    ensures Here(a, s, d, rho, vis, h', st')
  {
    hide LocatedAt, Compiled, Ready, HeapRel;
    HereFacts(a, s, d, rho, vis, h, st);
    forall x | x in rho ensures LocatedAt(a, Find(s.vars, x), x, rho[x], st', d) {
      LocationBelow(a, Find(s.vars, x), x, rho[x], st, st', d);
    }
    assert Inside(a, s, d, rho, vis, st');
  }

  /** The list under way is on top of the stack; `w` takes its place. */
  lemma TopReplaced(a: Act, s: Scope, d: nat, rho: Rho, vis: set<string>, r: Word, v: Out, w: Word, cells: seq<Cell>,
                    st0: State, st1: State, st2: State, st3: State)
    requires Shape(a, st0) && Pushed(st0, st1, [r], d, a.Entries()) && Pushed(st1, st2, [], d, a.Entries())
    requires Here(a, s, d, rho, vis, v.heap, st2) && |st2.stack| > 0
    requires st3 == st2.(pc := st3.pc, eax := st3.eax, stack := st2.stack[|st2.stack| - 1 := w], cells := cells)
    ensures Pushed(st0, st3, [w], d, a.Entries()) && Here(a, s, d, rho, vis, v.heap.(cells := cells), st3)
  {
    HereFacts(a, s, d, rho, vis, v.heap, st2);
    HereBelow(a, s, d, rho, vis, v.heap, v.heap.(cells := cells), st2, st3);
  }

  lemma ConsOn(b: Builtins, a: Act, s: Scope, d: nat, rho: Rho, vis: set<string>, r: Word, v: Out, st0: State,
               st1: State, st2: State)
    returns (st3: State)
    requires Reaches(b, st0, st2) && Shape(a, st0) && Pushed(st0, st1, [r], d, a.Entries())
    requires Normal(a, st1, st2, st2.pc, v, d)
    requires Here(a, s, d, rho, vis, v.heap, st2) && CodeAt(a.g.code, st2.pc, PUSH_CONS)
    ensures var out := Consed(v.value, r, v.heap);
      Reaches(b, st0, st3) && Pushed(st0, st3, [out.value], d, a.Entries()) && Here(a, s, d, rho, vis, out.heap, st3)
    ensures st3.pc == st2.pc + 4
  {
    hide Here, Reaches, Compiled;
    HereShape(a, s, d, rho, vis, v.heap, st2);
    assert st2.stack[|st2.stack| - 1] == st1.stack[|st1.stack| - 1] == r;
    st3 := DoPushCons(b, st0, st2);
    var out := Consed(v.value, r, v.heap);
    TopReplaced(a, s, d, rho, vis, r, v, out.value, out.heap.cells, st0, st1, st2, st3);
  }

  lemma MergeOn(b: Builtins, a: Act, s: Scope, d: nat, rho: Rho, vis: set<string>, r: Word, v: Out, w: Word,
                cells: seq<Cell>, st0: State, st1: State, st2: State) returns (st3: State)
    requires Reaches(b, st0, st2) && Shape(a, st0) && Pushed(st0, st1, [r], d, a.Entries())
    requires Normal(a, st1, st2, st2.pc, v, d)
    requires Here(a, s, d, rho, vis, v.heap, st2) && CodeAt(a.g.code, st2.pc, PUSH_MERGE)
    requires Merge2(v.heap.cells, v.value, r) == Some((w, cells))
    ensures Reaches(b, st0, st3) && Pushed(st0, st3, [w], d, a.Entries())
    ensures Here(a, s, d, rho, vis, v.heap.(cells := cells), st3)
    ensures st3.pc == st2.pc + 4
  {
    hide Here, Reaches, Compiled, Merge2;
    HereShape(a, s, d, rho, vis, v.heap, st2);
    assert st2.stack[|st2.stack| - 1] == st1.stack[|st1.stack| - 1] == r;
    st3 := DoPushMerge(b, st0, st2, w, cells);
    TopReplaced(a, s, d, rho, vis, r, v, w, cells, st0, st1, st2, st3);
  }

  lemma HereShape(a: Act, s: Scope, d: nat, rho: Rho, vis: set<string>, h: Heap, st: State)
    requires Here(a, s, d, rho, vis, h, st)
    ensures Compiled(a) && HeapRel(a.u, h, st) && Shape(a, st)
  {
  }

  lemma StartList(b: Builtins, a: Act, s: Scope, d: nat, rho: Rho, vis: set<string>, h: Heap, st: State)
    returns (st': State)
    requires Here(a, s, d, rho, vis, h, st) && CodeAt(a.g.code, st.pc, [PushImm(Nil)])
    ensures Reaches(b, st, st') && Here(a, s, d, rho, vis, h, st') && Pushed(st, st', [Nil], d, a.Entries())
    ensures st'.pc == st.pc + 1
  {
    hide Reaches, Compiled;
    HereFacts(a, s, d, rho, vis, h, st);
    Code1(a.g.code, st.pc, PushImm(Nil));
    ReachesSelf(b, st);
    st' := DoPushImm(b, st, st, Nil);
    StayPut(a, s, d, rho, vis, h, h, st, st', [Nil]);
  }

  lemma EndList(b: Builtins, a: Act, out: Out, d: nat, st: State, st1: State) returns (st': State)
    requires Reaches(b, st, st1) && Shape(a, st) && Pushed(st, st1, [out.value], d, a.Entries())
    requires HeapRel(a.u, out.heap, st1)
    requires CodeAt(a.g.code, st1.pc, [PopEax])
    ensures Reaches(b, st, st') && Normal(a, st, st', st1.pc + 1, out, d)
  {
    hide Reaches;
    Code1(a.g.code, st1.pc, PopEax);
    st' := DoPop(b, st, st1);
  }

  lemma ConsesCode(u: Unit, env: Env, s: Scope, args: Sexp, g: Gen) returns (r: Gen, c: Gen)
    requires CompileConses(u, env, s, args, 0) == Ok(g) && args.SCons?
    ensures CompileConses(u, env, s, args.cdr, 0) == Ok(r) && Compile(u, env, r.scope, args.car, false) == Ok(c)
    ensures g == Gen(r.code + c.code + PUSH_CONS, c.scope)
  {
    hide Compile;
    r := CompileConses(u, env, s, args.cdr, 0).value;
    c := Compile(u, env, r.scope, args.car, false).value;
  }

  lemma {:induction false} CorrectConses(b: Builtins, fuel: nat, a: Act, s: Scope, args: Sexp, skip: nat, g: Gen,
                                         d: nat, rho: Rho, vis: set<string>, h: Heap, out: Out, st0: State, st: State)
    returns (st': State)
    requires CompileConses(a.u, a.f.env, s, args, skip) == Ok(g)
    requires EvalConses(a.u, b, fuel, a.f, rho, args, skip, h) == Some(out)
    requires TidyEach(a.u, args, vis) && d + NeedEach(args) <= a.Entries() && Before(a, s, g, d, rho, vis, h, st)
    requires Reaches(b, st0, st) && Shape(a, st0) && Pushed(st0, st, [Nil], d, a.Entries())
    ensures Reaches(b, st0, st') && Pushed(st0, st', [out.value], d, a.Entries()) && st'.pc == st.pc + |g.code|
    ensures Here(a, g.scope, d, rho, vis, out.heap, st')
    decreases fuel, 0, Size(args), 2
  {
    hide Compile, Eval, Tidy, Need, Here, Sound, Reaches, Shape, HeapRel, Pushed, Frees, Before;
    BeforeFacts(a, s, g, d, rho, vis, h, st);
    if !args.SCons? {
      st' := st;
    } else if skip > 0 {
      st' := CorrectConses(b, fuel, a, s, args.cdr, skip - 1, g, d, rho, vis, h, out, st0, st);
    } else {
      var r, c := ConsesCode(a.u, a.f.env, s, args, g);
      var rest := EvalConses(a.u, b, fuel, a.f, rho, args.cdr, 0, h).value;
      ConsesParts(a, s, args, r, c, g, d, rho, vis, h, st);
      var st1 := CorrectConses(b, fuel, a, s, args.cdr, 0, r, d, rho, vis, h, rest, st0, st);
      st' := ConsNext(b, fuel, a, r.scope, args.car, c, d, rho, vis, rest, out, st0, st1);
    }
  }

  lemma {:induction false} ConsNext(b: Builtins, fuel: nat, a: Act, s: Scope, e: Sexp, c: Gen, d: nat, rho: Rho,
                                    vis: set<string>, rest: Out, out: Out, st0: State, st1: State)
    returns (st': State)
    requires Compile(a.u, a.f.env, s, e, false) == Ok(c) && Eval(a.u, b, fuel, a.f, rho, e, rest.heap).Some?
    requires var v := Eval(a.u, b, fuel, a.f, rho, e, rest.heap).value; out == Consed(v.value, rest.value, v.heap)
    requires Tidy(a.u, e, vis) && d + Need(e) <= a.Entries() && Here(a, s, d, rho, vis, rest.heap, st1)
    requires CodeAt(a.g.code, st1.pc, c.code) && CodeAt(a.g.code, st1.pc + |c.code|, PUSH_CONS)
    requires Frees(c.scope.vars) <= a.Free()
    requires Reaches(b, st0, st1) && Shape(a, st0) && Pushed(st0, st1, [rest.value], d, a.Entries())
    ensures Reaches(b, st0, st') && Pushed(st0, st', [out.value], d, a.Entries()) && st'.pc == st1.pc + |c.code| + 4
    ensures Here(a, c.scope, d, rho, vis, out.heap, st')
    decreases fuel, 0, Size(e), 3
  {
    hide Compile, Eval, Tidy, Need, Here, Reaches, Shape, HeapRel, Pushed, Frees, Before, CodeAt;
    var v := Eval(a.u, b, fuel, a.f, rho, e, rest.heap).value;
    BeforeHolds(a, s, c, d, rho, vis, rest.heap, st1);
    var st2 := CorrectStep(b, fuel, a, s, e, c, d, rho, vis, rest.heap, v, st1);
    ReachesTrans(b, st0, st1, st2);
    st' := ConsOn(b, a, c.scope, d, rho, vis, rest.value, v, st0, st1, st2);
  }

  lemma ConsesParts(a: Act, s: Scope, args: Sexp, r: Gen, c: Gen, g: Gen, d: nat, rho: Rho, vis: set<string>, h: Heap,
                    st: State)
    requires args.SCons? && CompileConses(a.u, a.f.env, s, args.cdr, 0) == Ok(r)
    requires Compile(a.u, a.f.env, r.scope, args.car, false) == Ok(c)
    requires g == Gen(r.code + c.code + PUSH_CONS, c.scope)
    requires TidyEach(a.u, args, vis) && d + NeedEach(args) <= a.Entries() && Before(a, s, g, d, rho, vis, h, st)
    ensures Before(a, s, r, d, rho, vis, h, st) && Frees(c.scope.vars) <= a.Free()
    ensures CodeAt(a.g.code, st.pc + |r.code|, c.code) && CodeAt(a.g.code, st.pc + |r.code| + |c.code|, PUSH_CONS)
  {
    hide Compile, CompileConses, Tidy, Need, Sound, Shape, HeapRel, Frees, Before, CodeAt, Ready;
    BeforeFacts(a, s, g, d, rho, vis, h, st);
    HereFacts(a, s, d, rho, vis, h, st);
    SoundConses(a.u, a.f.env, s, args.cdr, 0, vis, d, a.Entries());
    SoundReady(s, r, vis, d, a.Entries());
    SoundExpr(a.u, a.f.env, r.scope, args.car, false, vis, d, a.Entries());
    Earlier(a, r.scope, c, vis, d);
    CodeSplit3(a.g.code, st.pc, r.code, c.code, PUSH_CONS);
    BeforeHolds(a, s, r, d, rho, vis, h, st);
  }

  lemma {:induction false} CorrectList(b: Builtins, fuel: nat, a: Act, s: Scope, args: Sexp, g: Gen, d: nat, rho: Rho,
                                       vis: set<string>, h: Heap, out: Out, st: State)
    returns (st': State)
    requires CompileList(a.u, a.f.env, s, args) == Ok(g) && EvalConses(a.u, b, fuel, a.f, rho, args, 0, h) == Some(out)
    requires TidyEach(a.u, args, vis) && d + NeedEach(args) <= a.Entries() && Before(a, s, g, d, rho, vis, h, st)
    ensures Reaches(b, st, st') && Normal(a, st, st', st.pc + |g.code|, out, d)
    decreases fuel, 0, Size(args), 3
  {
    hide CompileConses, EvalConses, TidyEach, NeedEach, Here, Reaches, Shape, HeapRel, Pushed, Frees, Before, CodeAt;
    BeforeFacts(a, s, g, d, rho, vis, h, st);
    var r := CompileConses(a.u, a.f.env, s, args, 0).value;
    CodeSplit3(a.g.code, st.pc, [PushImm(Nil)], r.code, [PopEax]);
    var st1 := StartList(b, a, s, d, rho, vis, h, st);
    BeforeHolds(a, s, r, d, rho, vis, h, st1);
    var st2 := CorrectConses(b, fuel, a, s, args, 0, r, d, rho, vis, h, out, st, st1);
    HereShape(a, r.scope, d, rho, vis, out.heap, st2);
    st' := EndList(b, a, out, d, st, st2);
  }

  // ----- backquote -----

  lemma {:induction false} CorrectBackquote(b: Builtins, fuel: nat, a: Act, s: Scope, val: Sexp, g: Gen, d: nat,
                                            rho: Rho, vis: set<string>, h: Heap, out: Out, st: State)
    returns (st': State)
    requires CompileBackquote(a.u, a.f.env, s, val) == Ok(g)
    requires EvalBackquote(a.u, b, fuel, a.f, rho, val, h) == Some(out)
    requires TidyTemplate(a.u, val, vis) && d + NeedTemplate(val) <= a.Entries() && Before(a, s, g, d, rho, vis, h, st)
    ensures Reaches(b, st, st') && Normal(a, st, st', st.pc + |g.code|, out, d)
    decreases fuel, 0, Size(val), 3
  {
    hide Compile, CompileTemplate, Eval, EvalTemplate, Tidy, TidyItems, Need, NeedItems, Here, Reaches, Shape,
         HeapRel, Pushed, Frees, Before, CodeAt;
    BeforeFacts(a, s, g, d, rho, vis, h, st);
    if !Listp(val) {
      st' := CorrectConstant(b, a, d, h, WordOf(val), st);
    } else if SymStrEq(Car(val), "unquote") {
      st' := CorrectStep(b, fuel, a, s, Car(Cdr(val)), g, d, rho, vis, h, out, st);
    } else {
      var r := CompileTemplate(a.u, a.f.env, s, val).value;
      CodeSplit3(a.g.code, st.pc, [PushImm(Nil)], r.code, [PopEax]);
      var st1 := StartList(b, a, s, d, rho, vis, h, st);
      BeforeHolds(a, s, r, d, rho, vis, h, st1);
      var st2 := CorrectTemplate(b, fuel, a, s, val, r, d, rho, vis, h, out, st, st1);
      HereShape(a, r.scope, d, rho, vis, out.heap, st2);
      st' := EndList(b, a, out, d, st, st2);
    }
  }

  /** The code of one template element, without the call that adds it. */
  ghost function ItemCode(u: Unit, env: Env, s: Scope, item: Sexp): Result<Gen> {
    if IsSplice(item) then Compile(u, env, s, Car(Cdr(item)), false) else CompileBackquote(u, env, s, item)
  }

  ghost function Glue(item: Sexp): seq<Instr> {
    if IsSplice(item) then PUSH_MERGE else PUSH_CONS
  }

  lemma TemplateCode(u: Unit, env: Env, s: Scope, items: Sexp, g: Gen) returns (r: Gen, c: Gen)
    requires CompileTemplate(u, env, s, items) == Ok(g) && items.SCons?
    ensures CompileTemplate(u, env, s, items.cdr) == Ok(r) && ItemCode(u, env, r.scope, items.car) == Ok(c)
    ensures g == Gen(r.code + c.code + Glue(items.car), c.scope)
  {
    hide Compile, CompileBackquote, IsSplice;
    r := CompileTemplate(u, env, s, items.cdr).value;
    c := ItemCode(u, env, r.scope, items.car).value;
  }

  lemma {:induction false} CorrectTemplate(b: Builtins, fuel: nat, a: Act, s: Scope, items: Sexp, g: Gen, d: nat,
                                           rho: Rho, vis: set<string>, h: Heap, out: Out, st0: State, st: State)
    returns (st': State)
    requires CompileTemplate(a.u, a.f.env, s, items) == Ok(g)
    requires EvalTemplate(a.u, b, fuel, a.f, rho, items, h) == Some(out)
    requires TidyItems(a.u, items, vis) && d + NeedItems(items) <= a.Entries() && Before(a, s, g, d, rho, vis, h, st)
    requires Reaches(b, st0, st) && Shape(a, st0) && Pushed(st0, st, [Nil], d, a.Entries())
    ensures Reaches(b, st0, st') && Pushed(st0, st', [out.value], d, a.Entries()) && st'.pc == st.pc + |g.code|
    ensures Here(a, g.scope, d, rho, vis, out.heap, st')
    decreases fuel, 0, Size(items), 2
  {
    hide Compile, CompileBackquote, Eval, EvalBackquote, Tidy, TidyTemplate, Need, NeedTemplate, Here, Sound, Reaches,
         Shape, HeapRel, Pushed, Frees, Before, IsSplice;
    BeforeFacts(a, s, g, d, rho, vis, h, st);
    if !items.SCons? {
      st' := st;
    } else {
      var r, c := TemplateCode(a.u, a.f.env, s, items, g);
      var rest := EvalTemplate(a.u, b, fuel, a.f, rho, items.cdr, h).value;
      TemplateParts(a, s, items, r, c, g, d, rho, vis, h, st);
      var st1 := CorrectTemplate(b, fuel, a, s, items.cdr, r, d, rho, vis, h, rest, st0, st);
      if IsSplice(items.car) {
        SpliceSize(items.car);
        st' := MergeNext(b, fuel, a, r.scope, Car(Cdr(items.car)), c, d, rho, vis, rest, out, st0, st1);
      } else {
        st' := ItemNext(b, fuel, a, r.scope, items.car, c, d, rho, vis, rest, out, st0, st1);
      }
    }
  }

  lemma SpliceSize(item: Sexp)
    requires IsSplice(item)
    ensures Size(Car(Cdr(item))) < Size(item)
  {
  }

  lemma {:induction false} ItemNext(b: Builtins, fuel: nat, a: Act, s: Scope, val: Sexp, c: Gen, d: nat, rho: Rho,
                                    vis: set<string>, rest: Out, out: Out, st0: State, st1: State)
    returns (st': State)
    requires CompileBackquote(a.u, a.f.env, s, val) == Ok(c)
    requires EvalBackquote(a.u, b, fuel, a.f, rho, val, rest.heap).Some?
    requires var v := EvalBackquote(a.u, b, fuel, a.f, rho, val, rest.heap).value;
      out == Consed(v.value, rest.value, v.heap)
    requires TidyTemplate(a.u, val, vis) && d + NeedTemplate(val) <= a.Entries()
    requires Here(a, s, d, rho, vis, rest.heap, st1)
    requires CodeAt(a.g.code, st1.pc, c.code) && CodeAt(a.g.code, st1.pc + |c.code|, PUSH_CONS)
    requires Frees(c.scope.vars) <= a.Free()
    requires Reaches(b, st0, st1) && Shape(a, st0) && Pushed(st0, st1, [rest.value], d, a.Entries())
    ensures Reaches(b, st0, st') && Pushed(st0, st', [out.value], d, a.Entries()) && st'.pc == st1.pc + |c.code| + 4
    ensures Here(a, c.scope, d, rho, vis, out.heap, st')
    decreases fuel, 0, Size(val), 4
  {
    hide CompileBackquote, EvalBackquote, TidyTemplate, NeedTemplate, Here, Reaches, HeapRel, Frees, Before, CodeAt,
         Ready, Sound, Compiled;
    var v := EvalBackquote(a.u, b, fuel, a.f, rho, val, rest.heap).value;
    BeforeHolds(a, s, c, d, rho, vis, rest.heap, st1);
    HereShape(a, s, d, rho, vis, rest.heap, st1);
    var st2 := CorrectBackquote(b, fuel, a, s, val, c, d, rho, vis, rest.heap, v, st1);
    ReachesTrans(b, st0, st1, st2);
    HereReady(a, s, d, rho, vis, rest.heap, st1);
    SoundBackquote(a.u, a.f.env, s, val, vis, d, a.Entries());
    After(a, s, c, d, rho, vis, rest.heap, st1, st2, v);
    st' := ConsOn(b, a, c.scope, d, rho, vis, rest.value, v, st0, st1, st2);
  }

  lemma HereReady(a: Act, s: Scope, d: nat, rho: Rho, vis: set<string>, h: Heap, st: State)
    requires Here(a, s, d, rho, vis, h, st)
    ensures Ready(s, d, a.Entries())
  {
    HereFacts(a, s, d, rho, vis, h, st);
  }

  lemma {:induction false} MergeNext(b: Builtins, fuel: nat, a: Act, s: Scope, e: Sexp, c: Gen, d: nat, rho: Rho,
                                     vis: set<string>, rest: Out, out: Out, st0: State, st1: State)
    returns (st': State)
    requires Compile(a.u, a.f.env, s, e, false) == Ok(c) && Eval(a.u, b, fuel, a.f, rho, e, rest.heap).Some?
    requires var v := Eval(a.u, b, fuel, a.f, rho, e, rest.heap).value;
      Merge2(v.heap.cells, v.value, rest.value) == Some((out.value, out.heap.cells))
        && out.heap == v.heap.(cells := out.heap.cells)
    requires Tidy(a.u, e, vis) && d + Need(e) <= a.Entries() && Here(a, s, d, rho, vis, rest.heap, st1)
    requires CodeAt(a.g.code, st1.pc, c.code) && CodeAt(a.g.code, st1.pc + |c.code|, PUSH_MERGE)
    requires Frees(c.scope.vars) <= a.Free()
    requires Reaches(b, st0, st1) && Shape(a, st0) && Pushed(st0, st1, [rest.value], d, a.Entries())
    ensures Reaches(b, st0, st') && Pushed(st0, st', [out.value], d, a.Entries()) && st'.pc == st1.pc + |c.code| + 4
    ensures Here(a, c.scope, d, rho, vis, out.heap, st')
    decreases fuel, 0, Size(e), 3
  {
    hide Compile, Eval, Tidy, Need, Here, Reaches, Shape, HeapRel, Pushed, Frees, Before, CodeAt, Merge2;
    var v := Eval(a.u, b, fuel, a.f, rho, e, rest.heap).value;
    BeforeHolds(a, s, c, d, rho, vis, rest.heap, st1);
    var st2 := CorrectStep(b, fuel, a, s, e, c, d, rho, vis, rest.heap, v, st1);
    ReachesTrans(b, st0, st1, st2);
    st' := MergeOn(b, a, c.scope, d, rho, vis, rest.value, v, out.value, out.heap.cells, st0, st1, st2);
  }

  lemma TemplateParts(a: Act, s: Scope, items: Sexp, r: Gen, c: Gen, g: Gen, d: nat, rho: Rho, vis: set<string>,
                      h: Heap, st: State)
    requires items.SCons? && CompileTemplate(a.u, a.f.env, s, items.cdr) == Ok(r)
    requires ItemCode(a.u, a.f.env, r.scope, items.car) == Ok(c)
    requires g == Gen(r.code + c.code + Glue(items.car), c.scope)
    requires TidyItems(a.u, items, vis) && d + NeedItems(items) <= a.Entries() && Before(a, s, g, d, rho, vis, h, st)
    ensures Before(a, s, r, d, rho, vis, h, st) && Frees(c.scope.vars) <= a.Free()
    ensures CodeAt(a.g.code, st.pc + |r.code|, c.code) && CodeAt(a.g.code, st.pc + |r.code| + |c.code|, Glue(items.car))
  {
    hide Compile, CompileBackquote, CompileTemplate, Tidy, TidyTemplate, Need, NeedTemplate, Sound, Shape, HeapRel,
         Frees, Before, CodeAt, Ready, Here, IsSplice;
    BeforeFacts(a, s, g, d, rho, vis, h, st);
    HereReady(a, s, d, rho, vis, h, st);
    SoundTemplate(a.u, a.f.env, s, items.cdr, vis, d, a.Entries());
    SoundReady(s, r, vis, d, a.Entries());
    if IsSplice(items.car) {
      SoundExpr(a.u, a.f.env, r.scope, Car(Cdr(items.car)), false, vis, d, a.Entries());
    } else {
      SoundBackquote(a.u, a.f.env, r.scope, items.car, vis, d, a.Entries());
    }
    Earlier(a, r.scope, c, vis, d);
    CodeSplit3(a.g.code, st.pc, r.code, c.code, Glue(items.car));
    BeforeHolds(a, s, r, d, rho, vis, h, st);
  }

  lemma {:induction false} CorrectPushes(b: Builtins, fuel: nat, a: Act, s: Scope, args: Sexp, n: nat, g: Gen, d: nat,
                                         rho: Rho, vis: set<string>, h: Heap, ws: seq<Word>, h': Heap, ws0: seq<Word>,
                                         st0: State, st: State)
    returns (st': State)
    requires CompilePushes(a.u, a.f.env, s, args, n) == Ok(g)
    requires EvalPushes(a.u, b, fuel, a.f, rho, args, n, h) == Some((ws, h'))
    requires TidyEach(a.u, args, vis) && d + NeedEach(args) <= a.Entries() && Before(a, s, g, d, rho, vis, h, st)
    requires Reaches(b, st0, st) && Shape(a, st0) && Pushed(st0, st, ws0, d, a.Entries())
    ensures Reaches(b, st0, st') && Pushed(st0, st', ws + ws0, d, a.Entries()) && st'.pc == st.pc + |g.code|
    ensures Here(a, g.scope, d, rho, vis, h', st')
    decreases fuel, 0, Size(args), 2
  {
    hide Compile, Eval, Tidy, Need, Here, Sound, Reaches, Shape, HeapRel, Pushed, Frees, Before;
    BeforeFacts(a, s, g, d, rho, vis, h, st);
    if !args.SCons? || n == 0 {
      st' := st;
      assert ws + ws0 == ws0;
    } else {
      var r, c := PushesCode(a.u, a.f.env, s, args, n, g);
      var (ws1, h1) := EvalPushes(a.u, b, fuel, a.f, rho, args.cdr, n - 1, h).value;
      var v := Eval(a.u, b, fuel, a.f, rho, args.car, h1).value;
      PushesParts(a, s, args, n, r, c, g, d, rho, vis, h, st);
      var st1 := CorrectPushes(b, fuel, a, s, args.cdr, n - 1, r, d, rho, vis, h, ws1, h1, ws0, st0, st);
      BeforeHolds(a, r.scope, c, d, rho, vis, h1, st1);
      var st2 := CorrectStep(b, fuel, a, r.scope, args.car, c, d, rho, vis, h1, v, st1);
      ReachesTrans(b, st0, st1, st2);
      st' := PushNext(b, a, c.scope, d, rho, vis, v, ws1 + ws0, st0, st1, st2);
      assert [v.value] + (ws1 + ws0) == ws + ws0;
    }
  }

  lemma PushesCode(u: Unit, env: Env, s: Scope, args: Sexp, n: nat, g: Gen) returns (r: Gen, c: Gen)
    requires CompilePushes(u, env, s, args, n) == Ok(g) && args.SCons? && n > 0
    ensures CompilePushes(u, env, s, args.cdr, n - 1) == Ok(r) && Compile(u, env, r.scope, args.car, false) == Ok(c)
    ensures g == Gen(r.code + c.code + [PushEax], c.scope)
  {
    hide Compile;
    r := CompilePushes(u, env, s, args.cdr, n - 1).value;
    c := Compile(u, env, r.scope, args.car, false).value;
  }

  lemma PushesParts(a: Act, s: Scope, args: Sexp, n: nat, r: Gen, c: Gen, g: Gen, d: nat, rho: Rho, vis: set<string>,
                    h: Heap, st: State)
    requires args.SCons? && n > 0 && CompilePushes(a.u, a.f.env, s, args.cdr, n - 1) == Ok(r)
    requires Compile(a.u, a.f.env, r.scope, args.car, false) == Ok(c) && g == Gen(r.code + c.code + [PushEax], c.scope)
    requires TidyEach(a.u, args, vis) && d + NeedEach(args) <= a.Entries() && Before(a, s, g, d, rho, vis, h, st)
    ensures Before(a, s, r, d, rho, vis, h, st) && Frees(c.scope.vars) <= a.Free()
    ensures CodeAt(a.g.code, st.pc + |r.code|, c.code) && CodeAt(a.g.code, st.pc + |r.code| + |c.code|, [PushEax])
  {
    hide Compile, CompilePushes, Tidy, Need, Sound, Shape, HeapRel, Frees, Before, CodeAt, Ready, Here;
    BeforeFacts(a, s, g, d, rho, vis, h, st);
    HereReady(a, s, d, rho, vis, h, st);
    SoundPushes(a.u, a.f.env, s, args.cdr, n - 1, vis, d, a.Entries());
    SoundReady(s, r, vis, d, a.Entries());
    SoundExpr(a.u, a.f.env, r.scope, args.car, false, vis, d, a.Entries());
    Earlier(a, r.scope, c, vis, d);
    CodeSplit3(a.g.code, st.pc, r.code, c.code, [PushEax]);
    BeforeHolds(a, s, r, d, rho, vis, h, st);
  }

  /** push eax, on top of the words `ws`. */
  lemma PushNext(b: Builtins, a: Act, s: Scope, d: nat, rho: Rho, vis: set<string>, v: Out, ws: seq<Word>, st0: State,
                 st1: State, st2: State)
    returns (st3: State)
    requires Reaches(b, st0, st2) && Shape(a, st0) && Pushed(st0, st1, ws, d, a.Entries())
    requires Normal(a, st1, st2, st2.pc, v, d)
    requires Here(a, s, d, rho, vis, v.heap, st2) && CodeAt(a.g.code, st2.pc, [PushEax])
    ensures Reaches(b, st0, st3) && Pushed(st0, st3, [v.value] + ws, d, a.Entries()) && st3.pc == st2.pc + 1
    ensures Here(a, s, d, rho, vis, v.heap, st3)
  {
    hide Here, Reaches, Compiled;
    HereShape(a, s, d, rho, vis, v.heap, st2);
    Code1(a.g.code, st2.pc, PushEax);
    st3 := DoPush(b, st0, st2);
    OnTop(a, s, d, rho, vis, v.heap, v.value, ws, st0, st1, st2, st3);
  }

  lemma OnTop(a: Act, s: Scope, d: nat, rho: Rho, vis: set<string>, h: Heap, w: Word, ws: seq<Word>, st0: State,
              st1: State, st2: State, st3: State)
    requires Shape(a, st0) && Pushed(st0, st1, ws, d, a.Entries()) && Pushed(st1, st2, [], d, a.Entries())
    requires Here(a, s, d, rho, vis, h, st2)
    requires st3 == st2.(pc := st3.pc, stack := st2.stack + [w])
    ensures Pushed(st0, st3, [w] + ws, d, a.Entries()) && Here(a, s, d, rho, vis, h, st3)
  {
    hide Here, Compiled;
    HereShape(a, s, d, rho, vis, h, st2);
    PushedTrans(st0, st1, st2, ws, [], d, a.Entries());
    var none: seq<Word> := [];
    assert none + ws == ws;
    assert Pushed(st2, st3, [w], d, a.Entries());
    PushedTrans(st0, st2, st3, ws, [w], d, a.Entries());
    StayPut(a, s, d, rho, vis, h, h, st2, st3, [w]);
  }

  lemma {:induction false} DoDefaults(b: Builtins, a: Act, s: Scope, d: nat, rho: Rho, vis: set<string>, h: Heap,
                                      optional: seq<Word>, from: nat, ws: seq<Word>, st0: State, st: State)
    returns (st': State)
    requires Here(a, s, d, rho, vis, h, st) && CodeAt(a.g.code, st.pc, PushDefaults(optional, from))
    requires Reaches(b, st0, st) && Shape(a, st0) && Pushed(st0, st, ws, d, a.Entries())
    ensures Reaches(b, st0, st') && Pushed(st0, st', Missing(optional, from) + ws, d, a.Entries())
    ensures Here(a, s, d, rho, vis, h, st') && st'.pc == st.pc + |PushDefaults(optional, from)|
    decreases |optional| - from
  {
    hide Here, Reaches, Compiled, HeapRel, Shape, Pushed;
    if from >= |optional| {
      st' := st;
      assert Missing(optional, from) + ws == ws;
    } else {
      CodeSplit(a.g.code, st.pc, PushDefaults(optional, from + 1), [PushImm(optional[from])]);
      var st1 := DoDefaults(b, a, s, d, rho, vis, h, optional, from + 1, ws, st0, st);
      st' := PushDefault(b, a, s, d, rho, vis, h, optional[from], Missing(optional, from + 1) + ws, st0, st1);
      assert [optional[from]] + (Missing(optional, from + 1) + ws) == Missing(optional, from) + ws;
    }
  }

  lemma PushDefault(b: Builtins, a: Act, s: Scope, d: nat, rho: Rho, vis: set<string>, h: Heap, w: Word,
                    ws: seq<Word>, st0: State, st1: State)
    returns (st2: State)
    requires Reaches(b, st0, st1) && Shape(a, st0) && Pushed(st0, st1, ws, d, a.Entries())
    requires Here(a, s, d, rho, vis, h, st1) && CodeAt(a.g.code, st1.pc, [PushImm(w)])
    ensures Reaches(b, st0, st2) && Pushed(st0, st2, [w] + ws, d, a.Entries()) && st2.pc == st1.pc + 1
    ensures Here(a, s, d, rho, vis, h, st2)
  {
    hide Here, Reaches, Compiled;
    HereShape(a, s, d, rho, vis, h, st1);
    Code1(a.g.code, st1.pc, PushImm(w));
    st2 := DoPushImm(b, st0, st1, w);
    OnTop(a, s, d, rho, vis, h, w, ws, st0, st1, st1, st2);
  }

  lemma ArgsCode(u: Unit, env: Env, s: Scope, ar: Args, args: Sexp, g: Gen) returns (r: Gen, c: Gen)
    requires CompileArgs(u, env, s, ar, args) == Ok(g)
    ensures ar.required <= Length(args) && (ar.variadic || Length(args) <= ar.Total())
    ensures if ar.variadic then CompileConses(u, env, s, args, ar.Total()) == Ok(r) else r == Gen([], s)
    ensures CompilePushes(u, env, r.scope, args, ar.Total()) == Ok(c) && g.scope == c.scope
    ensures g.code == ((if ar.variadic then [PushImm(Nil)] else []) + r.code) + PushDefaults(ar.optional,
        Length(args) - ar.required) + c.code
  {
    hide CompileConses, CompilePushes, PushDefaults;
    r := if ar.variadic then CompileConses(u, env, s, args, ar.Total()).value else Gen([], s);
    c := CompilePushes(u, env, r.scope, args, ar.Total()).value;
  }

  /** What a call evaluates, in order: the rest list, then the other arguments. */
  lemma ArgsMeaning(b: Builtins, u: Unit, fuel: nat, f: Fun, rho: Rho, ar: Args, args: Sexp, h: Heap, ws: seq<Word>,
                    h': Heap)
    returns (rest: Out, given: seq<Word>)
    requires EvalArgs(u, b, fuel, f, rho, ar, args, h) == Some((ws, h')) && Listp(args)
    ensures ar.required <= Length(args) && (ar.variadic || Length(args) <= ar.Total())
    ensures if ar.variadic then EvalConses(u, b, fuel, f, rho, args, ar.Total(), h) == Some(rest)
      else rest == Out(Nil, h)
    ensures EvalPushes(u, b, fuel, f, rho, args, ar.Total(), rest.heap) == Some((given, h'))
    ensures ws == given + (Missing(ar.optional, Length(args) - ar.required) + (if ar.variadic then [rest.value]
      else []))
    ensures |ws| == ar.Real()
  {
    hide EvalConses, EvalPushes, Length, Listp;
    rest := if ar.variadic then EvalConses(u, b, fuel, f, rho, args, ar.Total(), h).value else Out(Nil, h);
    given := EvalPushes(u, b, fuel, f, rho, args, ar.Total(), rest.heap).value.0;
    PushesCount(b, u, fuel, f, rho, args, ar.Total(), rest.heap);
    var missing, last := Missing(ar.optional, Length(args) - ar.required), if ar.variadic then [rest.value] else [];
    assert ws == given + missing + last;
    assert |missing| == if Length(args) < ar.Total() then ar.Total() - Length(args) else 0;
    assert given + missing + last == given + (missing + last);
  }

  lemma {:induction false} PushesCount(b: Builtins, u: Unit, fuel: nat, f: Fun, rho: Rho, args: Sexp, n: nat, h: Heap)
    requires Listp(args) && EvalPushes(u, b, fuel, f, rho, args, n, h).Some?
    ensures |EvalPushes(u, b, fuel, f, rho, args, n, h).value.0| == if Length(args) < n then Length(args) else n
    decreases Size(args)
  {
    hide Eval;
    if args.SCons? && n > 0 { PushesCount(b, u, fuel, f, rho, args.cdr, n - 1, h); }
  }

  /** The arguments of a direct call: exactly one word for each parameter is pushed, the
      first one on top. */
  lemma {:induction false} CorrectArgs(b: Builtins, fuel: nat, a: Act, s: Scope, ar: Args, args: Sexp, g: Gen, d: nat,
                                       rho: Rho, vis: set<string>, h: Heap, ws: seq<Word>, h': Heap, st: State)
    returns (st': State)
    requires CompileArgs(a.u, a.f.env, s, ar, args) == Ok(g)
    requires EvalArgs(a.u, b, fuel, a.f, rho, ar, args, h) == Some((ws, h'))
    requires TidyEach(a.u, args, vis) && d + NeedEach(args) <= a.Entries() && Before(a, s, g, d, rho, vis, h, st)
    requires Listp(args)
    ensures Reaches(b, st, st') && Pushed(st, st', ws, d, a.Entries()) && st'.pc == st.pc + |g.code|
    ensures Here(a, g.scope, d, rho, vis, h', st') && |ws| == ar.Real()
    decreases fuel, 0, Size(args), 3
  {
    hide CompileArgs, CompileConses, CompilePushes, PushDefaults, EvalArgs, EvalConses, EvalPushes, Missing, TidyEach,
         NeedEach, Here, Reaches, Shape, HeapRel, Pushed, Frees, Before, CodeAt;
    BeforeFacts(a, s, g, d, rho, vis, h, st);
    var r, c := ArgsCode(a.u, a.f.env, s, ar, args, g);
    var rest, given := ArgsMeaning(b, a.u, fuel, a.f, rho, ar, args, h, ws, h');
    ArgsParts(a, s, ar, args, r, c, g, d, rho, vis, h, st);
    var k := Length(args) - ar.required;
    var last := if ar.variadic then [rest.value] else [];
    var st1 := CorrectRestList(b, fuel, a, s, ar, args, r, d, rho, vis, h, rest, st);
    var st2 := DoDefaults(b, a, r.scope, d, rho, vis, rest.heap, ar.optional, k, last, st, st1);
    BeforeHolds(a, r.scope, c, d, rho, vis, rest.heap, st2);
    st' := CorrectPushes(b, fuel, a, r.scope, args, ar.Total(), c, d, rho, vis, rest.heap, given, h',
                         Missing(ar.optional, k) + last, st, st2);
  }

  lemma ArgsParts(a: Act, s: Scope, ar: Args, args: Sexp, r: Gen, c: Gen, g: Gen, d: nat, rho: Rho, vis: set<string>,
                  h: Heap, st: State)
    requires ar.required <= Length(args)
    requires if ar.variadic then CompileConses(a.u, a.f.env, s, args, ar.Total()) == Ok(r) else r == Gen([], s)
    requires CompilePushes(a.u, a.f.env, r.scope, args, ar.Total()) == Ok(c) && g.scope == c.scope
    requires g.code == ((if ar.variadic then [PushImm(Nil)] else []) + r.code) + PushDefaults(ar.optional,
        Length(args) - ar.required) + c.code
    requires TidyEach(a.u, args, vis) && d + NeedEach(args) <= a.Entries() && Before(a, s, g, d, rho, vis, h, st)
    ensures var front := if ar.variadic then [PushImm(Nil)] else [];
      var pc1 := st.pc + |front| + |r.code|; var pc2 := pc1 + |PushDefaults(ar.optional, Length(args) - ar.required)|;
      && CodeAt(a.g.code, st.pc, front) && CodeAt(a.g.code, st.pc + |front|, r.code)
      && CodeAt(a.g.code, pc1, PushDefaults(ar.optional, Length(args) - ar.required)) && CodeAt(a.g.code, pc2, c.code)
    ensures Frees(r.scope.vars) <= a.Free() && Frees(c.scope.vars) <= a.Free()
  {
    hide CompileConses, CompilePushes, PushDefaults, TidyEach, NeedEach, Here, Shape, HeapRel, Frees, Before, CodeAt,
         Ready, Sound;
    BeforeFacts(a, s, g, d, rho, vis, h, st);
    HereReady(a, s, d, rho, vis, h, st);
    if ar.variadic {
      SoundConses(a.u, a.f.env, s, args, ar.Total(), vis, d, a.Entries());
    } else {
      SoundSelf(s, [], vis, d, a.Entries());
    }
    SoundReady(s, r, vis, d, a.Entries());
    SoundPushes(a.u, a.f.env, r.scope, args, ar.Total(), vis, d, a.Entries());
    Earlier(a, r.scope, c, vis, d);
    var front := if ar.variadic then [PushImm(Nil)] else [];
    CodeSplit3(a.g.code, st.pc, front + r.code, PushDefaults(ar.optional, Length(args) - ar.required), c.code);
    CodeSplit(a.g.code, st.pc, front, r.code);
  }

  /** A variadic call pushes nil and conses the remaining values onto it. */
  lemma {:induction false} CorrectRestList(b: Builtins, fuel: nat, a: Act, s: Scope, ar: Args, args: Sexp, r: Gen,
                                           d: nat, rho: Rho, vis: set<string>, h: Heap, rest: Out, st: State)
    returns (st1: State)
    requires if ar.variadic then CompileConses(a.u, a.f.env, s, args, ar.Total()) == Ok(r) else r == Gen([], s)
    requires if ar.variadic then EvalConses(a.u, b, fuel, a.f, rho, args, ar.Total(), h) == Some(rest)
      else rest == Out(Nil, h)
    requires TidyEach(a.u, args, vis) && d + NeedEach(args) <= a.Entries() && Here(a, s, d, rho, vis, h, st)
    requires Frees(r.scope.vars) <= a.Free()
    requires var front := if ar.variadic then [PushImm(Nil)] else [];
      CodeAt(a.g.code, st.pc, front) && CodeAt(a.g.code, st.pc + |front|, r.code)
    ensures Reaches(b, st, st1) && Pushed(st, st1, if ar.variadic then [rest.value] else [], d, a.Entries())
    ensures st1.pc == st.pc + (if ar.variadic then 1 else 0) + |r.code| && Here(a, r.scope, d, rho, vis, rest.heap, st1)
    decreases fuel, 0, Size(args), 3, 0
  {
    hide CompileConses, EvalConses, TidyEach, NeedEach, Here, Reaches, Shape, HeapRel, Frees, Before, CodeAt, Compiled;
    HereShape(a, s, d, rho, vis, h, st);
    if ar.variadic {
      var st' := StartList(b, a, s, d, rho, vis, h, st);
      BeforeHolds(a, s, r, d, rho, vis, h, st');
      st1 := CorrectConses(b, fuel, a, s, args, ar.Total(), r, d, rho, vis, h, rest, st, st');
    } else {
      ReachesSelf(b, st);
      st1 := st;
    }
  }

  // ----- functions -----

  /** Running a compiled function on its arguments returns the value of its body, to the
      caller's code, frame and closure data; only argument words may have changed. */
  lemma {:induction false} CorrectFunction(b: Builtins, fuel: nat, a: Act, ws: seq<Word>, h: Heap, out: Out,
                                           st: State) returns (st': State)
    requires Entered(a, ws, h, st) && Call(a.u, b, fuel, a.f, ws, h) == Some(out)
    ensures Reaches(b, st, st') && Left(a, st, st', out)
    decreases fuel, 1, 0, 0
  {
    hide Reaches, Compiled, HeapRel, EdiOk, CompileBody, EvalBody, TidyEach, NeedEach, Setup, Here, Shape, CodeAt,
         Left, Done, Frees, ParamsOf, Bind;
    var (s1, g) := BodyOf(a);
    BodyFacts(a);
    var p := ParamsOf(a.u.defaults, a.f.arglist, NO_PARAMS).value;
    var st1 := Enter(b, a, ws, h, st);
    var rho, vis := a.f.rho + Bind(p.names, ws), a.vis + Names(p.names);
    BodyPlaced(a, g);
    BeforeHolds(a, s1, g, 0, rho, vis, h, st1);
    HereShape(a, s1, 0, rho, vis, h, st1);
    var st2 := CorrectBody(b, fuel, a, s1, a.f.body, true, g, 0, rho, vis, h, out, st1);
    st' := Return(b, a, ws, h, out, st, st1, st2, 3 + |g.code|);
  }

  lemma BodyPlaced(a: Act, g: Gen)
    requires a.g.code == Setup(a.Entries()) + g.code + CLEANUP
    ensures CodeAt(a.g.code, 3, g.code) && CodeAt(a.g.code, 3 + |g.code|, CLEANUP)
  {
    assert CodeAt(a.g.code, 0, Setup(a.Entries()) + g.code + CLEANUP);
    CodeSplit3(a.g.code, 0, Setup(a.Entries()), g.code, CLEANUP);
  }

  /** From the end of the body, or from the return of a tail self-call. */
  lemma Return(b: Builtins, a: Act, ws: seq<Word>, h: Heap, out: Out, st: State, st1: State, st2: State, pc: nat)
    returns (st': State)
    requires Entered(a, ws, h, st) && Shape(a, st1) && Reaches(b, st, st1) && Reaches(b, st1, st2)
    requires st1.ebp == |st.stack| + 1 && st1.stack == st.stack + [Frame(st.ebp)] + seq(a.Entries(), _ => Junk)
    requires st1 == st.(pc := 3, ebp := st1.ebp, stack := st1.stack)
    requires Done(a, st1, st2, true, pc, out, 0) && CodeAt(a.g.code, pc, CLEANUP)
    ensures Reaches(b, st, st') && Left(a, st, st', out)
  {
    hide Compiled, EdiOk, HeapRel, Reaches, CodeAt;
    DoneFacts(a, st1, st2, true, pc, out, 0);
    ReachesTrans(b, st, st1, st2);
    assert st1.stack[|st.stack|] == Frame(st.ebp);
    assert forall j :: 0 <= j < |st.stack| ==> st1.stack[j] == st.stack[j];
    if Normal(a, st1, st2, pc, out, 0) {
      st' := Leave(b, st, a, st2);
    } else {
      st' := st2;
    }
    HeapRelSame(a.u, out.heap, st2, st');
  }

  lemma HeapRelSame(u: Unit, h: Heap, st: State, st': State)
    requires HeapRel(u, h, st) && st'.cells == st.cells && st'.clos == st.clos
    ensures HeapRel(u, h, st')
  {
  }

  /** A function that stands in no other scope captures nothing. */
  lemma TopLevelClosed(a: Act)
    requires Compiled(a) && a.parent.None?
    ensures a.Free() == []
  {
    Compilation(a);
    SoundFunction(a.u, a.f.env, a.f.arglist, a.f.body, a.f.name, a.parent, a.vis);
    if |a.Free()| > 0 { FirstIn(a.Free()); }
  }

  lemma FirstIn(names: seq<string>)
    requires |names| > 0
    ensures exists x :: x in names
  {
    assert names[0] in names;
  }

  // ----- calls -----

  /** The words of a call were pushed; nothing else the caller relies on changed. */
  ghost predicate ArgsPushed(b: Builtins, a: Act, ws: seq<Word>, h: Heap, d: nat, st: State, st1: State) {
    Reaches(b, st, st1) && Shape(a, st) && Pushed(st, st1, ws, d, a.Entries()) && HeapRel(a.u, h, st1)
  }

  /** add esp after the callee's return. */
  lemma CallDone(b: Builtins, a: Act, a': Act, ws: seq<Word>, h: Heap, d: nat, out: Out, st: State, st1: State,
                 st2: State, st3: State) returns (st': State)
    requires ArgsPushed(b, a, ws, h, d, st, st1) && a'.u == a.u && |ws| == a'.Real()
    requires st2 == st1.(code := st2.code, pc := 0, stack := st1.stack + [RetAddr(st1.code, st1.pc + 1)])
    requires Reaches(b, st, st3) && Left(a', st2, st3, out)
    requires st1.pc + 1 < |a.g.code| && a.g.code[st1.pc + 1] == AddEsp(|ws|)
    ensures Reaches(b, st, st') && Normal(a, st, st', st1.pc + 2, out, d)
  {
    hide HeapRel, Reaches;
    st' := DoAddEsp(b, st, st3, |ws|);
    assert forall j :: 0 <= j < |st1.stack| ==> st2.stack[j] == st1.stack[j];
    HeapRelSame(a.u, out.heap, st3, st');
  }

  lemma EnteredBy(a: Act, ws: seq<Word>, h: Heap, st1: State, st2: State, code: seq<Instr>, pc: nat)
    requires Compiled(a) && HeapRel(a.u, h, st1) && EdiOk(a, st1) && a.Real() <= |ws| <= |st1.stack|
    requires forall j :: |st1.stack| - |ws| <= j < |st1.stack| ==> st1.stack[j] == ws[|st1.stack| - 1 - j]
    requires st2 == st1.(code := a.g.code, pc := 0, stack := st1.stack + [RetAddr(code, pc)])
    ensures Entered(a, ws, h, st2)
  {
    hide Compiled, HeapRel;
    HeapRelSame(a.u, h, st1, st2);
  }

  /** (f args...) for a Lisp function of the environment. */
  lemma {:induction false} LispCall(b: Builtins, fuel: nat, a: Act, f: Env, ws: seq<Word>, h: Heap, out: Out, d: nat,
                                    st: State, st1: State) returns (st': State)
    requires EnvOk(a.u, f) && f.Function? && f.def.Lisp? && |ws| == f.args.Real()
    requires Call(a.u, b, fuel, Fun(f.prev, f.name, f.def.arglist, f.def.body, map[]), ws, h) == Some(out)
    requires ArgsPushed(b, a, ws, h, d, st, st1)
    requires st1.pc + 1 < |a.g.code| && a.g.code[st1.pc] == CallCode(f.def.code) && a.g.code[st1.pc + 1] == AddEsp(|ws|)
    ensures Reaches(b, st, st') && Normal(a, st, st', st1.pc + 2, out, d)
    decreases fuel, 1, 1, 0
  {
    hide Compiled, HeapRel, Reaches, Call, Left, CompileFunction, Frees, Normal;
    var a' := FunctionAct(a.u, f);
    TopLevelClosed(a');
    var st2 := DoCallCode(b, st, st1, f.def.code);
    EnteredBy(a', ws, h, st1, st2, st1.code, st1.pc + 1);
    var st3 := CorrectFunction(b, fuel, a', ws, h, out, st2);
    ReachesTrans(b, st, st2, st3);
    st' := CallDone(b, a, a', ws, h, d, out, st, st1, st2, st3);
  }

  /** A self-call that is not in tail position. */
  lemma {:induction false} EntryCall(b: Builtins, fuel: nat, a: Act, ws: seq<Word>, h: Heap, out: Out, d: nat,
                                     st: State, st1: State) returns (st': State)
    requires Compiled(a) && EdiOk(a, st1) && |ws| == a.Real() && Call(a.u, b, fuel, a.f, ws, h) == Some(out)
    requires ArgsPushed(b, a, ws, h, d, st, st1)
    requires st1.pc + 1 < |a.g.code| && a.g.code[st1.pc] == CallEntry && a.g.code[st1.pc + 1] == AddEsp(|ws|)
    ensures Reaches(b, st, st') && Normal(a, st, st', st1.pc + 2, out, d)
    decreases fuel, 1, 1, 0
  {
    hide Compiled, HeapRel, Reaches, Call, Left, EdiOk, Frees, Normal;
    var st2 := DoCallEntry(b, st, st1);
    EnteredBy(a, ws, h, st1, st2, st1.code, st1.pc + 1);
    var st3 := CorrectFunction(b, fuel, a, ws, h, out, st2);
    ReachesTrans(b, st, st2, st3);
    st' := CallDone(b, a, a, ws, h, d, out, st, st1, st2, st3);
  }

  lemma BuiltinCall(b: Builtins, a: Act, name: string, ws: seq<Word>, h: Heap, w: Word, cells: seq<Cell>, d: nat,
                    st: State, st1: State) returns (st': State)
    requires b(name, ws, h.cells) == Some((w, cells)) && ArgsPushed(b, a, ws, h, d, st, st1)
    requires st1.pc + 1 < |a.g.code| && a.g.code[st1.pc] == CallBuiltin(name, |ws|)
    requires a.g.code[st1.pc + 1] == AddEsp(|ws|)
    ensures Reaches(b, st, st') && Normal(a, st, st', st1.pc + 2, Out(w, h.(cells := cells)), d)
  {
    hide Reaches;
    var n := |st1.stack| - |ws|;
    assert Reversed(st1.stack[n..]) == ws;
    var st2 := DoBuiltin(b, st, st1, name, |ws|, w, cells);
    st' := DoAddEsp(b, st, st2, |ws|);
  }

  // ----- tail self-calls -----

  /** After `k` of the words `ws` pushed in `st1` were moved into the caller's area. */
  ghost predicate Moving(a: Act, ws: seq<Word>, k: nat, st1: State, st: State) {
    && k <= |ws| == a.Real() && 2 + a.Real() <= st1.ebp && st1.ebp + |ws| <= |st1.stack|
    && st == st1.(pc := st.pc, eax := st.eax, stack := st.stack) && |st.stack| == |st1.stack| - k
    && (forall j :: 0 <= j < k ==> st.stack[st1.ebp - 3 - j] == ws[j])
    && (forall j :: 0 <= j < st1.ebp - 2 - |ws| ==> st.stack[j] == st1.stack[j])
    && (forall j :: st1.ebp - 2 <= j < |st.stack| ==> st.stack[j] == st1.stack[j])
  }

  lemma {:induction false} DoMoveArgs(b: Builtins, a: Act, ws: seq<Word>, k: nat, s0: State, st1: State, st: State)
    returns (st': State)
    requires Reaches(b, s0, st) && Moving(a, ws, k, st1, st) && CodeAt(st.code, st.pc, MoveArgs(k, |ws| - k))
    requires forall j :: 0 <= j < |ws| ==> st1.stack[|st1.stack| - 1 - j] == ws[j]
    ensures Reaches(b, s0, st') && Moving(a, ws, |ws|, st1, st') && st'.pc == st.pc + |MoveArgs(k, |ws| - k)|
    decreases |ws| - k
  {
    hide Reaches;
    if k == |ws| {
      st' := st;
    } else {
      CodeSplit(st.code, st.pc, [PopEax, MovMemEax(k + 2)], MoveArgs(k + 1, |ws| - k - 1));
      Code2(st.code, st.pc, PopEax, MovMemEax(k + 2));
      var st2 := MoveOne(b, a, ws, k, s0, st1, st);
      st' := DoMoveArgs(b, a, ws, k + 1, s0, st1, st2);
    }
  }

  lemma MoveOne(b: Builtins, a: Act, ws: seq<Word>, k: nat, s0: State, st1: State, st: State) returns (st2: State)
    requires Reaches(b, s0, st) && Moving(a, ws, k, st1, st) && k < |ws|
    requires st.pc + 1 < |st.code| && st.code[st.pc] == PopEax && st.code[st.pc + 1] == MovMemEax(k + 2)
    requires forall j :: 0 <= j < |ws| ==> st1.stack[|st1.stack| - 1 - j] == ws[j]
    ensures Reaches(b, s0, st2) && Moving(a, ws, k + 1, st1, st2) && st2.pc == st.pc + 2 && st2.code == st.code
  {
    hide Reaches;
    assert st.stack[|st.stack| - 1] == st1.stack[|st1.stack| - 1 - k] == ws[k];
    var st' := DoPop(b, s0, st);
    st2 := DoStore(b, s0, st', k + 2);
  }

  /** The tail-call sequence leads back to the function's entry as if its caller had
      called it again with the new arguments: same return address, same caller frame,
      and not one word of stack more. */
  lemma TailCall(b: Builtins, a: Act, ws: seq<Word>, h: Heap, d: nat, st: State, st1: State) returns (st': State)
    requires Compiled(a) && EdiOk(a, st1) && |ws| == a.Real() && ArgsPushed(b, a, ws, h, d, st, st1)
    requires CodeAt(a.g.code, st1.pc, MoveArgs(0, |ws|) + BACK_TO_ENTRY)
    ensures Reaches(b, st, st') && Entered(a, ws, h, st')
    ensures |st'.stack| == st.ebp - 1 && st'.stack[st.ebp - 2] == st.stack[st.ebp - 2]
    ensures Frame(st'.ebp) == st.stack[st.ebp - 1]
    ensures forall j :: 0 <= j < st.ebp - 2 - a.Real() ==> st'.stack[j] == st.stack[j]
    ensures st' == st1.(pc := 0, eax := st'.eax, ebp := st'.ebp, stack := st'.stack)
  {
    hide Reaches, HeapRel, Compiled, EdiOk, CodeAt, MoveArgs, Frees, Moving, Pushed, Entered;
    CodeSplit(a.g.code, st1.pc, MoveArgs(0, |ws|), BACK_TO_ENTRY);
    StartMoving(a, ws, d, st, st1);
    PushedSame(st, st1, ws, d, a.Entries());
    var st2 := DoMoveArgs(b, a, ws, 0, st, st1, st1);
    Rewound(a, ws, d, st, st1, st2);
    Code3(a.g.code, st2.pc, MovEspEbp, PopEbp, JmpEntry);
    CodeFits(a.g.code, st2.pc, BACK_TO_ENTRY);
    st' := BackToEntry(b, a, st, st2);
    TailEntered(a, ws, h, st, st1, st2, st');
  }

  lemma PushedSame(st: State, st1: State, ws: seq<Word>, d: nat, n: nat)
    requires Pushed(st, st1, ws, d, n)
    ensures st1.code == st.code && st1.ebp == st.ebp && st1.edi == st.edi
  {
  }

  /** With the arguments in place and the frame gone, the function is entered anew. */
  lemma TailEntered(a: Act, ws: seq<Word>, h: Heap, st: State, st1: State, st2: State, st': State)
    requires Compiled(a) && HeapRel(a.u, h, st1) && EdiOk(a, st1) && Shape(a, st) && |ws| == a.Real()
    requires st1.code == a.g.code
    requires st2 == st1.(pc := st2.pc, eax := st2.eax, stack := st2.stack) && 2 + |ws| <= st.ebp <= |st2.stack|
    requires st2.stack[st.ebp - 2] == st.stack[st.ebp - 2]
    requires forall j :: st.ebp - 2 - |ws| <= j < st.ebp - 2 ==> st2.stack[j] == ws[st.ebp - 3 - j]
    requires st' == st2.(pc := 0, ebp := st'.ebp, stack := st2.stack[..st.ebp - 1])
    ensures Entered(a, ws, h, st')
  {
    hide Compiled, HeapRel, EdiOk;
    HeapRelSame(a.u, h, st1, st');
    EdiSame(a, st1, st');
  }

  lemma StartMoving(a: Act, ws: seq<Word>, d: nat, st: State, st1: State)
    requires Shape(a, st) && Pushed(st, st1, ws, d, a.Entries()) && |ws| == a.Real()
    ensures Moving(a, ws, 0, st1, st1) && forall j :: 0 <= j < |ws| ==> st1.stack[|st1.stack| - 1 - j] == ws[j]
  {
  }

  /** The frame when all arguments are in place, up to the return address. */
  lemma Rewound(a: Act, ws: seq<Word>, d: nat, st: State, st1: State, st2: State)
    requires Shape(a, st) && Pushed(st, st1, ws, d, a.Entries()) && Moving(a, ws, |ws|, st1, st2)
    ensures st2 == st1.(pc := st2.pc, eax := st2.eax, stack := st2.stack)
    ensures 2 + |ws| <= st2.ebp == st.ebp <= |st2.stack|
    ensures st2.stack[st.ebp - 1] == st.stack[st.ebp - 1] && st2.stack[st.ebp - 2] == st.stack[st.ebp - 2]
    ensures forall j :: 0 <= j < st.ebp - 2 - |ws| ==> st2.stack[j] == st.stack[j]
    ensures forall j :: st.ebp - 2 - |ws| <= j < st.ebp - 2 ==> st2.stack[j] == ws[st.ebp - 3 - j]
  {
    forall j | st.ebp - 2 - |ws| <= j < st.ebp - 2 ensures st2.stack[j] == ws[st.ebp - 3 - j] {
      assert st2.stack[st1.ebp - 3 - (st.ebp - 3 - j)] == ws[st.ebp - 3 - j];
    }
  }

  /** mov esp, ebp; pop ebp; jmp to the entry. */
  lemma BackToEntry(b: Builtins, a: Act, s0: State, st: State) returns (st': State)
    requires Reaches(b, s0, st) && 2 <= st.ebp <= |st.stack| && st.stack[st.ebp - 1].Frame?
    requires st.pc + 2 < |st.code| && st.code[st.pc] == MovEspEbp && st.code[st.pc + 1] == PopEbp
    requires st.code[st.pc + 2] == JmpEntry
    ensures Reaches(b, s0, st') && st' == st.(pc := 0, ebp := st.stack[st.ebp - 1].ebp, stack := st.stack[..st.ebp - 1])
  {
    hide Reaches;
    var st3 := DoMovEspEbp(b, s0, st);
    var st4 := DoPopEbp(b, s0, st3);
    st' := DoJmpEntry(b, s0, st4);
    assert st'.stack == st.stack[..st.ebp - 1];
  }

  lemma EdiSame(a: Act, st: State, st': State)
    requires EdiOk(a, st) && st'.edi == st.edi && st'.clos == st.clos
    ensures EdiOk(a, st')
  {
  }

  lemma {:induction false} TailSelfCall(b: Builtins, fuel: nat, a: Act, ws: seq<Word>, h: Heap, out: Out, d: nat,
                                        st: State, st1: State) returns (st': State)
    requires Compiled(a) && EdiOk(a, st1) && |ws| == a.Real() && Call(a.u, b, fuel, a.f, ws, h) == Some(out)
    requires ArgsPushed(b, a, ws, h, d, st, st1) && CodeAt(a.g.code, st1.pc, MoveArgs(0, |ws|) + BACK_TO_ENTRY)
    ensures Reaches(b, st, st') && Returned(a, st, st', out)
    decreases fuel, 1, 1, 0
  {
    hide Compiled, Reaches, Call, EdiOk, HeapRel, CodeAt;
    var st2 := TailCall(b, a, ws, h, d, st, st1);
    st' := CorrectFunction(b, fuel, a, ws, h, out, st2);
    ReachesTrans(b, st, st2, st');
  }

  // ----- apply -----

  /** What _call_list does around the applied function. */
  lemma {:induction false} ApplyCall(b: Builtins, fuel: nat, a: Act, func: Word, list: Word, h: Heap, out: Out,
                                     d: nat, st: State, st1: State) returns (st': State)
    requires EvalApply(a.u, b, fuel, func, list, h) == Some(out) && ArgsPushed(b, a, [func, list], h, d, st, st1)
    requires st1.pc + 1 < |a.g.code| && a.g.code[st1.pc] == CallApply && a.g.code[st1.pc + 1] == AddEsp(2)
    ensures Reaches(b, st, st') && Normal(a, st, st', st1.pc + 2, out, d)
    decreases fuel, 2, 1, 0
  {
    hide Reaches, HeapRel, CallListArgs, Walk, ProperList, Call, ParamsOf, ElementsOf;
    assert st1.stack[|st1.stack| - 1] == [func, list][0] && st1.stack[|st1.stack| - 2] == [func, list][1];
    CellsAgree(a.u, h, st1);
    if !func.Clo? || !ProperList(h.cells, list) {
      var st2 := DoApply(b, st, st1);
      st' := DoAddEsp(b, st, st2, 2);
      HeapRelSame(a.u, h, st1, st');
    } else {
      var st2 := ApplyClosure(b, fuel, a, func, list, h, out, st1);
      ReachesTrans(b, st, st1, st2);
      st' := DoAddEsp(b, st, st2, 2);
      HeapRelSame(a.u, out.heap, st2, st');
    }
  }

  lemma CellsAgree(u: Unit, h: Heap, st: State)
    requires HeapRel(u, h, st)
    ensures st.cells == h.cells && |st.clos| == |h.clos|
  {
  }

  ghost predicate Applied(a: Act, st1: State, st2: State, out: Out) {
    && st2.code == st1.code && st2.pc == st1.pc + 1 && st2.ebp == st1.ebp && st2.edi == st1.edi
      && st2.stack == st1.stack
    && st1.clos <= st2.clos && st2.eax == out.value && HeapRel(a.u, out.heap, st2)
  }

  /** Applying a closure runs its body in the environment of its creation, with the
      parameters bound to the elements of the list. */
  lemma {:induction false} ApplyClosure(b: Builtins, fuel: nat, a: Act, func: Word, list: Word, h: Heap, out: Out,
                                        st1: State) returns (st2: State)
    requires EvalApply(a.u, b, fuel, func, list, h) == Some(out) && func.Clo? && ProperList(h.cells, list)
    requires HeapRel(a.u, h, st1) && |st1.stack| >= 2 && st1.pc < |st1.code| && st1.code[st1.pc] == CallApply
    requires st1.stack[|st1.stack| - 1] == func && st1.stack[|st1.stack| - 2] == list
    ensures Reaches(b, st1, st2) && Applied(a, st1, st2, out)
    decreases fuel, 2, 0, 0
  {
    hide Reaches, CallListArgs, Walk, ProperList, Call, ElementsOf, Data, Compiled, EnvOk, Left, HeapRel, ParamsOf,
         Entered;
    CellsAgree(a.u, h, st1);
    var c := h.clos[func.k];
    var a' := ClosureAct(a.u, h, st1, func.k);
    var p := ParamsOf(a.u.defaults, c.arglist, NO_PARAMS).value;
    ActParams(a');
    var (list', m) := CallListArgs(MemoryOf(h), p.args, list).value;
    ArgsRelated(a.u, p.args, list, h, st1);
    var ws, h' := ElementsOf(m.cells, list'), Heap(m.cells, CopiesAdded(h.clos, m.kids));
    ReachesSelf(b, st1);
    LaidOutWhole(ws, seq(|ws|, _ => Junk));
    var s2 := DoApply(b, st1, st1);
    CallAccepts(a.u, b, fuel, a'.f, ws, h', out);
    EnteredApplied(a', func, ws, h', st1, s2);
    var s3 := CorrectFunction(b, fuel, a', ws, h', out, s2);
    ReachesTrans(b, st1, s2, s3);
    st2 := LeaveApply(b, a', func, ws, out, st1, s2, s3);
  }

  ghost function AppliedStack(st1: State, ws: seq<Word>): seq<Word> {
    st1.stack + [RetAddr(st1.code, st1.pc + 1), Junk, st1.edi,
                 Frame(st1.ebp)] + Reversed(ws) + [RetAddr(CALL_LIST_EXIT, 0)]
  }

  lemma EnteredApplied(a': Act, func: Word, ws: seq<Word>, h': Heap, st1: State, s2: State)
    requires Compiled(a') && func.Clo? && func.k < |st1.clos| && Data(a'.f.rho, a'.Free(), st1.clos[func.k].data)
    requires a'.Real() <= |ws| && st1.clos <= s2.clos && HeapRel(a'.u, h', st1.(cells := s2.cells, clos := s2.clos))
    requires s2 == st1.(code := a'.g.code, pc := 0, edi := func, cells := s2.cells, clos := s2.clos,
                        ebp := |st1.stack| + 4,
                        stack := AppliedStack(st1, ws))
    ensures Entered(a', ws, h', s2)
  {
    hide Compiled, Data, Frees;
    var n := |s2.stack|;
    forall j | n - 1 - |ws| <= j < n - 1 ensures s2.stack[j] == ws[n - 2 - j] {
      assert s2.stack[j] == Reversed(ws)[j - (|st1.stack| + 4)];
    }
  }

  lemma CallAccepts(u: Unit, b: Builtins, fuel: nat, f: Fun, ws: seq<Word>, h: Heap, out: Out)
    requires Call(u, b, fuel, f, ws, h) == Some(out)
    ensures ParamsOf(u.defaults, f.arglist, NO_PARAMS).Some?
    ensures |ParamsOf(u.defaults, f.arglist, NO_PARAMS).value.names| <= |ws|
  {
    hide EvalBody;
  }

  lemma ActParams(a: Act)
    requires Compiled(a)
    ensures ParamsOf(a.u.defaults, a.f.arglist, NO_PARAMS).Some?
    ensures var p := ParamsOf(a.u.defaults, a.f.arglist, NO_PARAMS).value;
      p.args == a.g.scope.args && |p.names| == a.Real()
  {
    hide Compiled, CompileBody, NeedEach, TidyEach, Ready, Prepare, ParamsOf;
    BodyFacts(a);
  }

  lemma ClosureAct(u: Unit, h: Heap, st: State, k: nat) returns (a: Act)
    requires HeapRel(u, h, st) && k < |h.clos|
    ensures var c := h.clos[k];
      && |st.clos| == |h.clos| && a.u == u && a.f == Fun(c.env, "recurse", c.arglist, c.body, c.rho) && Compiled(a)
      && st.clos[k].code == a.g.code && st.clos[k].args == a.g.scope.args && Data(a.f.rho, a.Free(), st.clos[k].data)
  {
    hide Compiled, Data;
    assert ClosureRel(u, h.clos[k], st.clos[k]);
    a :| ClosureVia(a, u, h.clos[k], st.clos[k]);
  }

  lemma AppliedAt(st1: State, ws: seq<Word>)
    ensures var (s, n) := (AppliedStack(st1, ws), |st1.stack|);
      && |s| == n + 4 + |ws| + 1 && s[n] == RetAddr(st1.code, st1.pc + 1) && s[n + 2] == st1.edi
        && s[n + 3] == Frame(st1.ebp)
      && (forall j :: 0 <= j < n ==> s[j] == st1.stack[j]) && s[n + 4 + |ws|] == RetAddr(CALL_LIST_EXIT, 0)
  {
  }

  /** mov esp, ebp; pop ebp; pop edi; pop esi; ret. */
  lemma LeaveApply(b: Builtins, a': Act, func: Word, ws: seq<Word>, out: Out, st1: State, s2: State, s3: State)
    returns (st2: State)
    requires a'.Real() <= |ws| && s2.stack == AppliedStack(st1, ws) && s2.ebp == |st1.stack| + 4 && st1.clos <= s2.clos
    requires |s2.stack| > 0 && s2.stack[|s2.stack| - 1].RetAddr?
    requires Reaches(b, st1, s3) && Left(a', s2, s3, out)
    ensures Reaches(b, st1, st2) && Applied(a', st1, st2, out)
  {
    hide Reaches, HeapRel, AppliedStack;
    AppliedAt(st1, ws);
    var n := |st1.stack|;
    var s4 := LeaveFrame(b, st1, s3, st1.stack, st1.ebp, st1.edi, RetAddr(st1.code, st1.pc + 1));
    st2 := s4;
    HeapRelSame(a'.u, out.heap, s3, st2);
  }

  /** The end of _call_list, with its saved registers where it put them. */
  lemma LeaveFrame(b: Builtins, s0: State, s: State, stack: seq<Word>, ebp: nat, edi: Word, ret: Word)
    returns (s': State)
    requires Reaches(b, s0, s) && s.code == CALL_LIST_EXIT && s.pc == 0 && s.ebp == |stack| + 4 <= |s.stack|
    requires ret.RetAddr?
    requires forall j :: 0 <= j < |stack| ==> s.stack[j] == stack[j]
    requires s.stack[|stack|] == ret && s.stack[|stack| + 2] == edi && s.stack[|stack| + 3] == Frame(ebp)
    ensures Reaches(b, s0, s') && s' == s.(code := ret.code, pc := ret.pc, stack := stack, ebp := ebp, edi := edi)
  {
    hide Reaches;
    var n := |stack|;
    LeftStack(s.stack, stack, ret);
    var s4 := DoMovEspEbp(b, s0, s);
    assert s4.stack[n + 3] == Frame(ebp);
    var s5 := DoPopEbp(b, s0, s4);
    assert s5.stack == s.stack[..n + 3] && s5.stack[n + 2] == edi;
    var s6 := DoPopEdi(b, s0, s5);
    assert s6.stack == s.stack[..n + 2];
    var s7 := DoPopEsi(b, s0, s6);
    assert s7.stack == s.stack[..n + 1];
    s' := DoRet(b, s0, s7, ret.code, ret.pc);
    assert s'.stack == s.stack[..n];
  }

  lemma LeftStack(full: seq<Word>, stack: seq<Word>, ret: Word)
    requires |stack| < |full| && full[|stack|] == ret && forall j :: 0 <= j < |stack| ==> full[j] == stack[j]
    ensures full[..|stack|] == stack && full[..|stack| + 1][|stack|] == ret
  {
  }

  // ----- call forms -----

  lemma {:induction false} CorrectCall(b: Builtins, fuel: nat, a: Act, s: Scope, name: string, args: Sexp, tail: bool,
                                       g: Gen, d: nat, rho: Rho, vis: set<string>, h: Heap, out: Out, st: State)
    returns (st': State)
    requires CompileCall(a.u, a.f.env, s, name, args, tail) == Ok(g)
    requires EvalCall(a.u, b, fuel, a.f, rho, name, args, h) == Some(out)
    requires TidyEach(a.u, args, vis) && d + NeedEach(args) <= a.Entries() && Before(a, s, g, d, rho, vis, h, st)
    requires Listp(args)
    ensures Reaches(b, st, st') && Done(a, st, st', tail, st.pc + |g.code|, out, d)
    decreases fuel, 0, Size(args), 4
  {
    hide CompileCall, EvalCall, TidyEach, NeedEach, Reaches, Shape, HeapRel, Frees, Compiled, CodeAt, Done, Before,
         Located, Ready, EdiOk;
    BeforeFacts(a, s, g, d, rho, vis, h, st);
    HereFacts(a, s, d, rho, vis, h, st);
    if s.fname == name {
      st' := CorrectSelf(b, fuel, a, s, name, args, tail, g, d, rho, vis, h, out, st);
    } else {
      st' := CorrectNamed(b, fuel, a, s, name, args, tail, g, d, rho, vis, h, out, st);
      NormalDone(a, st, st', tail, st.pc + |g.code|, out, d);
    }
  }

  lemma SelfCode(u: Unit, env: Env, s: Scope, name: string, args: Sexp, tail: bool, g: Gen) returns (c: Gen)
    requires CompileCall(u, env, s, name, args, tail) == Ok(g) && s.fname == name
    ensures CompileArgs(u, env, s, s.args, args) == Ok(c)
    ensures var n := s.args.Real();
      g == Gen(c.code + (if tail then MoveArgs(0, n) + BACK_TO_ENTRY else [CallEntry]) + [AddEsp(n)], c.scope)
  {
    hide CompileArgs, MoveArgs;
    c := CompileArgs(u, env, s, s.args, args).value;
  }

  lemma SelfMeaning(b: Builtins, u: Unit, fuel: nat, f: Fun, rho: Rho, name: string, args: Sexp, h: Heap, out: Out)
    returns (ws: seq<Word>, h1: Heap)
    requires EvalCall(u, b, fuel, f, rho, name, args, h) == Some(out) && f.name == name
    ensures ParamsOf(u.defaults, f.arglist, NO_PARAMS).Some? && fuel > 0
    ensures EvalArgs(u, b, fuel, f, rho, ParamsOf(u.defaults, f.arglist, NO_PARAMS).value.args, args, h) ==
      Some((ws, h1))
    ensures Call(u, b, fuel - 1, f, ws, h1) == Some(out)
  {
    hide EvalArgs, Call, ParamsOf;
    var p := ParamsOf(u.defaults, f.arglist, NO_PARAMS).value;
    ws := EvalArgs(u, b, fuel, f, rho, p.args, args, h).value.0;
    h1 := EvalArgs(u, b, fuel, f, rho, p.args, args, h).value.1;
  }

  lemma {:induction false} CorrectSelf(b: Builtins, fuel: nat, a: Act, s: Scope, name: string, args: Sexp, tail: bool,
                                       g: Gen, d: nat, rho: Rho, vis: set<string>, h: Heap, out: Out, st: State)
    returns (st': State)
    requires CompileCall(a.u, a.f.env, s, name, args, tail) == Ok(g)
    requires EvalCall(a.u, b, fuel, a.f, rho, name, args, h) == Some(out)
    requires s.fname == name == a.f.name && s.args == a.g.scope.args
    requires TidyEach(a.u, args, vis) && d + NeedEach(args) <= a.Entries() && Before(a, s, g, d, rho, vis, h, st)
    requires Listp(args) && Shape(a, st)
    ensures Reaches(b, st, st') && Done(a, st, st', tail, st.pc + |g.code|, out, d)
    decreases fuel, 0, Size(args), 4, 0
  {
    hide CompileCall, EvalCall, CompileArgs, EvalArgs, Call, ParamsOf, TidyEach, NeedEach, Reaches, Shape, HeapRel,
         Frees, Compiled, CodeAt, Before, Here, EdiOk, Pushed, Normal, Returned, MoveArgs;
    BeforeFacts(a, s, g, d, rho, vis, h, st);
    var c := SelfCode(a.u, a.f.env, s, name, args, tail, g);
    var ws, h1 := SelfMeaning(b, a.u, fuel, a.f, rho, name, args, h, out);
    ActParams(a);
    var n := s.args.Real();
    CodeSplit3(a.g.code, st.pc, c.code, if tail then MoveArgs(0, n) + BACK_TO_ENTRY else [CallEntry], [AddEsp(n)]);
    BeforeHolds(a, s, c, d, rho, vis, h, st);
    var st1 := CorrectArgs(b, fuel, a, s, s.args, args, c, d, rho, vis, h, ws, h1, st);
    HereEdi(a, c.scope, d, rho, vis, h1, st1);
    if tail {
      st' := TailSelfCall(b, fuel - 1, a, ws, h1, out, d, st, st1);
      assert Finished(a, st, st', tail, st.pc + |g.code|, out, d);
    } else {
      CodePair(a.g.code, st1.pc, CallEntry, AddEsp(n));
      st' := EntryCall(b, fuel - 1, a, ws, h1, out, d, st, st1);
      NormalDone(a, st, st', tail, st.pc + |g.code|, out, d);
    }
  }

  lemma CodePair(code: seq<Instr>, pc: nat, i: Instr, j: Instr)
    requires CodeAt(code, pc, [i]) && CodeAt(code, pc + 1, [j])
    ensures pc + 1 < |code| && code[pc] == i && code[pc + 1] == j
  {
    Code1(code, pc, i);
    Code1(code, pc + 1, j);
  }

  lemma HereEdi(a: Act, s: Scope, d: nat, rho: Rho, vis: set<string>, h: Heap, st: State)
    requires Here(a, s, d, rho, vis, h, st)
    ensures Compiled(a) && HeapRel(a.u, h, st) && EdiOk(a, st)
  {
    HereFacts(a, s, d, rho, vis, h, st);
  }

  lemma NamedCode(u: Unit, env: Env, s: Scope, name: string, args: Sexp, tail: bool, g: Gen) returns (c: Gen)
    requires CompileCall(u, env, s, name, args, tail) == Ok(g) && s.fname != name
    ensures FindFunction(env, name).Function?
    ensures var f := FindFunction(env, name);
      CompileArgs(u, env, s, f.args, args) == Ok(c) && g == Gen(c.code + [CallTo(f), AddEsp(f.args.Real())], c.scope)
  {
    hide CompileArgs;
    c := CompileArgs(u, env, s, FindFunction(env, name).args, args).value;
  }

  lemma NamedMeaning(b: Builtins, u: Unit, fuel: nat, f: Fun, rho: Rho, name: string, args: Sexp, h: Heap, out: Out)
    returns (ws: seq<Word>, h1: Heap)
    requires EvalCall(u, b, fuel, f, rho, name, args, h) == Some(out) && f.name != name
    requires FindFunction(f.env, name).Function?
    ensures var g := FindFunction(f.env, name);
      && EvalArgs(u, b, fuel, f, rho, g.args, args, h) == Some((ws, h1))
      && match g.def {
           case Lisp(arglist, body, _) =>
             fuel > 0 && Call(u, b, fuel - 1, Fun(g.prev, g.name, arglist, body, map[]), ws, h1) == Some(out)
           case Builtin => b(g.name, ws, h1.cells) == Some((out.value, out.heap.cells))
             && out.heap == h1.(cells := out.heap.cells)
           case Apply => fuel > 0 && |ws| == 2 && EvalApply(u, b, fuel - 1, ws[0], ws[1], h1) == Some(out)
         }
  {
    hide EvalArgs, Call, EvalApply;
    var g := FindFunction(f.env, name);
    ws := EvalArgs(u, b, fuel, f, rho, g.args, args, h).value.0;
    h1 := EvalArgs(u, b, fuel, f, rho, g.args, args, h).value.1;
  }

  lemma {:induction false} EnvFound(u: Unit, env: Env, name: string)
    requires EnvOk(u, env)
    ensures EnvOk(u, FindFunction(env, name))
    decreases env
  {
    hide Compiled, FunctionAct;
    if env.Function? && env.name != name { EnvFound(u, env.prev, name); }
  }

  lemma {:induction false} CorrectNamed(b: Builtins, fuel: nat, a: Act, s: Scope, name: string, args: Sexp,
                                        tail: bool, g: Gen, d: nat, rho: Rho, vis: set<string>, h: Heap, out: Out,
                                        st: State)
    returns (st': State)
    requires CompileCall(a.u, a.f.env, s, name, args, tail) == Ok(g)
    requires EvalCall(a.u, b, fuel, a.f, rho, name, args, h) == Some(out)
    requires s.fname != name && s.fname == a.f.name
    requires TidyEach(a.u, args, vis) && d + NeedEach(args) <= a.Entries() && Before(a, s, g, d, rho, vis, h, st)
    requires Listp(args) && Shape(a, st)
    ensures Reaches(b, st, st') && Normal(a, st, st', st.pc + |g.code|, out, d)
    decreases fuel, 0, Size(args), 4, 0
  {
    hide CompileCall, EvalCall, CompileArgs, EvalArgs, EvalApply, Call, TidyEach, NeedEach, Reaches, Shape, HeapRel,
         Frees, Compiled, FunctionAct, CodeAt, Before, Here, Pushed, Normal;
    BeforeFacts(a, s, g, d, rho, vis, h, st);
    var f := FindFunction(a.f.env, name);
    var c := NamedCode(a.u, a.f.env, s, name, args, tail, g);
    var ws, h1 := NamedMeaning(b, a.u, fuel, a.f, rho, name, args, h, out);
    ActEnv(a, name);
    CodeSplit(a.g.code, st.pc, c.code, [CallTo(f), AddEsp(f.args.Real())]);
    Code2(a.g.code, st.pc + |c.code|, CallTo(f), AddEsp(f.args.Real()));
    CodeFits(a.g.code, st.pc + |c.code|, [CallTo(f), AddEsp(f.args.Real())]);
    BeforeHolds(a, s, c, d, rho, vis, h, st);
    var st1 := CorrectArgs(b, fuel, a, s, f.args, args, c, d, rho, vis, h, ws, h1, st);
    HereShape(a, c.scope, d, rho, vis, h1, st1);
    match f.def
    case Lisp(_, _, _) => st' := LispCall(b, fuel - 1, a, f, ws, h1, out, d, st, st1);
    case Builtin => st' := BuiltinCall(b, a, f.name, ws, h1, out.value, out.heap.cells, d, st, st1);
    case Apply =>
      assert ws == [ws[0], ws[1]];
      st' := ApplyCall(b, fuel - 1, a, ws[0], ws[1], h1, out, d, st, st1);
  }

  lemma ActEnv(a: Act, name: string)
    requires Compiled(a)
    ensures EnvOk(a.u, FindFunction(a.f.env, name))
  {
    Compilation(a);
    EnvFound(a.u, a.f.env, name);
  }

  lemma CodeFits(code: seq<Instr>, pc: nat, c: seq<Instr>)
    requires CodeAt(code, pc, c)
    ensures pc + |c| <= |code|
  {
  }

  // ----- lambda -----

  /** `data` holds the visible captured variables from number `from` on. */
  ghost predicate Filled(data: seq<Word>, free: seq<string>, rho: Rho, from: nat) {
    |data| == |free| && forall j :: from <= j < |free| && free[j] in rho ==> data[j] == rho[free[j]]
  }

  /** One more closure than in `st0`, under construction, with its reference in eax. */
  ghost predicate Building(c: seq<Instr>, ar: Args, data: seq<Word>, st0: State, st: State) {
    && st == st0.(pc := st.pc, eax := Clo(|st0.clos|), clos := st0.clos + [Closure(c, ar, data)])
  }

  lemma MakeAt(code: seq<Instr>, pc: nat, f: Gen)
    requires CodeAt(code, pc, [PushImm(Num(f.scope.closureSlots)), PushImm(ArgsPtr(f.scope.args)),
                               PushImm(CodePtr(f.code)), CallCreateClosure, AddEsp(3)])
    ensures pc + 5 <= |code| && code[pc] == PushImm(Num(f.scope.closureSlots))
    ensures code[pc + 1] == PushImm(ArgsPtr(f.scope.args))
    ensures code[pc + 2] == PushImm(CodePtr(f.code)) && code[pc + 3] == CallCreateClosure && code[pc + 4] == AddEsp(3)
  {
    var c := [PushImm(Num(f.scope.closureSlots)), PushImm(ArgsPtr(f.scope.args)), PushImm(CodePtr(f.code)),
              CallCreateClosure, AddEsp(3)];
    assert c[0] == code[pc + 0] && c[1] == code[pc + 1] && c[2] == code[pc + 2] && c[3] == code[pc + 3]
      && c[4] == code[pc + 4];
  }

  lemma MakeClosure(b: Builtins, f: Gen, st: State) returns (st': State)
    requires CodeAt(st.code, st.pc, [PushImm(Num(f.scope.closureSlots)), PushImm(ArgsPtr(f.scope.args)),
                                     PushImm(CodePtr(f.code)), CallCreateClosure, AddEsp(3)])
    ensures Reaches(b, st, st') && Building(f.code, f.scope.args, seq(f.scope.closureSlots, _ => Junk), st, st')
    ensures st'.pc == st.pc + 5
  {
    hide Reaches, CodeAt;
    MakeAt(st.code, st.pc, f);
    var c := [PushImm(Num(f.scope.closureSlots)), PushImm(ArgsPtr(f.scope.args)), PushImm(CodePtr(f.code)),
              CallCreateClosure, AddEsp(3)];
    ReachesSelf(b, st);
    var s1 := DoPushImm(b, st, st, c[0].w);
    var s2 := DoPushImm(b, st, s1, c[1].w);
    var s3 := DoPushImm(b, st, s2, c[2].w);
    var s4 := DoCreate(b, st, s3, f.code, f.scope.args, f.scope.closureSlots);
    st' := DoAddEsp(b, st, s4, 3);
    assert st'.stack == st.stack;
  }

  function CaptureCode(v: Variable, number: nat): seq<Instr> {
    [PushEax, CompileVariable(v), PushEax, PushImm(Num(number)), CallSetCapture, AddEsp(2), PopEax]
  }

  lemma CaptureAt(code: seq<Instr>, pc: nat, v: Variable, number: nat)
    requires CodeAt(code, pc, CaptureCode(v, number))
    ensures pc + 7 <= |code| && code[pc] == PushEax && code[pc + 1] == CompileVariable(v)
    ensures code[pc + 2] == PushEax && code[pc + 3] == PushImm(Num(number))
    ensures code[pc + 4] == CallSetCapture && code[pc + 5] == AddEsp(2) && code[pc + 6] == PopEax
  {
    hide CompileVariable;
    var c := CaptureCode(v, number);
    assert c[0] == code[pc + 0] && c[1] == code[pc + 1] && c[2] == code[pc + 2] && c[3] == code[pc + 3];
    assert c[4] == code[pc + 4] && c[5] == code[pc + 5] && c[6] == code[pc + 6];
  }

  /** One captured variable is loaded and stored into the closure. */
  lemma DoCapture(b: Builtins, a: Act, s: Scope, d: nat, rho: Rho, vis: set<string>, name: string, v: Variable,
                  number: nat, c: seq<Instr>, ar: Args, data: seq<Word>, st0: State, st: State)
    returns (st': State, w: Word)
    requires Reaches(b, st0, st) && Building(c, ar, data, st0, st) && CodeAt(st.code, st.pc, CaptureCode(v, number))
    requires Shape(a, st0) && Inside(a, s, d, rho, vis, st0) && Find(s.vars, name) == Some(v) && number < |data|
    ensures Reaches(b, st0, st') && Building(c, ar, data[number := w], st0, st') && st'.pc == st.pc + 7
    ensures name in rho ==> w == rho[name]
  {
    hide Reaches, Inside, Shape, CodeAt, CaptureCode, CompileVariable, Find;
    CaptureAt(st.code, st.pc, v, number);
    var s1 := DoPush(b, st0, st);
    InsideKept(a, s, d, rho, vis, st0, s1);
    var s2 := LoadVariable(b, st0, a, s, d, rho, vis, s1, name, v);
    w := s2.eax;
    st' := StoreCapture(b, number, c, ar, data, st0, s2);
  }

  lemma InsideKept(a: Act, s: Scope, d: nat, rho: Rho, vis: set<string>, st0: State, st1: State)
    requires Shape(a, st0) && Inside(a, s, d, rho, vis, st0)
    requires st1 == st0.(pc := st1.pc, eax := st1.eax, stack := st0.stack + [st1.eax], clos := st1.clos)
    requires st0.clos <= st1.clos
    ensures Shape(a, st1) && Inside(a, s, d, rho, vis, st1)
  {
    EvolvedSelf(s, vis, d, a.Entries());
    InsideStays(a, s, s, d, rho, vis, st0, st1, [st1.eax]);
  }

  lemma StoreCapture(b: Builtins, number: nat, c: seq<Instr>, ar: Args, data: seq<Word>, st0: State, s2: State)
    returns (st': State)
    requires Reaches(b, st0, s2) && number < |data|
    requires s2 == st0.(pc := s2.pc, eax := s2.eax, stack := st0.stack + [Clo(|st0.clos|)],
                        clos := st0.clos + [Closure(c, ar, data)])
    requires s2.pc + 4 < |s2.code| && s2.code[s2.pc] == PushEax && s2.code[s2.pc + 1] == PushImm(Num(number))
    requires s2.code[s2.pc + 2] == CallSetCapture && s2.code[s2.pc + 3] == AddEsp(2) && s2.code[s2.pc + 4] == PopEax
    ensures Reaches(b, st0, st') && Building(c, ar, data[number := s2.eax], st0, st') && st'.pc == s2.pc + 5
  {
    hide Reaches;
    var k := |st0.clos|;
    var s3 := DoPush(b, st0, s2);
    var s4 := DoPushImm(b, st0, s3, Num(number));
    assert s4.stack[|s4.stack| - 3] == Clo(k) && s4.stack[|s4.stack| - 2] == s2.eax;
    var s5 := DoSetCapture(b, st0, s4, number, k);
    var s6 := DoAddEsp(b, st0, s5, 2);
    assert s6.stack == s2.stack;
    st' := DoPop(b, st0, s6);
    assert st'.stack == st0.stack;
    assert st'.clos == st0.clos + [Closure(c, ar, data[number := s2.eax])];
  }

  /** The capture loop, over the variables of the new function that remain. */
  lemma {:induction false} DoCaptures(b: Builtins, a: Act, s: Scope, d: nat, rho: Rho, vis: set<string>,
                                      vars: seq<Variable>, free: seq<string>, c: seq<Instr>, ar: Args,
                                      data: seq<Word>, g: Gen, st0: State, st: State)
    returns (st': State, data': seq<Word>)
    requires Captures(vars, s) == Ok(g) && Numbered(vars) && Resolved(Frees(vars), Some(s)) && Frees(vars) <= free
    requires Shape(a, st0) && Inside(a, s, d, rho, vis, st0)
    requires Reaches(b, st0, st) && Building(c, ar, data, st0, st) && CodeAt(st.code, st.pc, g.code)
    requires Filled(data, free, rho, |Frees(vars)|)
    ensures Reaches(b, st0, st') && Building(c, ar, data', st0, st') && st'.pc == st.pc + |g.code|
    ensures Filled(data', free, rho, 0) && g.scope == s
    decreases |vars|
  {
    hide Reaches, Inside, Shape, CompileVariable;
    if vars == [] {
      st', data' := st, data;
    } else if vars[0].kind != Free {
      st', data' := DoCaptures(b, a, s, d, rho, vis, vars[1..], free, c, ar, data, g, st0, st);
    } else {
      var name, number := vars[0].name, vars[0].number;
      var rest := Frees(vars[1..]);
      assert Frees(vars) == rest + [name] && name in Frees(vars);
      assert FindVariable(s, name) == (s, Find(s.vars, name));
      var v := Find(s.vars, name).value;
      var r := Captures(vars[1..], s).value;
      CodeSplit(st.code, st.pc, CaptureCode(v, number), r.code);
      var st1, w := DoCapture(b, a, s, d, rho, vis, name, v, number, c, ar, data, st0, st);
      assert free[number] == name;
      assert Resolved(rest, Some(s)) by { forall x | x in rest ensures x in Frees(vars) { } }
      st', data' := DoCaptures(b, a, s, d, rho, vis, vars[1..], free, c, ar, data[number := w], r, st0, st1);
    }
  }

  lemma LambdaCode(u: Unit, env: Env, s: Scope, args: Sexp, g: Gen) returns (f: Gen, r: Gen)
    requires CompileLambda(u, env, s, args) == Ok(g)
    ensures CompileFunction(u, env, Car(args), Cdr(args), "recurse", Some(s)) == Ok(f) && f.scope.parent.Some?
    ensures Captures(f.scope.vars, f.scope.parent.value) == Ok(r)
    ensures g == Gen([PushImm(Num(f.scope.closureSlots)), PushImm(ArgsPtr(f.scope.args)), PushImm(CodePtr(f.code)),
                      CallCreateClosure, AddEsp(3)] + r.code, r.scope)
  {
    hide CompileFunction, Captures;
    f := CompileFunction(u, env, Car(args), Cdr(args), "recurse", Some(s)).value;
    r := Captures(f.scope.vars, f.scope.parent.value).value;
  }

  lemma CorrectLambda(b: Builtins, fuel: nat, a: Act, s: Scope, args: Sexp, g: Gen, d: nat, rho: Rho,
                      vis: set<string>, h: Heap, out: Out, st: State) returns (st': State)
    requires CompileLambda(a.u, a.f.env, s, args) == Ok(g) && out == MadeClosure(a.f, args, rho, h)
    requires TidyFunction(a.u, Car(args), Cdr(args), vis) && Before(a, s, g, d, rho, vis, h, st)
    ensures Reaches(b, st, st') && Normal(a, st, st', st.pc + |g.code|, out, d)
  {
    hide CompileLambda, CompileFunction, Captures, TidyFunction, Reaches, Shape, HeapRel, CodeAt, Before, Compiled,
         Inside, Here, Ready;
    BeforeFacts(a, s, g, d, rho, vis, h, st);
    HereFacts(a, s, d, rho, vis, h, st);
    var f, r := LambdaCode(a.u, a.f.env, s, args, g);
    var s1 := f.scope.parent.value;
    LambdaScope(a, s, args, f, r, d, rho, vis, h, st);
    var make := [PushImm(Num(f.scope.closureSlots)), PushImm(ArgsPtr(f.scope.args)), PushImm(CodePtr(f.code)),
                 CallCreateClosure, AddEsp(3)];
    CodeSplit(a.g.code, st.pc, make, r.code);
    ShapeCode(a, st);
    var st1 := MakeClosure(b, f, st);
    var data;
    st', data := DoCaptures(b, a, s1, d, rho, vis, f.scope.vars, Frees(f.scope.vars), f.code, f.scope.args,
                            seq(f.scope.closureSlots, _ => Junk), r, st, st1);
    ClosureMade(a, s, args, f, rho, vis, h, out, data, st, st');
  }

  lemma ShapeCode(a: Act, st: State)
    requires Shape(a, st)
    ensures st.code == a.g.code
  {
  }

  /** The scope in which the captures are loaded: it knows all their names. */
  lemma LambdaScope(a: Act, s: Scope, args: Sexp, f: Gen, r: Gen, d: nat, rho: Rho, vis: set<string>, h: Heap,
                    st: State)
    requires CompileFunction(a.u, a.f.env, Car(args), Cdr(args), "recurse", Some(s)) == Ok(f) && f.scope.parent.Some?
    requires Captures(f.scope.vars, f.scope.parent.value) == Ok(r) && Frees(r.scope.vars) <= a.Free()
    requires TidyFunction(a.u, Car(args), Cdr(args), vis) && Here(a, s, d, rho, vis, h, st)
    ensures var s1 := f.scope.parent.value;
      && Numbered(f.scope.vars) && Resolved(Frees(f.scope.vars), Some(s1))
        && f.scope.closureSlots == |Frees(f.scope.vars)|
      && Shape(a, st) && Inside(a, s1, d, rho, vis, st) && WellNumbered(s) && rho.Keys <= vis
  {
    hide CompileFunction, Captures, TidyFunction, HeapRel, Compiled, LocatedAt;
    HereFacts(a, s, d, rho, vis, h, st);
    SoundFunction(a.u, a.f.env, Car(args), Cdr(args), "recurse", Some(s), vis);
    var s1 := f.scope.parent.value;
    CapturesPlain(f.scope.vars, s1);
    CapturesKept(s1.vars, r.scope.vars, {});
    GrownEvolves(s, s1, vis, d, a.Entries());
    InsideStays(a, s, s1, d, rho, vis, st, st, []);
  }

  /** The finished closure stands for the source closure. */
  lemma ClosureMade(a: Act, s: Scope, args: Sexp, f: Gen, rho: Rho, vis: set<string>, h: Heap, out: Out,
                    data: seq<Word>, st: State, st': State)
    requires CompileFunction(a.u, a.f.env, Car(args), Cdr(args), "recurse", Some(s)) == Ok(f)
    requires TidyFunction(a.u, Car(args), Cdr(args), vis)
    requires Compiled(a) && WellNumbered(s) && rho.Keys <= vis && HeapRel(a.u, h, st)
    requires out == MadeClosure(a.f, args, rho, h)
    requires Building(f.code, f.scope.args, data, st, st') && Filled(data, Frees(f.scope.vars), rho, 0)
    ensures st'.eax == out.value && HeapRel(a.u, out.heap, st')
  {
    hide CompileFunction, TidyFunction, EnvOk, WellNumbered, PassedOn, FreeNames;
    Compilation(a);
    var a' := Act(a.u, Fun(a.f.env, "recurse", Car(args), Cdr(args), rho), Some(s), vis, f);
    assert IsCompiled(a');
    TracesFunction(a.u, a.f.env, Car(args), Cdr(args), "recurse", Some(s));
    var c := SClosure(a.f.env, Car(args), Cdr(args), rho, Frees(f.scope.vars));
    assert ClosureVia(a', a.u, c, Closure(f.code, f.scope.args, data));
    forall k | 0 <= k < |out.heap.clos| ensures ClosureRel(a.u, out.heap.clos[k], st'.clos[k]) {
      if k < |h.clos| { assert ClosureRel(a.u, h.clos[k], st.clos[k]); }
    }
  }
}
