/** What the compiler promises, stated for whole programs. */
module Theorems {
  import opened Wrappers
  import opened Sexps
  import opened Words
  import opened Cells
  import opened CallList
  import opened Machine
  import opened Scopes
  import opened ScopeFacts
  import opened Codegen
  import opened Source
  import opened CodegenFacts
  import opened Steps
  import opened Frames
  import opened Pieces
  import opened Templates
  import opened Correctness
  import WellFormedness
  import CompilesFacts

  /** `(defun name arglist body...)` at top level; a form that does not compile is
      reported and defines nothing. */
  datatype Defun = Defun(name: string, arglist: Sexp, body: Sexp)

  function Define(u: Unit, env: Env, f: Defun): Env {
    match CompileFunction(u, env, f.arglist, f.body, f.name, None)
    case Err(_) => env
    case Ok(g) => Function(f.name, g.scope.args, Lisp(f.arglist, f.body, g.code), env)
  }

  /** A file: the forms are compiled in order, each seeing the functions before it. */
  function DefineAll(u: Unit, env: Env, file: seq<Defun>): Env
    decreases |file|
  {
    if file == [] then env else DefineAll(u, Define(u, env, file[0]), file[1..])
  }

  /** A definition compiles exactly if it is well formed in a place without variables. */
  lemma DefinesIff(u: Unit, env: Env, f: Defun)
    requires Listp(f.body)
    ensures CompileFunction(u, env, f.arglist, f.body, f.name, None).Ok? <==>
      WellFormedness.InFunction(CompilesFacts.Outside(u, env), {}, f.name, f.arglist, f.body).Ok?
  {
    hide CompileFunction, WellFormedness.InFunction;
    CompilesFacts.AcceptsFunction(u, env, f.arglist, f.body, f.name, None);
  }

  /** A definition that compiles is found under its name, on top of those before it, with
      the code of its source; nothing else is found that was not found before. */
  lemma DefineFinds(u: Unit, env: Env, f: Defun, x: string)
    ensures var (r, found) := (CompileFunction(u, env, f.arglist, f.body, f.name, None),
                               FindFunction(Define(u, env, f), x));
      if r.Ok? && x == f.name then
        found == Function(f.name, r.value.scope.args, Lisp(f.arglist, f.body, r.value.code), env)
      else found == FindFunction(env, x)
  {
    hide CompileFunction;
  }

  lemma {:induction false} DefineAppend(u: Unit, env: Env, a: seq<Defun>, b: seq<Defun>)
    ensures DefineAll(u, env, a + b) == DefineAll(u, DefineAll(u, env, a), b)
    decreases |a|
  {
    hide Define;
    if a == [] {
      assert a + b == b;
    } else {
      DefineAppend(u, Define(u, env, a[0]), a[1..], b);
      assert (a + b)[1..] == a[1..] + b;
    }
  }

  lemma {:induction false} NotDefined(u: Unit, env: Env, file: seq<Defun>, x: string)
    requires forall f :: f in file ==> f.name != x
    ensures FindFunction(DefineAll(u, env, file), x) == FindFunction(env, x)
    decreases |file|
  {
    hide Define;
    if file != [] {
      assert file[0] in file;
      DefineFinds(u, env, file[0], x);
      NotDefined(u, Define(u, env, file[0]), file[1..], x);
    }
  }

  /** In a compiled file the last definition of a name is found, if it compiles where it
      stands; and for a name that the file does not define, what was found before. */
  lemma FileFinds(u: Unit, env: Env, file: seq<Defun>, k: nat, x: string)
    requires forall j :: k < j < |file| ==> file[j].name != x
    ensures k < |file| && file[k].name == x ==>
      var before := DefineAll(u, env, file[..k]);
      var r := CompileFunction(u, before, file[k].arglist, file[k].body, x, None);
      r.Ok? ==> FindFunction(DefineAll(u, env, file), x) ==
                Function(x, r.value.scope.args, Lisp(file[k].arglist, file[k].body, r.value.code), before)
    ensures (forall f :: f in file ==> f.name != x) ==> FindFunction(DefineAll(u, env, file), x) == FindFunction(env, x)
  {
    hide CompileFunction, Define;
    if k < |file| && file[k].name == x {
      var before := DefineAll(u, env, file[..k]);
      assert file == file[..k] + ([file[k]] + file[k + 1..]);
      DefineAppend(u, env, file[..k], [file[k]] + file[k + 1..]);
      assert ([file[k]] + file[k + 1..])[1..] == file[k + 1..];
      DefineFinds(u, before, file[k], x);
      NotDefined(u, Define(u, before, file[k]), file[k + 1..], x);
    }
    if forall f :: f in file ==> f.name != x { NotDefined(u, env, file, x); }
  }

  /** No let1 hides a visible variable and every frame is large enough. */
  predicate TidyFile(u: Unit, file: seq<Defun>) {
    forall f :: f in file ==> TidyFunction(u, f.arglist, f.body, {})
  }

  /** Whatever is compiled on top of a good environment leaves a good environment. */
  lemma {:induction false} DefineAllOk(u: Unit, env: Env, file: seq<Defun>)
    requires EnvOk(u, env) && TidyFile(u, file)
    ensures EnvOk(u, DefineAll(u, env, file))
    decreases |file|
  {
    hide TidyFunction, CompileFunction, EnvOk;
    if file != [] {
      assert file[0] in file;
      DefineOk(u, env, file[0]);
      DefineAllOk(u, Define(u, env, file[0]), file[1..]);
    }
  }

  /** What a compilation starts from: C functions, and `apply` with its two parameters. */
  predicate Standard(env: Env) {
    env.Function? ==> Standard(env.prev) && (env.def.Builtin? || (env.def.Apply? && env.args == Args(2, [], false)))
  }

  /** Every such environment is good, so the invariant holds of whatever is compiled. */
  lemma {:induction false} StandardOk(u: Unit, env: Env)
    requires Standard(env)
    ensures EnvOk(u, env)
    decreases env
  {
    if env.Function? { StandardOk(u, env.prev); }
  }

  lemma DefineOk(u: Unit, env: Env, f: Defun)
    requires EnvOk(u, env) && TidyFunction(u, f.arglist, f.body, {})
    ensures EnvOk(u, Define(u, env, f))
  {
    hide TidyFunction, CompileFunction;
    var r := CompileFunction(u, env, f.arglist, f.body, f.name, None);
    if r.Ok? {
      var a := FunctionAct(u, Define(u, env, f));
      assert IsCompiled(a);
    }
  }

  /** The state after a caller pushed `ws`, the first on top, and called the code of `f`. */
  ghost predicate Called(f: Env, ws: seq<Word>, below: seq<Word>, ret: Word, st: State)
    requires f.Function? && f.def.Lisp?
  {
    st.code == f.def.code && st.pc == 0 && ret.RetAddr? && st.stack == below + Reversed(ws) + [ret]
  }

  /** Whole programs: in an environment built by compiling a file on top of a good one,
      such as the builtins (`StandardOk`) or another file, calling a function with one word
      for each of its parameters runs, and returns what the source function returns: value,
      cons cells and closures.  The caller gets back its code, frame pointer, closure
      pointer and the stack below the arguments. */
  lemma ProgramCorrect(b: Builtins, u: Unit, fuel: nat, base: Env, file: seq<Defun>, name: string, ws: seq<Word>,
                       h: Heap, out: Out, below: seq<Word>, ret: Word, st: State) returns (st': State)
    requires EnvOk(u, base) && TidyFile(u, file)
    requires var f := FindFunction(DefineAll(u, base, file), name);
      && f.Function? && f.def.Lisp? && |ws| == f.args.Real() && Called(f, ws, below, ret, st)
      && Call(u, b, fuel, Fun(f.prev, f.name, f.def.arglist, f.def.body, map[]), ws, h) == Some(out)
    requires HeapRel(u, h, st)
    ensures Reaches(b, st, st') && st'.eax == out.value && HeapRel(u, out.heap, st')
    ensures st'.code == ret.code && st'.pc == ret.pc && st'.ebp == st.ebp && st'.edi == st.edi
    ensures |st'.stack| == |below| + |ws| && below <= st'.stack
  {
    hide TidyFile, DefineAll, FindFunction, Call, CompileFunction, Reaches, HeapRel, Compiled, Frees;
    DefineAllOk(u, base, file);
    EnvFound(u, DefineAll(u, base, file), name);
    var f := FindFunction(DefineAll(u, base, file), name);
    var a := FunctionAct(u, f);
    TopLevelClosed(a);
    CallStack(below, ws, ret, st.stack);
    st' := CorrectFunction(b, fuel, a, ws, h, out, st);
    assert forall j :: 0 <= j < |below| ==> st'.stack[j] == st.stack[j] == below[j];
  }

  lemma CallStack(below: seq<Word>, ws: seq<Word>, ret: Word, stack: seq<Word>)
    requires stack == below + Reversed(ws) + [ret]
    ensures |stack| == |below| + |ws| + 1 && stack[|stack| - 1] == ret
    ensures forall j :: 0 <= j < |below| ==> stack[j] == below[j]
    ensures forall j :: |stack| - 1 - |ws| <= j < |stack| - 1 ==> stack[j] == ws[|stack| - 2 - j]
  {
    forall j | |stack| - 1 - |ws| <= j < |stack| - 1 ensures stack[j] == ws[|stack| - 2 - j] {
      assert stack[j] == Reversed(ws)[j - |below|];
    }
  }

  /** Captures: the enclosing scope knows each captured name, and the captured names
      carry the numbers 0 .. num_closure_slots - 1, each once. */
  lemma CapturesNumbered(u: Unit, env: Env, arglist: Sexp, body: Sexp, name: string, parent: Option<Scope>,
                         vis: set<string>, x: string)
    requires CompileFunction(u, env, arglist, body, name, parent).Ok? && TidyFunction(u, arglist, body, vis)
    requires parent.Some? ==> WellNumbered(parent.value)
    ensures var s := CompileFunction(u, env, arglist, body, name, parent).value.scope;
      && s.closureSlots == |Frees(s.vars)|
      && (forall i, j :: 0 <= i < j < |Frees(s.vars)| ==> Frees(s.vars)[i] != Frees(s.vars)[j])
      && (x in Frees(s.vars) ==> s.parent.Some? && Find(s.parent.value.vars, x).Some?)
      && (Find(s.vars, x).Some? && Find(s.vars, x).value.kind == Free ==>
            Find(s.vars, x).value.number < s.closureSlots && Frees(s.vars)[Find(s.vars, x).value.number] == x)
  {
    hide CompileFunction, TidyFunction;
    SoundFunction(u, env, arglist, body, name, parent, vis);
    var s := CompileFunction(u, env, arglist, body, name, parent).value.scope;
    FreesDistinct(s.vars);
    if Find(s.vars, x).Some? && Find(s.vars, x).value.kind == Free { FreeNumber(s.vars, x); }
  }

  /** The elements of the list `xs` are what a direct call passed as `ws`: one word each for
      the parameters, and the others in the list `rs`. */
  ghost predicate SameArguments(cs: seq<Cell>, args: Args, xs: seq<nat>, ws: seq<Word>, rs: seq<nat>) {
    && (forall i :: 0 <= i < |xs| ==> xs[i] < |cs|) && (forall j :: 0 <= j < |rs| ==> rs[j] < |cs|)
    && (forall i :: 0 <= i < |xs| && i < args.Total() && i < |ws| ==> cs[xs[i]].car == ws[i])
    && (|xs| > args.Total() && |ws| > args.Total() ==>
          && Path(cs, ws[args.Total()], rs, Nil) && args.Total() + |rs| == |xs|
          && forall j :: 0 <= j < |rs| ==> cs[rs[j]].car == cs[xs[args.Total() + j]].car)
  }

  /** Both words have one structure, or they are the same word. */
  ghost predicate SameMeaning(m: Store, w: Word, m': Store, w': Word) {
    w' == w || (Structure(m, w).Some? && Structure(m', w') == Structure(m, w))
  }

  /** The two ways to call agree: for the values of a direct call, given as a list, `apply`
      passes words of the same structures, parameter by parameter, defaults and the rest
      list included.  A function without a rest parameter gets one more word from `apply`,
      which it does not look at. */
  lemma ApplyAgrees(u: Unit, b: Builtins, fuel: nat, f: Fun, rho: Rho, args: Args, forms: Sexp, h: Heap,
                    ws: seq<Word>, h': Heap, given: Word, xs: seq<nat>, rs: seq<nat>)
    requires EvalArgs(u, b, fuel, f, rho, args, forms, h) == Some((ws, h')) && Listp(forms) && |xs| == Length(forms)
    requires MemoryOf(h').Closed() && MemoryOf(h').Has(given) && Structure(MemoryOf(h'), given).Some?
    requires Path(h'.cells, given, xs, Nil) && SameArguments(h'.cells, args, xs, ws, rs)
    ensures CallListArgs(MemoryOf(h'), args, given).Some?
    ensures var (list, m) := CallListArgs(MemoryOf(h'), args, given).value; var ws' := ElementsOf(m.cells, list);
      && |ws| == args.Real() && |ws'| == args.Total() + 1
      && forall i :: 0 <= i < |ws| ==> SameMeaning(MemoryOf(h'), ws[i], m, ws'[i])
  {
    hide EvalConses, EvalPushes, EvalArgs, CallListArgs, ElementsOf, Structure, Path, SameMeaning, SameArguments,
         BindsArgs, Missing;
    var rest, direct := ArgsMeaning(b, u, fuel, f, rho, args, forms, h, ws, h');
    PushesCount(b, u, fuel, f, rho, forms, args.Total(), rest.heap);
    ApplyBinds(MemoryOf(h'), args, given, xs);
    var (list, m) := CallListArgs(MemoryOf(h'), args, given).value;
    BoundCount(MemoryOf(h'), args, Cars(h'.cells, xs), m, ElementsOf(m.cells, list));
    MissingAt(args.optional, |xs| - args.required);
    if args.variadic && |xs| <= args.Total() { NoRest(u, b, fuel, f, rho, forms, args.Total(), h); }
    assert forall i :: |xs| <= i < args.Total() ==> ws[i] == args.optional[i - args.required];
    SameWords(args, MemoryOf(h'), xs, ws, rs, m, ElementsOf(m.cells, list));
  }

  lemma BoundCount(m: Store, args: Args, us: seq<Word>, m': Store, ws: seq<Word>)
    requires BindsArgs(m, args, us, m', ws)
    ensures |ws| == args.Total() + 1
  {
  }

  lemma MissingAt(optional: seq<Word>, from: nat)
    ensures |Missing(optional, from)| == if from < |optional| then |optional| - from else 0
    ensures forall i :: from <= i < |optional| ==> Missing(optional, from)[i - from] == optional[i]
  {
  }

  lemma SameWords(args: Args, m: Store, xs: seq<nat>, ws: seq<Word>, rs: seq<nat>, m': Store, ws': seq<Word>)
    requires SameArguments(m.cells, args, xs, ws, rs) && BindsArgs(m, args, Cars(m.cells, xs), m', ws')
    requires |ws| == args.Real()
    requires forall i :: |xs| <= i < args.Total() ==> ws[i] == args.optional[i - args.required]
    requires args.variadic && |xs| <= args.Total() ==> ws[args.Total()] == Nil
    ensures forall i :: 0 <= i < |ws| ==> SameMeaning(m, ws[i], m', ws'[i])
  {
    hide Structure, Path, IsList, SameMeaning;
    forall i | 0 <= i < |ws| ensures SameMeaning(m, ws[i], m', ws'[i]) {
      if i < args.Total() {
        SameParameter(args, m, xs, ws, m', ws', i);
      } else if |xs| > i {
        SameRest(m, xs, i, ws[i], rs, m', ws'[i]);
      } else {
        SameWord(m, Nil, m');
      }
    }
  }

  lemma SameWord(m: Store, w: Word, m': Store)
    ensures SameMeaning(m, w, m', w)
  {
  }

  lemma SameParameter(args: Args, m: Store, xs: seq<nat>, ws: seq<Word>, m': Store, ws': seq<Word>, i: nat)
    requires i < args.Total() <= |ws| && i < |ws'| && forall i :: 0 <= i < |xs| ==> xs[i] < |m.cells|
    requires i < |xs| ==> m.cells[xs[i]].car == ws[i]
    requires |xs| <= i ==> args.required <= i && ws[i] == args.optional[i - args.required]
    requires BindsArgs(m, args, Cars(m.cells, xs), m', ws')
    ensures SameMeaning(m, ws[i], m', ws'[i])
  {
    hide Structure, IsList;
  }

  /** A rest list of the same values, whoever made it. */
  lemma SameRest(m: Store, xs: seq<nat>, t: nat, w: Word, rs: seq<nat>, m': Store, w': Word)
    requires t < |xs| && (forall i :: 0 <= i < |xs| ==> xs[i] < |m.cells|) && IsList(m, Cars(m.cells, xs)[t..], m', w')
    requires Path(m.cells, w, rs, Nil) && t + |rs| == |xs| && (forall j :: 0 <= j < |rs| ==> rs[j] < |m.cells|)
    requires forall j :: 0 <= j < |rs| ==> m.cells[rs[j]].car == m.cells[xs[t + j]].car
    ensures SameMeaning(m, w, m', w')
  {
    hide Structure;
    var us := Cars(m.cells, xs)[t..];
    var ys :| IsListAt(m, us, m', w', ys);
    forall j | 0 <= j < |rs| ensures us[j] == m.cells[rs[j]].car {
      assert us[j] == Cars(m.cells, xs)[t + j];
    }
    ListStructure(m, w, rs, m', w', ys);
  }

  lemma {:induction false} NoRest(u: Unit, b: Builtins, fuel: nat, f: Fun, rho: Rho, args: Sexp, skip: nat, h: Heap)
    requires Listp(args) && Length(args) <= skip
    ensures EvalConses(u, b, fuel, f, rho, args, skip, h) == Some(Source.Out(Nil, h))
    decreases Size(args)
  {
    if args.SCons? { NoRest(u, b, fuel, f, rho, args.cdr, skip - 1, h); }
  }

  /** The code of a template puts the filled-in template into eax, and leaves esp, ebp,
      edi, the parameters and the live let1 slots as they were (`Pushed`). */
  lemma BackquoteCode(b: Builtins, fuel: nat, a: Act, s: Scope, val: Sexp, g: Gen, d: nat, rho: Rho, vis: set<string>,
                      h: Heap, out: Out, ts: seq<Tree>, st: State) returns (st': State)
    requires CompileBackquote(a.u, a.f.env, s, val) == Ok(g)
    requires EvalBackquote(a.u, b, fuel, a.f, rho, val, h) == Some(out)
    requires TidyTemplate(a.u, val, vis) && d + NeedTemplate(val) <= a.Entries() && Before(a, s, g, d, rho, vis, h, st)
    requires Templates.Closed(h.cells) && Insertions(a.u, b, fuel, a.f, rho, val, h) == Some(ts)
    ensures Reaches(b, st, st') && Pushed(st, st', [], d, a.Entries()) && st'.pc == st.pc + |g.code|
    ensures |ts| == Holes(val) && Structure(Flat(st'.cells), st'.eax) == Some(Fill(val, ts)) && st.cells <= st'.cells
  {
    hide CompileBackquote, EvalBackquote, TidyTemplate, NeedTemplate, Here, Shape, Reaches, Pushed, Insertions, Fill,
         Holes, Structure;
    st' := CorrectBackquote(b, fuel, a, s, val, g, d, rho, vis, h, out, st);
    BackquoteBuilds(a.u, b, fuel, a.f, rho, val, h, out, ts);
    BeforeFacts(a, s, g, d, rho, vis, h, st);
  }

  /** (x) */
  const X: Sexp := SCons(0, SSym("x"), SNil)

  /** All hypotheses can be met: `(defun id (x) x)`, compiled on top of any good environment
      and called with any word, returns the word. */
  lemma IdentityRuns(b: Builtins, u: Unit, base: Env, w: Word, h: Heap, below: seq<Word>, ret: Word, st: State)
    returns (st': State)
    requires EnvOk(u, base) && HeapRel(u, h, st) && ret.RetAddr? && st.pc == 0 && st.stack == below + [w] + [ret]
    requires st.code == Setup(0) + [MovEaxMem(2)] + CLEANUP
    ensures Reaches(b, st, st') && st'.eax == w && HeapRel(u, h, st') && st'.code == ret.code && st'.pc == ret.pc
  {
    hide CompileFunction, TidyFunction, EnvOk, HeapRel, Reaches, Call, Define;
    var f := Defun("id", X, X);
    IdentityCode(u, base);
    DefineFinds(u, base, f, "id");
    assert [f][1..] == [];
    assert DefineAll(u, base, [f]) == DefineAll(u, Define(u, base, f), []) == Define(u, base, f);
    assert Reversed([w]) == [w];
    IdentityValue(u, b, Fun(base, "id", X, X, map[]), w, h);
    assert TidyFile(u, [f]);
    st' := ProgramCorrect(b, u, 0, base, [f], "id", [w], h, Source.Out(w, h), below, ret, st);
  }

  lemma IdentityCode(u: Unit, env: Env)
    ensures TidyFunction(u, X, X, {})
    ensures var r := CompileFunction(u, env, X, X, "id", None);
      r.Ok? && r.value.code == Setup(0) + [MovEaxMem(2)] + CLEANUP && r.value.scope.args == Args(1, [], false)
  {
    hide Frees, FormOf;
    var v := Variable("x", Argument, 0);
    var s0 := FreshScope("id", None);
    var s1 := AddVariable(s0, v).(args := Args(1, [], false));
    assert ListToArgs(u.defaults, X, s0, Args(0, [], false), false) == Ok(s1) by {
      assert ListToArgs(u.defaults, SNil, AddVariable(s0, v), Args(1, [], false), false) == Ok(s1);
    }
    XParameter(u.defaults);
    assert NeedEach(X) == 0 by { assert NeedEach(SNil) == 0; }
    assert TidyEach(u, X, {} + Names(["x"])) by { assert TidyEach(u, SNil, {} + Names(["x"])); }
    var (s2, n) := Prepare(s1, X);
    assert WalkEach(s1, X, false) == s1 by { assert WalkEach(s1, SNil, false) == s1; }
    assert n == 0 && s2.vars == [v];
    assert Compile(u, env, s2, SSym("x"), true) == Ok(Gen([MovEaxMem(2)], s2));
    assert CompileBody(u, env, s2, SNil, true) == Ok(Gen([], s2));
    assert [MovEaxMem(2)] + [] == [MovEaxMem(2)];
  }

  lemma IdentityValue(u: Unit, b: Builtins, f: Fun, w: Word, h: Heap)
    requires f.arglist == X && f.body == X && f.rho == map[]
    ensures Call(u, b, 0, f, [w], h) == Some(Source.Out(w, h))
  {
    hide EvalBody, ParamsOf, Bind;
    XParameter(u.defaults);
    XBound(w);
    assert map[] + map["x" := w] == map["x" := w];
    XBody(u, b, f, map["x" := w], h);
  }

  lemma XParameter(defaults: map<Sexp, Word>)
    ensures ParamsOf(defaults, X, NO_PARAMS) == Some(Params(["x"], Args(1, [], false)))
  {
    assert [] + ["x"] == ["x"];
    assert ParamsOf(defaults, SNil, Params(["x"], Args(1, [], false))) == Some(Params(["x"], Args(1, [], false)));
  }

  lemma XBound(w: Word)
    ensures Bind(["x"], [w]) == map["x" := w]
  {
    assert ["x"][..0] == [] && Bind([], [w]) == map[];
  }

  lemma XBody(u: Unit, b: Builtins, f: Fun, rho: Rho, h: Heap)
    requires "x" in rho
    ensures EvalBody(u, b, 0, f, rho, X, h) == Some(Source.Out(rho["x"], h))
  {
    assert Eval(u, b, 0, f, rho, SSym("x"), h) == Some(Source.Out(rho["x"], h));
  }

  // ----- where the compiler and its users part -----

  /** `(progn)` emits nothing, so it leaves whatever eax held; so does an empty body. */
  lemma EmptyPrognEmitsNothing(u: Unit, env: Env, s: Scope, tail: bool)
    ensures Compile(u, env, s, SCons(0, SSym("progn"), SNil), tail) == Ok(Gen([], s))
  {
    hide CompileIf, CompileAndOr, CompileLet1, CompileBackquote, CompileList, CompileLambda, CompileCall;
    assert FormOf("progn") == FProgn;
    assert CompileForm(u, env, s, "progn", SNil, tail) == Ok(Gen([], s));
  }

  /** (name i) */
  function Binding(name: string, i: int): Sexp { SCons(0, SSym(name), SCons(0, SInt(i), SNil)) }

  lemma LengthCons(v: Sexp)
    requires v.SCons?
    ensures Length(v) == 1 + Length(v.cdr) && (Listp(v) <==> Listp(v.cdr))
  {
  }

  lemma LetOfInt(u: Unit, b: Builtins, fuel: nat, f: Fun, env: Env, s: Scope, d: nat, rho: Rho, h: Heap, name: string,
                 i: int, body: Sexp)
    requires Slotted(s, d) && body.SCons? && Listp(body)
    ensures var args, r := SCons(0, Binding(name, i), body),
      CompileBody(u, env, AddVariable(LocalAlloc(s).0, Variable(name, VarKind.Bound, d)), body, false);
      && (r.Ok? ==> CompileLet1(u, env, s, args, false) == Ok(Gen([MovEaxImm(Int(i)),
          MovMemEax(-(d + 1))] + r.value.code, LocalFree(r.value.scope, d))))
      && EvalLet1(u, b, fuel, f, rho, args, h) == EvalBody(u, b, fuel, f, rho[name := Int(i)], body, h)
  {
    hide CompileBody, EvalBody, Slotted, LocalAlloc;
    var args := SCons(0, Binding(name, i), body);
    LengthCons(Binding(name, i));
    LengthCons(Binding(name, i).cdr);
    LengthCons(args);
    LengthCons(body);
    assert Compile(u, env, s, SInt(i), false) == Ok(Gen([MovEaxImm(Int(i))], s));
    assert Eval(u, b, fuel, f, rho, SInt(i), h) == Some(Source.Out(Int(i), h));
    AllocSlot(s, d);
    var r := CompileBody(u, env, AddVariable(LocalAlloc(s).0, Variable(name, VarKind.Bound, d)), body, false);
    assert CompileLet1(u, env, s, args, false) == CompileBound(u, env, Gen([MovEaxImm(Int(i))], s), name, body, false);
    if r.Ok? {
      assert [MovEaxImm(Int(i))] + [MovMemEax(-(d + 1))] + r.value.code ==
        [MovEaxImm(Int(i)), MovMemEax(-(d + 1))] + r.value.code;
    }
  }

  lemma OneSymbol(u: Unit, b: Builtins, fuel: nat, f: Fun, env: Env, s: Scope, rho: Rho, h: Heap, v: Variable)
    requires s.vars != [] && s.vars[0] == v == Variable("x", VarKind.Bound, v.number)
    ensures CompileBody(u, env, s, SCons(0, SSym("x"), SNil), false) == Ok(Gen([MovEaxMem(-(v.number + 1))], s))
    ensures EvalBody(u, b, fuel, f, rho, SCons(0, SSym("x"), SNil), h) == if "x" in rho then
      Some(Source.Out(rho["x"], h)) else None
  {
    assert Compile(u, env, s, SSym("x"), false) == Ok(Gen([MovEaxMem(-(v.number + 1))], s));
    assert CompileBody(u, env, s, SNil, false) == Ok(Gen([], s));
    assert CompileBody(u, env, s, SCons(0, SSym("x"), SNil), false) == Ok(Gen([MovEaxMem(-(v.number + 1))] + [], s));
    assert [MovEaxMem(-(v.number + 1))] + [] == [MovEaxMem(-(v.number + 1))];
  }

  /** The name of a let1 stays on the variable list after its body: `x` behind
      `(let1 (x 1) x)` compiles to the abandoned slot, where the source has no `x`. */
  lemma LetNameStays(u: Unit, b: Builtins, fuel: nat, f: Fun, env: Env, s: Scope, h: Heap)
    requires Slotted(s, 0)
    ensures var g := CompileLet1(u, env, s, SCons(0, Binding("x", 1), SCons(0, SSym("x"), SNil)), false);
      && g.Ok? && FindVariable(g.value.scope, "x") == (g.value.scope, Some(Variable("x", VarKind.Bound, 0)))
      && EvalSymbol(u, map[], "x", h) == None
  {
    hide CompileLet1, CompileBody;
    LetOfInt(u, b, fuel, f, env, s, 0, map[], h, "x", 1, SCons(0, SSym("x"), SNil));
    var v := Variable("x", VarKind.Bound, 0);
    OneSymbol(u, b, fuel, f, env, AddVariable(LocalAlloc(s).0, v), map["x" := Int(1)], h, v);
  }

  /** (let1 (x 1) (let1 (x 2) x) x) */
  const HIDING: Sexp :=
    SCons(0, Binding("x", 1), SCons(0, SCons(0, SSym("let1"), SCons(0, Binding("x", 2), SCons(0, SSym("x"), SNil))),
                                    SCons(0, SSym("x"), SNil)))

  /** So a let1 that hides a variable changes what the code behind it means: this one
      compiles, is 1, and its code leaves 2 in eax. */
  lemma HiddenName(u: Unit, b: Builtins, fuel: nat, f: Fun, env: Env, s: Scope, h: Heap, st: State) returns (st': State)
    requires Slotted(s, 0) && st.ebp + 2 <= |st.stack|
    requires var g := CompileLet1(u, env, s, HIDING, false); g.Ok? ==> CodeAt(st.code, st.pc, g.value.code)
    ensures CompileLet1(u, env, s, HIDING, false).Ok?
    ensures EvalLet1(u, b, fuel, f, map[], HIDING, h) == Some(Source.Out(Int(1), h))
    ensures Reaches(b, st, st') && st'.pc == st.pc + |CompileLet1(u, env, s, HIDING, false).value.code|
    ensures st'.eax == Int(2)
  {
    hide CompileLet1, CompileBody, EvalBody, EvalLet1, Reaches, CodeAt, Slotted;
    HiddenCode(u, b, fuel, f, env, s, h);
    ReachesSelf(b, st);
    var c1, c2 := [MovEaxImm(Int(1)), MovMemEax(-1), MovEaxImm(Int(2))], [MovMemEax(-2), MovEaxMem(-2), MovEaxMem(-2)];
    assert HIDDEN == c1 + c2;
    CodeSplit(st.code, st.pc, c1, c2);
    Code3(st.code, st.pc, MovEaxImm(Int(1)), MovMemEax(-1), MovEaxImm(Int(2)));
    Code3(st.code, st.pc + 3, MovMemEax(-2), MovEaxMem(-2), MovEaxMem(-2));
    var s1 := DoImm(b, st, st, Int(1));
    var s2 := DoStore(b, st, s1, -1);
    var s3 := DoImm(b, st, s2, Int(2));
    var s4 := DoStore(b, st, s3, -2);
    var s5 := DoLoad(b, st, s4, -2);
    st' := DoLoad(b, st, s5, -2);
  }

  const HIDDEN: seq<Instr> :=
    [MovEaxImm(Int(1)), MovMemEax(-1), MovEaxImm(Int(2)), MovMemEax(-2), MovEaxMem(-2), MovEaxMem(-2)]

  lemma HiddenCode(u: Unit, b: Builtins, fuel: nat, f: Fun, env: Env, s: Scope, h: Heap)
    requires Slotted(s, 0)
    ensures var g := CompileLet1(u, env, s, HIDING, false); g.Ok? && g.value.code == HIDDEN
    ensures EvalLet1(u, b, fuel, f, map[], HIDING, h) == Some(Source.Out(Int(1), h))
  {
    hide CompileLet1, CompileBody, EvalBody, EvalLet1;
    var last := SCons(0, SSym("x"), SNil);
    var args := SCons(0, Binding("x", 2), last);
    var v1, v2 := Variable("x", VarKind.Bound, 0), Variable("x", VarKind.Bound, 1);
    var s1 := AddVariable(LocalAlloc(s).0, v1);
    AllocSlot(s, 0);
    AllocSlot(s1, 1);
    var s2 := AddVariable(LocalAlloc(s1).0, v2);
    var rho := map["x" := Int(1)];
    OneSymbol(u, b, fuel, f, env, s2, rho["x" := Int(2)], h, v2);
    LetOfInt(u, b, fuel, f, env, s1, 1, rho, h, "x", 2, last);
    var s3 := LocalFree(s2, 1);
    OneSymbol(u, b, fuel, f, env, s3, rho, h, v2);
    FirstThen(u, b, fuel, f, env, s1, rho, h, args, last);
    LetOfInt(u, b, fuel, f, env, s, 0, map[], h, "x", 1, HIDING.cdr);
  }

  /** A let1 and more forms behind it. */
  lemma FirstThen(u: Unit, b: Builtins, fuel: nat, f: Fun, env: Env, s: Scope, rho: Rho, h: Heap, args: Sexp,
                  rest: Sexp)
    requires rest.SCons? && Listp(args) && Listp(rest) && CompileLet1(u, env, s, args, false).Ok?
    ensures var body, g := SCons(0, SCons(0, SSym("let1"), args), rest), CompileLet1(u, env, s, args, false).value;
      var r := CompileBody(u, env, g.scope, rest, false);
      && Listp(body)
      && (r.Ok? ==> CompileBody(u, env, s, body, false) == Ok(Gen(g.code + r.value.code, r.value.scope)))
      && (EvalLet1(u, b, fuel, f, rho, args, h).Some? ==>
            EvalBody(u, b, fuel, f, rho, body, h) ==
              EvalBody(u, b, fuel, f, rho, rest, EvalLet1(u, b, fuel, f, rho, args, h).value.heap))
  {
    hide CompileLet1, EvalLet1;
    var e := SCons(0, SSym("let1"), args);
    assert FormOf("let1") == FLet1;
    assert Compile(u, env, s, e, false) == CompileForm(u, env, s, "let1", args, false) ==
      CompileLet1(u, env, s, args, false);
    assert Eval(u, b, fuel, f, rho, e, h) == EvalForm(u, b, fuel, f, rho, "let1", args, h) ==
      EvalLet1(u, b, fuel, f, rho, args, h);
  }
}
