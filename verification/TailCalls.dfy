/** Tail self-calls: what they mean, and that the code runs any number of them in one
    frame.  Unlike `Correctness`, this also covers runs that never end. */
module TailCalls {
  import opened Wrappers
  import opened Sexps
  import opened Words
  import opened Machine
  import opened Scopes
  import opened ScopeFacts
  import opened Codegen
  import opened Source
  import opened CodegenFacts
  import opened Steps
  import opened Frames
  import opened Pieces
  import opened Correctness

  // ----- in the source -----

  /** The arguments of the self-call that evaluating `e` in tail position ends with, and
      the heap it finds; `None` if it ends otherwise.  Everything before that call is
      evaluated with `fuel`. */
  function TailArgs(u: Unit, b: Builtins, fuel: nat, f: Fun, rho: Rho, e: Sexp, h: Heap): Option<(seq<Word>, Heap)>
    decreases Size(e), 1
  {
    if !e.SCons? || !Listp(e) || !e.car.SSym? then None else
    match FormOf(e.car.name)
    case FIf => TailIf(u, b, fuel, f, rho, e.cdr, h)
    case FProgn => TailBody(u, b, fuel, f, rho, e.cdr, h)
    case FLet1 => TailLet1(u, b, fuel, f, rho, e.cdr, h)
    case FCall => if e.car.name == f.name then SelfArgs(u, b, fuel, f, rho, e.cdr, h) else None
    case _ => None
  }

  function SelfArgs(u: Unit, b: Builtins, fuel: nat, f: Fun, rho: Rho, args: Sexp, h: Heap): Option<(seq<Word>, Heap)> {
    match ParamsOf(u.defaults, f.arglist, NO_PARAMS)
    case None => None
    case Some(p) => EvalArgs(u, b, fuel, f, rho, p.args, args, h)
  }

  function TailIf(u: Unit, b: Builtins, fuel: nat, f: Fun, rho: Rho, args: Sexp, h: Heap): Option<(seq<Word>, Heap)>
    decreases Size(args), 0
  {
    if !(2 <= Length(args) <= 3) || !Listp(args) then None else
    match Eval(u, b, fuel, f, rho, args.car, h)
    case None => None
    case Some(c) => TailArgs(u, b, fuel, f, rho, Branch(args, c.value), c.heap)
  }

  /** The branch that is taken; nil if there is none. */
  function Branch(args: Sexp, test: Word): (e: Sexp)
    ensures args.SCons? ==> Size(e) < Size(args)
  {
    if test != Nil then Car(Cdr(args)) else Car(Cdr(Cdr(args)))
  }

  function TailBody(u: Unit, b: Builtins, fuel: nat, f: Fun, rho: Rho, body: Sexp, h: Heap): Option<(seq<Word>, Heap)>
    decreases Size(body), 0
  {
    if !body.SCons? then None
    else if body.cdr.SNil? then TailArgs(u, b, fuel, f, rho, body.car, h)
    else
      match Eval(u, b, fuel, f, rho, body.car, h)
      case None => None
      case Some(v) => TailBody(u, b, fuel, f, rho, body.cdr, v.heap)
  }

  function TailLet1(u: Unit, b: Builtins, fuel: nat, f: Fun, rho: Rho, args: Sexp, h: Heap): Option<(seq<Word>, Heap)>
    decreases Size(args), 0
  {
    if Length(args) < 2 || !Listp(args) || Length(args.car) != 2 || !Car(args.car).SSym? then None else
    match Eval(u, b, fuel, f, rho, Car(Cdr(args.car)), h)
    case None => None
    case Some(v) => TailBody(u, b, fuel, f, rho[Car(args.car).name := v.value], args.cdr, v.heap)
  }

  /** From one run of a function to the next by a tail self-call. */
  function TailNext(u: Unit, b: Builtins, fuel: nat, f: Fun, ws: seq<Word>, h: Heap): Option<(seq<Word>, Heap)> {
    match ParamsOf(u.defaults, f.arglist, NO_PARAMS)
    case None => None
    case Some(p) => if |ws| < |p.names| then None else TailBody(u, b, fuel, f, f.rho + Bind(p.names, ws), f.body, h)
  }

  /** `n` tail self-calls one after another. */
  function TailRun(u: Unit, b: Builtins, fuel: nat, f: Fun, ws: seq<Word>, h: Heap, n: nat): Option<(seq<Word>, Heap)>
    decreases n
  {
    if n == 0 then Some((ws, h)) else
    match TailNext(u, b, fuel, f, ws, h)
    case None => None
    case Some((ws', h')) => TailRun(u, b, fuel, f, ws', h', n - 1)
  }

  /** What the call then means: the value of the self-call. */
  function Again(u: Unit, b: Builtins, fuel: nat, f: Fun, next: (seq<Word>, Heap)): Option<Source.Out> {
    if fuel == 0 then None else Call(u, b, fuel - 1, f, next.0, next.1)
  }

  lemma {:induction false} TailMeaning(u: Unit, b: Builtins, fuel: nat, f: Fun, rho: Rho, e: Sexp, h: Heap)
    requires TailArgs(u, b, fuel, f, rho, e, h).Some?
    ensures Eval(u, b, fuel, f, rho, e, h) == Again(u, b, fuel, f, TailArgs(u, b, fuel, f, rho, e, h).value)
    decreases Size(e), 1
  {
    hide FormOf, EvalArgs, ParamsOf, Call, TailBody, EvalBody, TailLet1, EvalLet1, EvalIf, TailIf;
    match FormOf(e.car.name)
    case FIf => TailIfMeaning(u, b, fuel, f, rho, e.cdr, h);
    case FProgn => TailBodyMeaning(u, b, fuel, f, rho, e.cdr, h);
    case FLet1 => TailLet1Meaning(u, b, fuel, f, rho, e.cdr, h);
    case FCall => SelfCallMeaning(u, b, fuel, f, rho, e.cdr, h);
    case _ => assert false;
  }

  lemma SelfCallMeaning(u: Unit, b: Builtins, fuel: nat, f: Fun, rho: Rho, args: Sexp, h: Heap)
    requires SelfArgs(u, b, fuel, f, rho, args, h).Some?
    ensures EvalCall(u, b, fuel, f, rho, f.name, args, h) ==
      Again(u, b, fuel, f, SelfArgs(u, b, fuel, f, rho, args, h).value)
  {
    hide EvalArgs, ParamsOf, Call;
  }

  lemma {:induction false} TailIfMeaning(u: Unit, b: Builtins, fuel: nat, f: Fun, rho: Rho, args: Sexp, h: Heap)
    requires TailIf(u, b, fuel, f, rho, args, h).Some?
    ensures EvalIf(u, b, fuel, f, rho, args, h) == Again(u, b, fuel, f, TailIf(u, b, fuel, f, rho, args, h).value)
    decreases Size(args), 0
  {
    hide TailArgs, Eval;
    var c := Eval(u, b, fuel, f, rho, args.car, h).value;
    TailMeaning(u, b, fuel, f, rho, Branch(args, c.value), c.heap);
    assert Listp(args.cdr) && Length(args.cdr) >= 1;
    if c.value == Nil && !args.cdr.cdr.SCons? { NoTail(u, b, fuel, f, rho, c.heap); }
  }

  lemma NoTail(u: Unit, b: Builtins, fuel: nat, f: Fun, rho: Rho, h: Heap)
    ensures TailArgs(u, b, fuel, f, rho, SNil, h) == None
  {
  }

  lemma {:induction false} TailBodyMeaning(u: Unit, b: Builtins, fuel: nat, f: Fun, rho: Rho, body: Sexp, h: Heap)
    requires TailBody(u, b, fuel, f, rho, body, h).Some?
    ensures EvalBody(u, b, fuel, f, rho, body, h) == Again(u, b, fuel, f, TailBody(u, b, fuel, f, rho, body, h).value)
    decreases Size(body), 0
  {
    hide TailArgs, Eval;
    if body.cdr.SNil? {
      TailMeaning(u, b, fuel, f, rho, body.car, h);
    } else {
      TailBodyMeaning(u, b, fuel, f, rho, body.cdr, Eval(u, b, fuel, f, rho, body.car, h).value.heap);
    }
  }

  lemma {:induction false} TailLet1Meaning(u: Unit, b: Builtins, fuel: nat, f: Fun, rho: Rho, args: Sexp, h: Heap)
    requires TailLet1(u, b, fuel, f, rho, args, h).Some?
    ensures EvalLet1(u, b, fuel, f, rho, args, h) == Again(u, b, fuel, f, TailLet1(u, b, fuel, f, rho, args, h).value)
    decreases Size(args), 0
  {
    hide TailBody, EvalBody, Eval;
    var v := Eval(u, b, fuel, f, rho, Car(Cdr(args.car)), h).value;
    TailBodyMeaning(u, b, fuel, f, rho[Car(args.car).name := v.value], args.cdr, v.heap);
  }

  /** A run that ends with a tail self-call has the value of that call. */
  lemma NextMeaning(u: Unit, b: Builtins, fuel: nat, f: Fun, ws: seq<Word>, h: Heap)
    requires TailNext(u, b, fuel, f, ws, h).Some?
    ensures Call(u, b, fuel, f, ws, h) == Again(u, b, fuel, f, TailNext(u, b, fuel, f, ws, h).value)
  {
    hide TailBody, EvalBody;
    var p := ParamsOf(u.defaults, f.arglist, NO_PARAMS).value;
    TailBodyMeaning(u, b, fuel, f, f.rho + Bind(p.names, ws), f.body, h);
  }

  // ----- on the machine -----

  /** From a state `st` inside a run of `a` the function was entered again, with the
      arguments `ws`: same return address, same caller, same height, same words below. */
  ghost predicate ReEntered(a: Act, ws: seq<Word>, h: Heap, st: State, st': State)
    requires Shape(a, st)
  {
    && Entered(a, ws, h, st') && |ws| == a.Real()
    && |st'.stack| == st.ebp - 1 && st'.stack[st.ebp - 2] == st.stack[st.ebp - 2]
      && Frame(st'.ebp) == st.stack[st.ebp - 1]
    && (forall j :: 0 <= j < st.ebp - 2 - a.Real() ==> st'.stack[j] == st.stack[j])
    && st'.edi == st.edi && st.clos <= st'.clos
  }

  lemma ReEnteredFrom(a: Act, ws: seq<Word>, h: Heap, d: nat, st: State, st1: State, st': State)
    requires Shape(a, st) && Shape(a, st1) && Pushed(st, st1, [], d, a.Entries()) && ReEntered(a, ws, h, st1, st')
    ensures ReEntered(a, ws, h, st, st')
  {
    hide Entered;
  }

  lemma {:induction false} TailExpr(b: Builtins, fuel: nat, a: Act, s: Scope, e: Sexp, g: Gen, d: nat, rho: Rho,
                                    vis: set<string>, h: Heap, ws: seq<Word>, h': Heap, st: State)
    returns (st': State)
    requires Compile(a.u, a.f.env, s, e, true) == Ok(g) && TailArgs(a.u, b, fuel, a.f, rho, e, h) == Some((ws, h'))
    requires Tidy(a.u, e, vis) && d + Need(e) <= a.Entries() && Before(a, s, g, d, rho, vis, h, st) && Shape(a, st)
    ensures Reaches(b, st, st') && ReEntered(a, ws, h', st, st')
    decreases Size(e), 1
  {
    hide Reaches, ReEntered, Before, Shape, FormOf, CompileIf, CompileBody, CompileLet1, CompileCall;
    hide TailIf, TailBody, TailLet1, SelfArgs, TidyEach, NeedEach, TidyFunction;
    var name, args := e.car.name, e.cdr;
    match FormOf(name)
    case FIf => st' := RunIf(b, fuel, a, s, args, g, d, rho, vis, h, ws, h', st);
    case FProgn => st' := RunBody(b, fuel, a, s, args, g, d, rho, vis, h, ws, h', st);
    case FLet1 => st' := RunLet1(b, fuel, a, s, args, g, d, rho, vis, h, ws, h', st);
    case FCall => st' := RunSelf(b, fuel, a, s, name, args, g, d, rho, vis, h, ws, h', st);
    case _ => assert false;
  }

  lemma {:induction false} RunIf(b: Builtins, fuel: nat, a: Act, s: Scope, args: Sexp, g: Gen, d: nat, rho: Rho,
                                 vis: set<string>, h: Heap, ws: seq<Word>, h': Heap, st: State) returns (st': State)
    requires CompileIf(a.u, a.f.env, s, args, true) == Ok(g)
    requires TailIf(a.u, b, fuel, a.f, rho, args, h) == Some((ws, h'))
    requires TidyEach(a.u, args, vis) && d + NeedEach(args) <= a.Entries() && Before(a, s, g, d, rho, vis, h, st)
    requires Shape(a, st)
    ensures Reaches(b, st, st') && ReEntered(a, ws, h', st, st')
    decreases Size(args), 0
  {
    hide Compile, CompileBranches, Eval, Tidy, Need, Before, Reaches, Shape, ReEntered, TailArgs, Here, Branches,
         Normal;
    hide IfPlaced, HeapRel, Ready, Sound, Pushed, CodeAt;
    BeforeFacts(a, s, g, d, rho, vis, h, st);
    assert Listp(args) && Length(args) >= 2;
    assert Listp(args.cdr) && Length(args.cdr) >= 1;
    assert NeedEach(args.cdr) <= NeedEach(args) && TidyEach(a.u, args.cdr.cdr, vis);
    var e, rest := args.cdr.car, args.cdr.cdr;
    var c, v := Compile(a.u, a.f.env, s, args.car, false).value, Eval(a.u, b, fuel, a.f, rho, args.car, h).value;
    FormReady(a, s, args.car, c, d, rho, vis, h, st);
    var s2, t, f := BranchParts(a, c, e, rest, true, g, vis, d, st.pc);
    BranchesFacts(a, c.scope, s2, e, rest, true, t, f, vis, d);
    Earlier(a, s, c, vis, d);
    BeforeHolds(a, s, c, d, rho, vis, h, st);
    var st1 := CorrectStep(b, fuel, a, s, args.car, c, d, rho, vis, h, v, st);
    NormalPc(a, st, st1, st.pc + |c.code|, v, d);
    st' := RunTaken(b, fuel, a, c.scope, s2, args, t, f, d, rho, vis, v, ws, h', st, st1, st.pc + |g.code|);
  }

  /** From the test of an `if` on. */
  lemma {:induction false} RunTaken(b: Builtins, fuel: nat, a: Act, s1: Scope, s2: Scope, args: Sexp, t: Gen, f: Gen,
                                    d: nat, rho: Rho, vis: set<string>, v: Out, ws: seq<Word>, h': Heap, st: State,
                                    st1: State, fin: nat)
    returns (st': State)
    requires args.SCons? && args.cdr.SCons? && Branches(a, s1, s2, args.cdr.car, args.cdr.cdr, true, t, f, vis, d)
    requires IfPlaced(a.g.code, st1.pc + 2, t.code, f.code, s1.nextpc, fin)
    requires TailArgs(a.u, b, fuel, a.f, rho, Branch(args, v.value), v.heap) == Some((ws, h'))
    requires Tidy(a.u, args.cdr.car, vis) && d + Need(args.cdr.car) <= a.Entries()
    requires TidyEach(a.u, args.cdr.cdr, vis) && d + NeedEach(args.cdr.cdr) <= a.Entries()
    requires Shape(a, st) && Here(a, s1, d, rho, vis, v.heap, st1) && Reaches(b, st, st1)
    requires Normal(a, st, st1, st1.pc, v, d)
    ensures Reaches(b, st, st') && ReEntered(a, ws, h', st, st')
    decreases Size(args), 0, 0
  {
    hide Compile, CompileElse, Tidy, Need, Before, Reaches, Shape, ReEntered, TailArgs, Here, Branches, Normal,
         IfPlaced, HeapRel, Sound, Pushed, CodeAt;
    hide Frees, Evolved;
    var e, rest := args.cdr.car, args.cdr.cdr;
    BranchesFacts(a, s1, s2, e, rest, true, t, f, vis, d);
    var st2 := DoBranch(b, a, s1, s2, t.code, f.code, d, rho, vis, v, st, st1, fin);
    HereShape(a, s2, d, rho, vis, v.heap, st2);
    if v.value != Nil {
      ThenPlaced(a, st2.pc, t.code, f.code, s1.nextpc, fin);
      BeforeHolds(a, s2, t, d, rho, vis, v.heap, st2);
      st' := TailExpr(b, fuel, a, s2, e, t, d, rho, vis, v.heap, ws, h', st2);
    } else {
      if !rest.SCons? { NoTail(a.u, b, fuel, a.f, rho, v.heap); }
      ElseCode(a.u, a.f.env, t.scope, rest);
      ElsePlaced(a, st1.pc + 2, t.code, f.code, s1.nextpc, fin);
      SoundFacts(s2, t, vis, d, a.Entries());
      st' := RunElse(b, fuel, a, s2, t.scope, rest.car, f, d, rho, vis, v.heap, ws, h', st2, s1.nextpc);
    }
    ReachesTrans(b, st, st2, st');
    ReEnteredFrom(a, ws, h', d, st, st2, st');
  }

  lemma ElseCode(u: Unit, env: Env, s: Scope, rest: Sexp)
    requires rest.SCons?
    ensures CompileElse(u, env, s, rest, true) == Compile(u, env, s, rest.car, true)
  {
    hide Compile;
  }

  lemma ThenPlaced(a: Act, pc: nat, t: seq<Instr>, f: seq<Instr>, l: nat, fin: nat)
    requires IfPlaced(a.g.code, pc, t, f, l, fin)
    ensures CodeAt(a.g.code, pc, t)
  {
  }

  lemma ElsePlaced(a: Act, pc: nat, t: seq<Instr>, f: seq<Instr>, l: nat, fin: nat)
    requires IfPlaced(a.g.code, pc, t, f, l, fin)
    ensures pc + |t| + 1 < |a.g.code| && a.g.code[pc + |t| + 1] == Label(l) && CodeAt(a.g.code, pc + |t| + 2, f)
  {
  }

  /** The second branch, from its label on. */
  lemma {:induction false} RunElse(b: Builtins, fuel: nat, a: Act, s0: Scope, s: Scope, e: Sexp, f: Gen, d: nat,
                                   rho: Rho, vis: set<string>, h: Heap, ws: seq<Word>, h': Heap, st: State, l: nat)
    returns (st': State)
    requires Compile(a.u, a.f.env, s, e, true) == Ok(f) && TailArgs(a.u, b, fuel, a.f, rho, e, h) == Some((ws, h'))
    requires Tidy(a.u, e, vis) && d + Need(e) <= a.Entries() && Here(a, s0, d, rho, vis, h, st) && Shape(a, st)
    requires Evolved(s0, s, vis, d, a.Entries()) && Frees(s.vars) <= a.Free() && Frees(f.scope.vars) <= a.Free()
    requires st.pc < |a.g.code| && a.g.code[st.pc] == Label(l) && CodeAt(a.g.code, st.pc + 1, f.code)
    ensures Reaches(b, st, st') && ReEntered(a, ws, h', st, st')
    decreases Size(e), 2
  {
    hide Compile, Tidy, Need, Before, Reaches, ReEntered, TailArgs, Here, HeapRel, Evolved, CodeAt, Pushed;
    ReachesSelf(b, st);
    var st1 := DoLabel(b, st, st, l);
    Moved(a, s0, s, d, rho, vis, h, st, st1);
    HereShape(a, s, d, rho, vis, h, st1);
    BeforeHolds(a, s, f, d, rho, vis, h, st1);
    st' := TailExpr(b, fuel, a, s, e, f, d, rho, vis, h, ws, h', st1);
    ReachesTrans(b, st, st1, st');
    ReEnteredFrom(a, ws, h', d, st, st1, st');
  }

  lemma {:induction false} RunBody(b: Builtins, fuel: nat, a: Act, s: Scope, body: Sexp, g: Gen, d: nat, rho: Rho,
                                   vis: set<string>, h: Heap, ws: seq<Word>, h': Heap, st: State) returns (st': State)
    requires CompileBody(a.u, a.f.env, s, body, true) == Ok(g)
    requires TailBody(a.u, b, fuel, a.f, rho, body, h) == Some((ws, h'))
    requires TidyEach(a.u, body, vis) && d + NeedEach(body) <= a.Entries() && Before(a, s, g, d, rho, vis, h, st)
    requires Shape(a, st)
    ensures Reaches(b, st, st') && ReEntered(a, ws, h', st, st')
    decreases Size(body), 0
  {
    hide Compile, CompileBody, Eval, Tidy, Need, Here, Sound, Reaches, HeapRel, Frees, Before, Pushed, Shape,
         TailArgs, ReEntered;
    BeforeFacts(a, s, g, d, rho, vis, h, st);
    var c, r := BodyCode(a.u, a.f.env, s, body, true, g);
    if body.cdr.SNil? {
      st' := TailExpr(b, fuel, a, s, body.car, c, d, rho, vis, h, ws, h', st);
    } else {
      var v := Eval(a.u, b, fuel, a.f, rho, body.car, h).value;
      BodyParts(a, s, body, true, c, r, g, d, rho, vis, h, st);
      var st1 := CorrectStep(b, fuel, a, s, body.car, c, d, rho, vis, h, v, st);
      BeforeHolds(a, c.scope, r, d, rho, vis, v.heap, st1);
      BeforeFacts(a, c.scope, r, d, rho, vis, v.heap, st1);
      st' := RunBody(b, fuel, a, c.scope, body.cdr, r, d, rho, vis, v.heap, ws, h', st1);
      ReachesTrans(b, st, st1, st');
      ReEnteredFrom(a, ws, h', d, st, st1, st');
    }
  }

  lemma {:induction false} RunLet1(b: Builtins, fuel: nat, a: Act, s: Scope, args: Sexp, g: Gen, d: nat, rho: Rho,
                                   vis: set<string>, h: Heap, ws: seq<Word>, h': Heap, st: State) returns (st': State)
    requires CompileLet1(a.u, a.f.env, s, args, true) == Ok(g)
    requires TailLet1(a.u, b, fuel, a.f, rho, args, h) == Some((ws, h'))
    requires var name := Car(Car(args)); Tidy(a.u, Car(Cdr(Car(args))), vis) && name.SSym? && name.name !in vis
                                         && TidyEach(a.u, Cdr(args), vis + {name.name})
    requires d + Need(Car(Cdr(Car(args)))) <= a.Entries() && d + 1 + NeedEach(Cdr(args)) <= a.Entries()
    requires Before(a, s, g, d, rho, vis, h, st) && Shape(a, st)
    ensures Reaches(b, st, st') && ReEntered(a, ws, h', st, st')
    decreases Size(args), 0
  {
    hide Compile, CompileBound, Eval, TailBody, Tidy, TidyEach, Need, NeedEach, Before, Reaches, Shape, Here, Pushed,
         ReEntered, Normal, Sound, Ready, HeapRel, CodeAt, LocalAlloc;
    BeforeFacts(a, s, g, d, rho, vis, h, st);
    var e, name, body := Car(Cdr(args.car)), Car(args.car).name, args.cdr;
    var c, v := Compile(a.u, a.f.env, s, e, false).value, Eval(a.u, b, fuel, a.f, rho, e, h).value;
    assert Size(e) < Size(args) && Size(body) < Size(args);
    FormReady(a, s, e, c, d, rho, vis, h, st);
    var i, s2, r := BoundCode(a.u, a.f.env, s, c, name, body, true, g, vis, d, a.Entries());
    LetParts(a, s, c, s2, body, true, r, g, name, e, d, rho, vis, h, st);
    var st1 := CorrectStep(b, fuel, a, s, e, c, d, rho, vis, h, v, st);
    NormalPc(a, st, st1, st.pc + |c.code|, v, d);
    var st2 := DoBind(b, a, c, name, s2, d, rho, vis, v, st, st1, st.pc + |c.code|);
    BeforeHolds(a, s2, r, d + 1, rho[name := v.value], vis + {name}, v.heap, st2);
    BeforeFacts(a, s2, r, d + 1, rho[name := v.value], vis + {name}, v.heap, st2);
    st' := RunBody(b, fuel, a, s2, body, r, d + 1, rho[name := v.value], vis + {name}, v.heap, ws, h', st2);
    ReachesTrans(b, st, st2, st');
    ReEnteredFrom(a, ws, h', d, st, st2, st');
  }

  lemma RunSelf(b: Builtins, fuel: nat, a: Act, s: Scope, name: string, args: Sexp, g: Gen, d: nat, rho: Rho,
                vis: set<string>, h: Heap, ws: seq<Word>, h': Heap, st: State) returns (st': State)
    requires CompileCall(a.u, a.f.env, s, name, args, true) == Ok(g)
    requires SelfArgs(a.u, b, fuel, a.f, rho, args, h) == Some((ws, h'))
    requires TidyEach(a.u, args, vis) && d + NeedEach(args) <= a.Entries() && Before(a, s, g, d, rho, vis, h, st)
    requires Shape(a, st)
    requires name == a.f.name && Listp(args)
    ensures Reaches(b, st, st') && ReEntered(a, ws, h', st, st')
  {
    hide CompileCall, CompileArgs, EvalArgs, ParamsOf, TidyEach, NeedEach, Reaches, Shape, HeapRel, Frees, Compiled,
         CodeAt, Before, Here;
    hide EdiOk, Pushed, MoveArgs, Located, Ready, Entered;
    BeforeFacts(a, s, g, d, rho, vis, h, st);
    HereFacts(a, s, d, rho, vis, h, st);
    var c := SelfCode(a.u, a.f.env, s, name, args, true, g);
    ActParams(a);
    var n := s.args.Real();
    CodeSplit3(a.g.code, st.pc, c.code, MoveArgs(0, n) + BACK_TO_ENTRY, [AddEsp(n)]);
    BeforeHolds(a, s, c, d, rho, vis, h, st);
    var st1 := CorrectArgs(b, fuel, a, s, s.args, args, c, d, rho, vis, h, ws, h', st);
    HereEdi(a, c.scope, d, rho, vis, h', st1);
    st' := TailCall(b, a, ws, h', d, st, st1);
    SelfReEntered(a, ws, h', d, st, st1, st');
  }

  lemma SelfReEntered(a: Act, ws: seq<Word>, h: Heap, d: nat, st: State, st1: State, st': State)
    requires Shape(a, st) && Entered(a, ws, h, st') && |ws| == a.Real() && Pushed(st, st1, ws, d, a.Entries())
    requires |st'.stack| == st.ebp - 1 && st'.stack[st.ebp - 2] == st.stack[st.ebp - 2]
    requires Frame(st'.ebp) == st.stack[st.ebp - 1]
    requires forall j :: 0 <= j < st.ebp - 2 - a.Real() ==> st'.stack[j] == st.stack[j]
    requires st' == st1.(pc := 0, eax := st'.eax, ebp := st'.ebp, stack := st'.stack)
    ensures ReEntered(a, ws, h, st, st')
  {
    hide Entered;
  }

  // ----- any number of them -----

  /** Two entries of a function: the same return address, caller and stack height, and
      below the arguments the same words. */
  ghost predicate SameFrame(a: Act, e: State, e': State) {
    && |e'.stack| == |e.stack| > a.Real() && e'.stack[|e.stack| - 1] == e.stack[|e.stack| - 1]
    && (forall j :: 0 <= j < |e.stack| - 1 - a.Real() ==> e'.stack[j] == e.stack[j])
    && e'.ebp == e.ebp && e'.edi == e.edi && e.clos <= e'.clos
  }

  /** Whenever the source ends a run with a tail self-call, the machine goes from entry to
      entry. */
  lemma TailStep(b: Builtins, fuel: nat, a: Act, ws: seq<Word>, h: Heap, ws': seq<Word>, h': Heap, e: State)
    returns (e': State)
    requires Entered(a, ws, h, e) && TailNext(a.u, b, fuel, a.f, ws, h) == Some((ws', h'))
    ensures Reaches(b, e, e') && Entered(a, ws', h', e') && SameFrame(a, e, e')
  {
    hide Reaches, Compiled, HeapRel, EdiOk, CompileBody, TailBody, TidyEach, NeedEach, Setup, Here, Shape, CodeAt,
         Frees, ParamsOf, Bind;
    var (s1, g) := BodyOf(a);
    BodyFacts(a);
    var p := ParamsOf(a.u.defaults, a.f.arglist, NO_PARAMS).value;
    var st := Enter(b, a, ws, h, e);
    var rho, vis := a.f.rho + Bind(p.names, ws), a.vis + Names(p.names);
    BodyPlaced(a, g);
    BeforeHolds(a, s1, g, 0, rho, vis, h, st);
    HereShape(a, s1, 0, rho, vis, h, st);
    e' := RunBody(b, fuel, a, s1, a.f.body, g, 0, rho, vis, h, ws', h', st);
    ReachesTrans(b, e, st, e');
    EntrySame(a, ws', h', e, st, e');
  }

  lemma EntrySame(a: Act, ws: seq<Word>, h: Heap, e: State, st: State, e': State)
    requires Shape(a, st) && ReEntered(a, ws, h, st, e') && |e.stack| > a.Real()
    requires st == e.(pc := 3, ebp := |e.stack| + 1, stack := e.stack + [Frame(e.ebp)] + seq(a.Entries(), _ => Junk))
    ensures SameFrame(a, e, e')
  {
    hide Entered;
    assert st.stack[|e.stack|] == Frame(e.ebp);
    assert forall j :: 0 <= j < |e.stack| ==> st.stack[j] == e.stack[j];
  }

  /** Any number of tail self-calls, also when they never end: every entry has the stack
      height, the return address and the caller of the first, and the words below the
      arguments are untouched; so the stack does not grow. */
  lemma {:induction false} TailCallsInPlace(b: Builtins, fuel: nat, a: Act, ws: seq<Word>, h: Heap, n: nat,
                                            ws': seq<Word>, h': Heap, e: State)
    returns (e': State)
    requires Entered(a, ws, h, e) && TailRun(a.u, b, fuel, a.f, ws, h, n) == Some((ws', h'))
    ensures Reaches(b, e, e') && Entered(a, ws', h', e') && SameFrame(a, e, e')
    decreases n
  {
    hide Reaches, TailNext, Compiled, HeapRel, EdiOk;
    if n == 0 {
      ReachesSelf(b, e);
      e' := e;
    } else {
      var (ws1, h1) := TailNext(a.u, b, fuel, a.f, ws, h).value;
      var e1 := TailStep(b, fuel, a, ws, h, ws1, h1, e);
      e' := TailCallsInPlace(b, fuel, a, ws1, h1, n - 1, ws', h', e1);
      ReachesTrans(b, e, e1, e');
    }
  }
}
