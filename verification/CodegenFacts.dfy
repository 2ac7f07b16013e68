/** Static facts about generated code: scopes evolve in a disciplined way and every
    label is placed at most once. */
module CodegenFacts {
  import opened Wrappers
  import opened Sexps
  import opened Words
  import opened Scopes
  import opened ScopeFacts
  import opened Codegen
  import opened Source

  function Max(a: nat, b: nat): nat { if a < b then b else a }

  // ----- what the correctness theorem asks of a program -----

  /** The number of stack slots a form uses at once: the depth of its nested let1s. */
  function Need(e: Sexp): nat
    decreases Size(e), 1
  {
    if e.SCons? && e.car.SSym? then NeedForm(e.car.name, e.cdr) else 0
  }

  function NeedForm(name: string, args: Sexp): nat
    decreases Size(args), 2
  {
    match FormOf(name)
    case FLet1 => Max(Need(Car(Cdr(Car(args)))), 1 + NeedEach(Cdr(args)))
    case FBackquote => NeedTemplate(Car(args))
    case FQuote => 0
    case FLambda => 0
    case _ => NeedEach(args)
  }

  function NeedEach(items: Sexp): nat
    decreases Size(items), 0
  {
    if items.SCons? then Max(Need(items.car), NeedEach(items.cdr)) else 0
  }

  function NeedTemplate(val: Sexp): nat
    decreases Size(val), 1
  {
    if !Listp(val) then 0
    else if SymStrEq(Car(val), "unquote") then Need(Car(Cdr(val)))
    else NeedItems(val)
  }

  function NeedItems(items: Sexp): nat
    decreases Size(items), 0
  {
    if !items.SCons? then 0
    else Max(if IsSplice(items.car) then Need(Car(Cdr(items.car))) else NeedTemplate(items.car), NeedItems(items.cdr))
  }

  /** The frame size that the first pass reserves for a function body. */
  function FrameEntries(body: Sexp): nat {
    WalkEach(FreshScope("", None), body, false).entries
  }

  /** No let1 hides a variable that is visible where it stands, and the frame of every
      function inside is large enough for its let1s. */
  predicate Tidy(u: Unit, e: Sexp, vis: set<string>)
    decreases Size(e), 1
  {
    e.SCons? && e.car.SSym? ==> TidyForm(u, e.car.name, e.cdr, vis)
  }

  predicate TidyForm(u: Unit, name: string, args: Sexp, vis: set<string>)
    decreases Size(args), 3
  {
    match FormOf(name)
    case FLet1 =>
      var x := Car(Car(args));
      && Tidy(u, Car(Cdr(Car(args))), vis)
      && x.SSym? && x.name !in vis
      && TidyEach(u, Cdr(args), vis + {x.name})
    case FBackquote => TidyTemplate(u, Car(args), vis)
    case FQuote => true
    case FLambda => TidyFunction(u, Car(args), Cdr(args), vis)
    case _ => TidyEach(u, args, vis)
  }

  predicate TidyEach(u: Unit, items: Sexp, vis: set<string>)
    decreases Size(items), 0
  {
    items.SCons? ==> Tidy(u, items.car, vis) && TidyEach(u, items.cdr, vis)
  }

  predicate TidyTemplate(u: Unit, val: Sexp, vis: set<string>)
    decreases Size(val), 1
  {
    if !Listp(val) then true
    else if SymStrEq(Car(val), "unquote") then Tidy(u, Car(Cdr(val)), vis)
    else TidyItems(u, val, vis)
  }

  predicate TidyItems(u: Unit, items: Sexp, vis: set<string>)
    decreases Size(items), 0
  {
    items.SCons? ==>
      && (if IsSplice(items.car) then Tidy(u, Car(Cdr(items.car)), vis) else TidyTemplate(u, items.car, vis))
      && TidyItems(u, items.cdr, vis)
  }

  predicate TidyFunction(u: Unit, arglist: Sexp, body: Sexp, vis: set<string>)
    decreases Size(body), 2
  {
    && ParamsOf(u.defaults, arglist, NO_PARAMS).Some?
    && NeedEach(body) <= FrameEntries(body)
    && TidyEach(u, body, vis + Names(ParamsOf(u.defaults, arglist, NO_PARAMS).value.names))
  }

  function Names(names: seq<string>): set<string> {
    set x | x in names
  }

  // ----- labels -----

  /** The labels placed in `code` are distinct and lie in [lo, hi). */
  ghost predicate Labels(code: seq<Instr>, lo: nat, hi: nat) {
    && (forall i :: 0 <= i < |code| && code[i].Label? ==> lo <= code[i].l < hi)
    && (forall i, j :: 0 <= i < j < |code| && code[i].Label? && code[j].Label? ==> code[i].l != code[j].l)
  }

  predicate NoLabels(code: seq<Instr>) {
    forall i :: 0 <= i < |code| ==> !code[i].Label?
  }

  lemma LabelsConcat(a: seq<Instr>, b: seq<Instr>, lo: nat, mid: nat, hi: nat)
    requires Labels(a, lo, mid) && Labels(b, mid, hi) && lo <= mid <= hi
    ensures Labels(a + b, lo, hi)
  {
  }

  lemma LabelsAround(a: seq<Instr>, b: seq<Instr>, c: seq<Instr>, lo: nat, hi: nat)
    requires NoLabels(a) && Labels(b, lo, hi) && NoLabels(c)
    ensures Labels(a + b + c, lo, hi)
  {
    assert Labels(a + b, lo, hi);
  }

  lemma LabelsPair(a: seq<Instr>, b: seq<Instr>, c: seq<Instr>, lo: nat, mid: nat, hi: nat)
    requires Labels(a, lo, mid) && Labels(b, mid, hi) && NoLabels(c) && lo <= mid <= hi
    ensures Labels(a + b + c, lo, hi)
  {
    LabelsConcat(a, b, lo, mid, hi);
  }

  /** The code of `if`: its two labels are allocated between test and branches. */
  lemma LabelsIf(c: seq<Instr>, t: seq<Instr>, f: seq<Instr>, n0: nat, n1: nat, n2: nat, n3: nat)
    requires Labels(c, n0, n1) && Labels(t, n1 + 2, n2) && Labels(f, n2, n3) && n0 <= n1 && n1 + 2 <= n2 <= n3
    ensures Labels(IfCode(c, t, f, n1, n1 + 1), n0, n3)
  {
    var a := c + [CmpEax(Nil), Je(n1)];
    assert Labels(a, n0, n1);
    var b := t + [Jmp(n1 + 1), Label(n1)];
    assert Labels(b, n1, n2) && forall i :: 0 <= i < |b| && b[i].Label? ==> b[i].l != n1 + 1;
    LabelsConcat(a, b, n0, n1, n2);
    var ab := a + b;
    assert forall i :: 0 <= i < |ab| && ab[i].Label? ==> ab[i].l != n1 + 1;
    var d := f + [Label(n1 + 1)];
    assert Labels(d, n1, n3);
    assert IfCode(c, t, f, n1, n1 + 1) == ab + d;
    LabelsConcat(ab, f, n0, n2, n3);
    assert ab + d == (ab + f) + [Label(n1 + 1)];
  }

  // ----- every form -----

  /** What generating `g` from `s` guarantees; kept folded, see `SoundFacts`. */
  ghost predicate Sound(s: Scope, g: Gen, vis: set<string>, d: nat, n: nat) {
    forall x: Gen {:trigger Opened(x)} :: x == g ==>
      Evolved(s, x.scope, vis, d, n) && Labels(x.code, s.nextpc, x.scope.nextpc)
  }

  lemma SoundFacts(s: Scope, g: Gen, vis: set<string>, d: nat, n: nat)
    requires Sound(s, g, vis, d, n)
    ensures Evolved(s, g.scope, vis, d, n) && Labels(g.code, s.nextpc, g.scope.nextpc)
  {
    assert Opened(g);
  }

  lemma SoundReady(s: Scope, g: Gen, vis: set<string>, d: nat, n: nat)
    requires Ready(s, d, n) && Sound(s, g, vis, d, n)
    ensures Ready(g.scope, d, n)
  {
    SoundFacts(s, g, vis, d, n);
  }

  /** One piece of code after another, with label-free glue around the second. */
  lemma SoundThen(s: Scope, a: Gen, glue: seq<Instr>, b: Gen, end: seq<Instr>, vis: set<string>, d: nat, n: nat)
    requires Sound(s, a, vis, d, n) && Sound(a.scope, b, vis, d, n) && NoLabels(glue) && NoLabels(end)
    ensures Sound(s, Gen(a.code + glue + b.code + end, b.scope), vis, d, n)
  {
    SoundFacts(s, a, vis, d, n);
    SoundFacts(a.scope, b, vis, d, n);
    EvolvedTrans(s, a.scope, b.scope, vis, d, n);
    LabelsPair(a.code, [], glue, s.nextpc, a.scope.nextpc, a.scope.nextpc);
    assert a.code + [] + glue == a.code + glue;
    LabelsPair(a.code + glue, b.code, end, s.nextpc, a.scope.nextpc, b.scope.nextpc);
  }

  lemma SoundGlued(s: Scope, a: Gen, glue: seq<Instr>, b: Gen, vis: set<string>, d: nat, n: nat)
    requires Sound(s, a, vis, d, n) && Sound(a.scope, b, vis, d, n) && NoLabels(glue)
    ensures Sound(s, Gen(a.code + glue + b.code, b.scope), vis, d, n)
  {
    SoundThen(s, a, glue, b, [], vis, d, n);
    assert a.code + glue + b.code + [] == a.code + glue + b.code;
  }

  lemma SoundPrefixed(s: Scope, front: seq<Instr>, a: Gen, vis: set<string>, d: nat, n: nat)
    requires Sound(s, a, vis, d, n) && NoLabels(front)
    ensures Sound(s, Gen(front + a.code, a.scope), vis, d, n)
  {
    SoundWrapped(s, front, a, [], vis, d, n);
    assert front + a.code + [] == front + a.code;
  }

  lemma SoundJoin(s: Scope, a: Gen, b: Gen, end: seq<Instr>, vis: set<string>, d: nat, n: nat)
    requires Sound(s, a, vis, d, n) && Sound(a.scope, b, vis, d, n) && NoLabels(end)
    ensures Sound(s, Gen(a.code + b.code + end, b.scope), vis, d, n)
  {
    SoundThen(s, a, [], b, end, vis, d, n);
    assert a.code + [] == a.code;
  }

  lemma SoundWrapped(s: Scope, front: seq<Instr>, a: Gen, end: seq<Instr>, vis: set<string>, d: nat, n: nat)
    requires Sound(s, a, vis, d, n) && NoLabels(front) && NoLabels(end)
    ensures Sound(s, Gen(front + a.code + end, a.scope), vis, d, n)
  {
    SoundFacts(s, a, vis, d, n);
    LabelsAround(front, a.code, end, s.nextpc, a.scope.nextpc);
  }

  lemma SoundPlain(s: Scope, code: seq<Instr>, s': Scope, vis: set<string>, d: nat, n: nat)
    requires Ready(s, d, n) && Grown(s, s') && WellNumbered(s') && NoLabels(code)
    ensures Sound(s, Gen(code, s'), vis, d, n)
  {
    GrownEvolves(s, s', vis, d, n);
    assert Labels(code, s.nextpc, s'.nextpc);
  }

  lemma SoundSelf(s: Scope, code: seq<Instr>, vis: set<string>, d: nat, n: nat)
    requires Ready(s, d, n) && NoLabels(code)
    ensures Sound(s, Gen(code, s), vis, d, n)
  {
    GrownSelf(s);
    SoundPlain(s, code, s, vis, d, n);
  }

  lemma {:induction false} SoundExpr(u: Unit, env: Env, s: Scope, e: Sexp, tail: bool, vis: set<string>, d: nat, n: nat)
    requires Compile(u, env, s, e, tail).Ok? && Tidy(u, e, vis) && Ready(s, d, n) && d + Need(e) <= n
    ensures Sound(s, Compile(u, env, s, e, tail).value, vis, d, n)
    decreases Size(e), 1
  {
    match e
    case SNil => SoundSelf(s, [MovEaxImm(Nil)], vis, d, n);
    case SInt(_) => SoundSelf(s, [MovEaxImm(WordOf(e))], vis, d, n);
    case SStr(_) => SoundSelf(s, [MovEaxImm(WordOf(e))], vis, d, n);
    case SSym(name) => SoundSymbol(u, s, name, vis, d, n);
    case SCons(_, fsym, args) => SoundForm(u, env, s, fsym.name, args, tail, vis, d, n);
  }

  lemma {:induction false} SoundForm(u: Unit, env: Env, s: Scope, name: string, args: Sexp, tail: bool,
                                     vis: set<string>, d: nat, n: nat)
    requires CompileForm(u, env, s, name, args, tail).Ok? && TidyForm(u, name, args, vis) && Ready(s, d, n)
    requires d + NeedForm(name, args) <= n
    ensures Sound(s, CompileForm(u, env, s, name, args, tail).value, vis, d, n)
    decreases Size(args), 5
  {
    hide Sound, Ready, FormOf, Keyword, Compile, Tidy, Need, CompileLambda, CompileCall, CompileBackquote,
         CompileLet1, CompileBody, CompileAndOr, CompileIf, TidyFunction, TidyTemplate, NeedTemplate;
    match FormOf(name)
    case FIf => SoundIf(u, env, s, args, tail, vis, d, n);
    case FAnd => SoundAndOr(u, env, s, args, false, vis, d, n);
    case FOr => SoundAndOr(u, env, s, args, true, vis, d, n);
    case FProgn => SoundBody(u, env, s, args, tail, vis, d, n);
    case FLet1 => SoundLet1(u, env, s, args, tail, vis, d, n);
    case FQuote => SoundSelf(s, [MovEaxImm(WordOf(Car(args)))], vis, d, n);
    case FBackquote => SoundBackquote(u, env, s, Car(args), vis, d, n);
    case FList =>
      SoundConses(u, env, s, args, 0, vis, d, n);
      SoundWrapped(s, [PushImm(Nil)], CompileConses(u, env, s, args, 0).value, [PopEax], vis, d, n);
    case FLambda => SoundLambda(u, env, s, args, vis, d, n);
    case FCall => SoundCall(u, env, s, name, args, tail, vis, d, n);
    case _ => assert false;
  }

  lemma SoundSymbol(u: Unit, s: Scope, name: string, vis: set<string>, d: nat, n: nat)
    requires CompileSymbol(u, s, name).Ok? && Ready(s, d, n)
    ensures Sound(s, CompileSymbol(u, s, name).value, vis, d, n)
  {
    var g := CompileSymbol(u, s, name).value;
    if SymbolOf(name) == VariableName {
      FindVariableGrows(s, name);
      SoundPlain(s, g.code, g.scope, vis, d, n);
    } else {
      SoundSelf(s, g.code, vis, d, n);
    }
  }

  lemma {:induction false} SoundIf(u: Unit, env: Env, s: Scope, args: Sexp, tail: bool, vis: set<string>, d: nat,
                                   n: nat)
    requires CompileIf(u, env, s, args, tail).Ok? && TidyEach(u, args, vis) && Ready(s, d, n) && d + NeedEach(args) <= n
    ensures Sound(s, CompileIf(u, env, s, args, tail).value, vis, d, n)
    decreases Size(args), 3
  {
    var c := Compile(u, env, s, args.car, false).value;
    SoundExpr(u, env, s, args.car, false, vis, d, n);
    SoundBranches(u, env, s, c, Car(args.cdr), Cdr(args.cdr), tail, vis, d, n);
  }

  lemma {:induction false} SoundBranches(u: Unit, env: Env, s: Scope, c: Gen, e: Sexp, rest: Sexp, tail: bool,
                                         vis: set<string>, d: nat, n: nat)
    requires CompileBranches(u, env, c, e, rest, tail).Ok? && Ready(s, d, n) && Sound(s, c, vis, d, n)
    requires Tidy(u, e, vis) && d + Need(e) <= n && TidyEach(u, rest, vis) && d + NeedEach(rest) <= n
    ensures Sound(s, CompileBranches(u, env, c, e, rest, tail).value, vis, d, n)
    decreases Size(e) + Size(rest), 3
  {
    SoundReady(s, c, vis, d, n);
    var s2 := NextPc(NextPc(c.scope).0).0;
    assert s2 == c.scope.(nextpc := c.scope.nextpc + 2);
    var t := Compile(u, env, s2, e, tail).value;
    SoundExpr(u, env, s2, e, tail, vis, d, n);
    SoundReady(s2, t, vis, d, n);
    SoundElse(u, env, t.scope, rest, tail, vis, d, n);
    SoundJoined(s, c, t, CompileElse(u, env, t.scope, rest, tail).value, vis, d, n);
  }

  lemma {:induction false} SoundElse(u: Unit, env: Env, s: Scope, rest: Sexp, tail: bool, vis: set<string>, d: nat,
                                     n: nat)
    requires CompileElse(u, env, s, rest, tail).Ok? && TidyEach(u, rest, vis) && Ready(s, d, n)
    requires d + NeedEach(rest) <= n
    ensures Sound(s, CompileElse(u, env, s, rest, tail).value, vis, d, n)
    decreases Size(rest), 2
  {
    if rest.SCons? {
      SoundExpr(u, env, s, rest.car, tail, vis, d, n);
    } else {
      SoundSelf(s, [], vis, d, n);
    }
  }

  lemma SoundJoined(s: Scope, c: Gen, t: Gen, f: Gen, vis: set<string>, d: nat, n: nat)
    requires Sound(s, c, vis, d, n) && Sound(c.scope.(nextpc := c.scope.nextpc + 2), t, vis, d, n)
    requires Sound(t.scope, f, vis, d, n)
    ensures Sound(s, Gen(IfCode(c.code, t.code, f.code, c.scope.nextpc, c.scope.nextpc + 1), f.scope), vis, d, n)
  {
    var s2 := c.scope.(nextpc := c.scope.nextpc + 2);
    SoundFacts(s, c, vis, d, n);
    SoundFacts(s2, t, vis, d, n);
    SoundFacts(t.scope, f, vis, d, n);
    assert Evolved(c.scope, s2, vis, d, n) by { ParentGrownSelf(c.scope.parent); }
    EvolvedTrans(s, c.scope, s2, vis, d, n);
    EvolvedTrans(s, s2, t.scope, vis, d, n);
    EvolvedTrans(s, t.scope, f.scope, vis, d, n);
    LabelsIf(c.code, t.code, f.code, s.nextpc, c.scope.nextpc, t.scope.nextpc, f.scope.nextpc);
  }

  lemma {:induction false} SoundAndOr(u: Unit, env: Env, s: Scope, args: Sexp, or: bool, vis: set<string>, d: nat,
                                      n: nat)
    requires CompileAndOr(u, env, s, args, or).Ok? && TidyEach(u, args, vis) && Ready(s, d, n)
    requires d + NeedEach(args) <= n
    ensures Sound(s, CompileAndOr(u, env, s, args, or).value, vis, d, n)
    decreases Size(args), 3
  {
    var s1 := NextPc(s).0;
    SoundChain(u, env, s1, args, or, s.nextpc, vis, d, n);
    var g := CompileChain(u, env, s1, args, or, s.nextpc).value;
    SoundEnded(s, s1, g, vis, d, n);
  }

  lemma SoundEnded(s: Scope, s1: Scope, g: Gen, vis: set<string>, d: nat, n: nat)
    requires s1 == s.(nextpc := s.nextpc + 1) && Ready(s, d, n) && Sound(s1, g, vis, d, n)
    ensures Sound(s, Gen(g.code + [Label(s.nextpc)], g.scope), vis, d, n)
  {
    assert Evolved(s, s1, vis, d, n) by { ParentGrownSelf(s.parent); }
    SoundFacts(s1, g, vis, d, n);
    EvolvedTrans(s, s1, g.scope, vis, d, n);
    assert Labels(g.code + [Label(s.nextpc)], s.nextpc, g.scope.nextpc);
  }

  lemma {:induction false} SoundChain(u: Unit, env: Env, s: Scope, args: Sexp, or: bool, after: nat, vis: set<string>,
                                      d: nat, n: nat)
    requires CompileChain(u, env, s, args, or, after).Ok? && TidyEach(u, args, vis) && Ready(s, d, n)
    requires d + NeedEach(args) <= n
    ensures Sound(s, CompileChain(u, env, s, args, or, after).value, vis, d, n)
    decreases Size(args), 2
  {
    if !args.SCons? {
      SoundSelf(s, [], vis, d, n);
    } else {
      var g := Compile(u, env, s, args.car, false).value;
      SoundExpr(u, env, s, args.car, false, vis, d, n);
      SoundReady(s, g, vis, d, n);
      if !args.cdr.SNil? {
        SoundChain(u, env, g.scope, args.cdr, or, after, vis, d, n);
        var r := CompileChain(u, env, g.scope, args.cdr, or, after).value;
        var glue := [CmpEax(Nil), if or then Jne(after) else Je(after)];
        SoundGlued(s, g, glue, r, vis, d, n);
      }
    }
  }

  lemma {:induction false} SoundBody(u: Unit, env: Env, s: Scope, body: Sexp, tail: bool, vis: set<string>, d: nat,
                                     n: nat)
    requires CompileBody(u, env, s, body, tail).Ok? && TidyEach(u, body, vis) && Ready(s, d, n)
    requires d + NeedEach(body) <= n
    ensures Sound(s, CompileBody(u, env, s, body, tail).value, vis, d, n)
    decreases Size(body), 2
  {
    if !body.SCons? {
      SoundSelf(s, [], vis, d, n);
    } else {
      var t := tail && body.cdr.SNil?;
      var g := Compile(u, env, s, body.car, t).value;
      SoundExpr(u, env, s, body.car, t, vis, d, n);
      SoundReady(s, g, vis, d, n);
      SoundBody(u, env, g.scope, body.cdr, tail, vis, d, n);
      var r := CompileBody(u, env, g.scope, body.cdr, tail).value;
      SoundJoin(s, g, r, [], vis, d, n);
      assert g.code + r.code + [] == g.code + r.code;
    }
  }

  lemma {:induction false} SoundLet1(u: Unit, env: Env, s: Scope, args: Sexp, tail: bool, vis: set<string>, d: nat,
                                     n: nat)
    requires CompileLet1(u, env, s, args, tail).Ok? && Ready(s, d, n)
    requires var name := Car(Car(args)); Tidy(u, Car(Cdr(Car(args))), vis) && name.SSym? && name.name !in vis
                                         && TidyEach(u, Cdr(args), vis + {name.name})
    requires d + Need(Car(Cdr(Car(args)))) <= n && d + 1 + NeedEach(Cdr(args)) <= n
    ensures Sound(s, CompileLet1(u, env, s, args, tail).value, vis, d, n)
    decreases Size(args), 3
  {
    var name := Car(args.car).name;
    var v := Compile(u, env, s, Car(Cdr(args.car)), false).value;
    SoundExpr(u, env, s, Car(Cdr(args.car)), false, vis, d, n);
    SoundBound(u, env, s, v, name, args.cdr, tail, vis, d, n);
  }

  lemma {:induction false} SoundBound(u: Unit, env: Env, s: Scope, v: Gen, name: string, body: Sexp, tail: bool,
                                      vis: set<string>, d: nat, n: nat)
    requires CompileBound(u, env, v, name, body, tail).Ok? && Ready(s, d, n) && Sound(s, v, vis, d, n)
    requires name !in vis && TidyEach(u, body, vis + {name}) && d + 1 + NeedEach(body) <= n
    ensures Sound(s, CompileBound(u, env, v, name, body, tail).value, vis, d, n)
    decreases Size(body), 3
  {
    SoundFacts(s, v, vis, d, n);
    AllocSlot(v.scope, d);
    var s2 := AddVariable(LocalAlloc(v.scope).0, Variable(name, Bound, d));
    LetReady(v.scope, name, d, n);
    SoundBody(u, env, s2, body, tail, vis + {name}, d + 1, n);
    SoundLet(s, v, name, CompileBody(u, env, s2, body, tail).value, vis, d, n);
  }

  lemma SoundLet(s: Scope, v: Gen, name: string, g: Gen, vis: set<string>, d: nat, n: nat)
    requires Ready(s, d, n) && Sound(s, v, vis, d, n) && name !in vis && d < n && Slotted(v.scope, d)
    requires LocalAlloc(v.scope).1 == d
    requires Sound(AddVariable(LocalAlloc(v.scope).0, Variable(name, Bound, d)), g, vis + {name}, d + 1, n)
    ensures Sound(s, Gen(v.code + [MovMemEax(-(d + 1))] + g.code, LocalFree(g.scope, d)), vis, d, n)
  {
    SoundFacts(s, v, vis, d, n);
    SoundFacts(AddVariable(LocalAlloc(v.scope).0, Variable(name, Bound, d)), g, vis + {name}, d + 1, n);
    LetEvolves(v.scope, name, g.scope, vis, d, n);
    SoundGlued(s, v, [MovMemEax(-(d + 1))], Gen(g.code, LocalFree(g.scope, d)), vis, d, n);
  }

  lemma {:induction false} SoundConses(u: Unit, env: Env, s: Scope, args: Sexp, skip: nat, vis: set<string>, d: nat,
                                       n: nat)
    requires CompileConses(u, env, s, args, skip).Ok? && TidyEach(u, args, vis) && Ready(s, d, n)
    requires d + NeedEach(args) <= n
    ensures Sound(s, CompileConses(u, env, s, args, skip).value, vis, d, n)
    decreases Size(args), 2
  {
    if !args.SCons? {
      SoundSelf(s, [], vis, d, n);
    } else if skip > 0 {
      SoundConses(u, env, s, args.cdr, skip - 1, vis, d, n);
    } else {
      var r := CompileConses(u, env, s, args.cdr, 0).value;
      SoundConses(u, env, s, args.cdr, 0, vis, d, n);
      SoundReady(s, r, vis, d, n);
      SoundExpr(u, env, r.scope, args.car, false, vis, d, n);
      SoundJoin(s, r, Compile(u, env, r.scope, args.car, false).value, PUSH_CONS, vis, d, n);
    }
  }

  lemma {:induction false} SoundPushes(u: Unit, env: Env, s: Scope, args: Sexp, k: nat, vis: set<string>, d: nat,
                                       n: nat)
    requires CompilePushes(u, env, s, args, k).Ok? && TidyEach(u, args, vis) && Ready(s, d, n)
    requires d + NeedEach(args) <= n
    ensures Sound(s, CompilePushes(u, env, s, args, k).value, vis, d, n)
    decreases Size(args), 2
  {
    if !args.SCons? || k == 0 {
      SoundSelf(s, [], vis, d, n);
    } else {
      var r := CompilePushes(u, env, s, args.cdr, k - 1).value;
      SoundPushes(u, env, s, args.cdr, k - 1, vis, d, n);
      SoundReady(s, r, vis, d, n);
      SoundExpr(u, env, r.scope, args.car, false, vis, d, n);
      SoundJoin(s, r, Compile(u, env, r.scope, args.car, false).value, [PushEax], vis, d, n);
    }
  }

  lemma {:induction false} PushDefaultsPlain(optional: seq<Word>, from: nat)
    ensures NoLabels(PushDefaults(optional, from))
    decreases |optional| - from
  {
    if from < |optional| { PushDefaultsPlain(optional, from + 1); }
  }

  lemma {:induction false} MoveArgsPlain(from: nat, k: nat)
    ensures NoLabels(MoveArgs(from, k))
    decreases k
  {
    if k > 0 { MoveArgsPlain(from + 1, k - 1); }
  }

  lemma {:induction false} SoundArgs(u: Unit, env: Env, s: Scope, a: Args, args: Sexp, vis: set<string>, d: nat, n: nat)
    requires CompileArgs(u, env, s, a, args).Ok? && TidyEach(u, args, vis) && Ready(s, d, n) && d + NeedEach(args) <= n
    ensures Sound(s, CompileArgs(u, env, s, a, args).value, vis, d, n)
    decreases Size(args), 3
  {
    var r := if a.variadic then CompileConses(u, env, s, args, a.Total()).value else Gen([], s);
    if a.variadic {
      SoundConses(u, env, s, args, a.Total(), vis, d, n);
    } else {
      SoundSelf(s, [], vis, d, n);
    }
    var front := if a.variadic then [PushImm(Nil)] else [];
    SoundReady(s, r, vis, d, n);
    SoundPrefixed(s, front, r, vis, d, n);
    SoundPushes(u, env, r.scope, args, a.Total(), vis, d, n);
    var defaults := PushDefaults(a.optional, Length(args) - a.required);
    PushDefaultsPlain(a.optional, Length(args) - a.required);
    SoundGlued(s, Gen(front + r.code, r.scope), defaults, CompilePushes(u, env, r.scope, args, a.Total()).value, vis,
               d, n);
  }

  lemma {:induction false} SoundCall(u: Unit, env: Env, s: Scope, name: string, args: Sexp, tail: bool,
                                     vis: set<string>, d: nat, n: nat)
    requires CompileCall(u, env, s, name, args, tail).Ok? && TidyEach(u, args, vis) && Ready(s, d, n)
    requires d + NeedEach(args) <= n
    ensures Sound(s, CompileCall(u, env, s, name, args, tail).value, vis, d, n)
    decreases Size(args), 4
  {
    var f := FindFunction(env, name);
    var a := if s.fname == name then s.args else f.args;
    SoundArgs(u, env, s, a, args, vis, d, n);
    var g := CompileArgs(u, env, s, a, args).value;
    var end := if s.fname == name then (if tail then MoveArgs(0, a.Real()) + BACK_TO_ENTRY
      else [CallEntry]) + [AddEsp(a.Real())]
               else [CallTo(f), AddEsp(a.Real())];
    MoveArgsPlain(0, a.Real());
    SoundWrapped(s, [], g, end, vis, d, n);
    assert [] + g.code == g.code;
    if s.fname == name {
      assert g.code + end == g.code + (if tail then MoveArgs(0, a.Real()) + BACK_TO_ENTRY
        else [CallEntry]) + [AddEsp(a.Real())];
    }
  }

  // ----- functions -----

  /** The variables list_to_args declares for the parameter names, last one first. */
  function ArgVars(names: seq<string>): seq<Variable> {
    if names == [] then []
    else [Variable(names[|names| - 1], Argument, |names| - 1)] + ArgVars(names[..|names| - 1])
  }

  /** list_to_args agrees with the meaning of the parameter list. */
  lemma {:induction false} ParamsDeclared(defaults: map<Sexp, Word>, list: Sexp, p: Params, s: Scope)
    requires ParamsOf(defaults, list, p).Some?
    requires s.vars == ArgVars(p.names) && |p.names| == p.args.Real()
    ensures var q := ParamsOf(defaults, list, p).value;
      && |q.names| == q.args.Real()
      && ListToArgs(defaults, list, s, p.args, p.args.optional != []) ==
        Ok(s.(vars := ArgVars(q.names), args := q.args))
    decreases list
  {
    hide ArgVars, ParamsOf, ListToArgs, Listp, Length, Elt;
    if list.SNil? {
      NoParams(defaults, list, p, s);
    } else {
      var rest, q, x := ParamStep(defaults, list, p, s);
      ParamAdded(p.names, x);
      ParamsDeclared(defaults, rest, q, AddVariable(s, Variable(x, Argument, |p.names|)));
    }
  }

  /** Both sides read one parameter `x` off the list and go on with `rest`. */
  ghost predicate Declares(defaults: map<Sexp, Word>, list: Sexp, p: Params, s: Scope, rest: Sexp, q: Params,
                           x: string) {
    && rest < list && q.names == p.names + [x] && |q.names| == q.args.Real()
    && ParamsOf(defaults, list, p) == ParamsOf(defaults, rest, q)
    && ListToArgs(defaults, list, s, p.args, p.args.optional != []) ==
         ListToArgs(defaults, rest, AddVariable(s, Variable(x, Argument, |p.names|)), q.args, q.args.optional != [])
  }

  lemma ParamStep(defaults: map<Sexp, Word>, list: Sexp, p: Params, s: Scope) returns (rest: Sexp, q: Params, x: string)
    requires !list.SNil? && ParamsOf(defaults, list, p).Some? && |p.names| == p.args.Real()
    ensures Declares(defaults, list, p, s, rest, q, x)
  {
    hide Listp, Length, Elt, Declares;
    if SymStrEq(list.car, "&") {
      rest, q, x := RestParam(defaults, list, p, s);
    } else if list.car.SSym? {
      rest, q, x := RequiredParam(defaults, list, p, s);
    } else {
      rest, q, x := OptionalParam(defaults, list, p, s);
    }
  }

  lemma RestParam(defaults: map<Sexp, Word>, list: Sexp, p: Params, s: Scope) returns (rest: Sexp, q: Params, x: string)
    requires list.SCons? && SymStrEq(list.car, "&") && ParamsOf(defaults, list, p).Some? && |p.names| == p.args.Real()
    ensures Declares(defaults, list, p, s, rest, q, x)
  {
    hide Listp, Length, Elt;
    rest, x := list.cdr.cdr, list.cdr.car.name;
    q := Params(p.names + [x], p.args.(variadic := true));
  }

  lemma RequiredParam(defaults: map<Sexp, Word>, list: Sexp, p: Params, s: Scope)
    returns (rest: Sexp, q: Params, x: string)
    requires list.SCons? && list.car.SSym? && list.car.name != "&" && ParamsOf(defaults, list, p).Some?
    requires |p.names| == p.args.Real()
    ensures Declares(defaults, list, p, s, rest, q, x)
  {
    hide Listp, Length, Elt;
    rest, x := list.cdr, list.car.name;
    q := Params(p.names + [x], p.args.(required := p.args.required + 1));
  }

  lemma OptionalParam(defaults: map<Sexp, Word>, list: Sexp, p: Params, s: Scope)
    returns (rest: Sexp, q: Params, x: string)
    requires list.SCons? && !list.car.SSym? && ParamsOf(defaults, list, p).Some? && |p.names| == p.args.Real()
    ensures Declares(defaults, list, p, s, rest, q, x)
  {
    hide Listp, Length, Elt;
    rest, x := list.cdr, Car(list.car).name;
    q := Params(p.names + [x], p.args.(optional := p.args.optional + [defaults[Elt(list.car, 1)]]));
  }

  lemma NoParams(defaults: map<Sexp, Word>, list: Sexp, p: Params, s: Scope)
    requires list.SNil?
    ensures ParamsOf(defaults, list, p) == Some(p)
    ensures ListToArgs(defaults, list, s, p.args, p.args.optional != []) == Ok(s.(args := p.args))
  {
  }

  lemma ParamAdded(names: seq<string>, name: string)
    ensures ArgVars(names + [name]) == [Variable(name, Argument, |names|)] + ArgVars(names)
  {
    assert (names + [name])[..|names|] == names;
  }

  lemma {:induction false} ArgVarsPlain(names: seq<string>)
    ensures Frees(ArgVars(names)) == [] && Numbered(ArgVars(names))
    ensures forall v :: v in ArgVars(names) ==> v.kind == Argument && v.number < |names|
  {
    if names != [] {
      ArgVarsPlain(names[..|names| - 1]);
      assert ArgVars(names)[1..] == ArgVars(names[..|names| - 1]);
    }
  }

  /** The walk looks at nothing but slots and entries, and changes nothing else. */
  lemma {:induction false} WalkSame(s: Scope, s': Scope, body: Sexp, quoted: bool)
    requires s'.slots == s.slots && s'.entries == s.entries
    ensures var (w, w') := (WalkAndAlloc(s, body, quoted), WalkAndAlloc(s', body, quoted));
      w == s.(slots := w.slots, entries := w.entries) && w' == s'.(slots := w.slots, entries := w.entries)
    decreases body, 1
  {
    if Listp(body) && body.SCons? {
      if !quoted && SymStrEq(body.car, "let1") {
        if body.cdr.SCons? { WalkEachSame(LocalAlloc(s).0, LocalAlloc(s').0, body.cdr.cdr, false); }
      } else if !quoted && SymStrEq(body.car, "lambda") {
      } else if quoted {
        WalkEachSame(s, s', body.cdr, false);
      } else {
        var (s1, s1') :=
          if body.car.SCons? then (WalkAndAlloc(s, body.car, false), WalkAndAlloc(s', body.car, false)) else (s, s');
        if body.car.SCons? { WalkSame(s, s', body.car, false); }
        WalkEachSame(s1, s1', body.cdr, SymStrEq(body.car, "quote") || SymStrEq(body.car, "backquote"));
      }
    }
  }

  lemma {:induction false} WalkEachSame(s: Scope, s': Scope, items: Sexp, quoted: bool)
    requires s'.slots == s.slots && s'.entries == s.entries
    ensures var (w, w') := (WalkEach(s, items, quoted), WalkEach(s', items, quoted));
      w == s.(slots := w.slots, entries := w.entries) && w' == s'.(slots := w.slots, entries := w.entries)
    decreases items, 0
  {
    if items.SCons? {
      WalkSame(s, s', items.car, quoted);
      WalkEachSame(WalkAndAlloc(s, items.car, quoted), WalkAndAlloc(s', items.car, quoted), items.cdr, quoted);
    }
  }

  /** The scope in which the body of a function is generated. */
  lemma BodyScope(u: Unit, arglist: Sexp, body: Sexp, name: string, parent: Option<Scope>)
    requires ParamsOf(u.defaults, arglist, NO_PARAMS).Some? && (parent.Some? ==> WellNumbered(parent.value))
    ensures var p := ParamsOf(u.defaults, arglist, NO_PARAMS).value;
      var r := ListToArgs(u.defaults, arglist, FreshScope(name, parent), Args(0, [], false), false);
      && r.Ok? && |p.names| == p.args.Real()
      && var (s1, nvars) := Prepare(r.value, body);
        && nvars == FrameEntries(body)
        && s1 == FreshScope(name, parent).(vars := ArgVars(p.names), args := p.args, slots := s1.slots)
        && Ready(s1, 0, nvars)
  {
    ParamsDeclared(u.defaults, arglist, NO_PARAMS, FreshScope(name, parent));
    var p := ParamsOf(u.defaults, arglist, NO_PARAMS).value;
    var s := ListToArgs(u.defaults, arglist, FreshScope(name, parent), Args(0, [], false), false).value;
    WalkEachSame(s, FreshScope("", None), body, false);
    ArgVarsPlain(p.names);
  }

  /** What compiling a function guarantees about its code and its final scope. */
  ghost predicate SoundFun(u: Unit, arglist: Sexp, body: Sexp, name: string, parent: Option<Scope>, g: Gen) {
    && ParamsOf(u.defaults, arglist, NO_PARAMS).Some?
    && g.scope.args == ParamsOf(u.defaults, arglist, NO_PARAMS).value.args
    && g.scope.fname == name && ParentGrown(parent, g.scope.parent) && WellNumbered(g.scope)
    && InFrame(g.scope.vars, FrameEntries(body)) && InArgs(g.scope.vars, g.scope.args.Real())
    && Labels(g.code, 0, g.scope.nextpc)
  }

  lemma {:induction false} SoundFunction(u: Unit, env: Env, arglist: Sexp, body: Sexp, name: string,
                                         parent: Option<Scope>, vis: set<string>)
    requires CompileFunction(u, env, arglist, body, name, parent).Ok? && TidyFunction(u, arglist, body, vis)
    requires parent.Some? ==> WellNumbered(parent.value)
    ensures SoundFun(u, arglist, body, name, parent, CompileFunction(u, env, arglist, body, name, parent).value)
    decreases Size(body), 3
  {
    hide ListToArgs, ParamsOf, CompileBody, TidyEach, NeedEach, WalkEach, Labels, WellNumbered;
    BodyScope(u, arglist, body, name, parent);
    var p := ParamsOf(u.defaults, arglist, NO_PARAMS).value;
    var s := ListToArgs(u.defaults, arglist, FreshScope(name, parent), Args(0, [], false), false).value;
    var (s1, nvars) := Prepare(s, body);
    SoundBody(u, env, s1, body, true, vis + Names(p.names), 0, nvars);
    var g := CompileBody(u, env, s1, body, true).value;
    SoundFacts(s1, g, vis + Names(p.names), 0, nvars);
    LabelsAround(Setup(nvars), g.code, CLEANUP, 0, g.scope.nextpc);
  }

  lemma {:induction false} CapturesPlain(vars: seq<Variable>, s: Scope)
    requires Captures(vars, s).Ok? && WellNumbered(s)
    ensures var g := Captures(vars, s).value; Grown(s, g.scope) && WellNumbered(g.scope) && NoLabels(g.code)
    decreases |vars|
  {
    if vars == [] {
      GrownSelf(s);
    } else if vars[0].kind != Free {
      CapturesPlain(vars[1..], s);
    } else {
      FindVariableGrows(s, vars[0].name);
      var s1 := FindVariable(s, vars[0].name).0;
      CapturesPlain(vars[1..], s1);
      GrownTrans(s, s1, Captures(vars[1..], s1).value.scope);
    }
  }

  lemma {:induction false} SoundLambda(u: Unit, env: Env, s: Scope, args: Sexp, vis: set<string>, d: nat, n: nat)
    requires CompileLambda(u, env, s, args).Ok? && TidyFunction(u, Car(args), Cdr(args), vis) && Ready(s, d, n)
    ensures Sound(s, CompileLambda(u, env, s, args).value, vis, d, n)
    decreases Size(args), 4
  {
    SoundFunction(u, env, Car(args), Cdr(args), "recurse", Some(s), vis);
    var f := CompileFunction(u, env, Car(args), Cdr(args), "recurse", Some(s)).value;
    var s1 := f.scope.parent.value;
    CapturesPlain(f.scope.vars, s1);
    var g := CompileLambda(u, env, s, args).value;
    GrownTrans(s, s1, g.scope);
    SoundPlain(s, g.code, g.scope, vis, d, n);
  }

  // ----- templates -----

  lemma {:induction false} SoundBackquote(u: Unit, env: Env, s: Scope, val: Sexp, vis: set<string>, d: nat, n: nat)
    requires CompileBackquote(u, env, s, val).Ok? && TidyTemplate(u, val, vis) && Ready(s, d, n)
    requires d + NeedTemplate(val) <= n
    ensures Sound(s, CompileBackquote(u, env, s, val).value, vis, d, n)
    decreases Size(val), 3
  {
    if !Listp(val) {
      SoundSelf(s, [MovEaxImm(WordOf(val))], vis, d, n);
    } else if SymStrEq(Car(val), "unquote") {
      SoundExpr(u, env, s, Car(Cdr(val)), false, vis, d, n);
    } else {
      SoundTemplate(u, env, s, val, vis, d, n);
      SoundWrapped(s, [PushImm(Nil)], CompileTemplate(u, env, s, val).value, [PopEax], vis, d, n);
    }
  }

  lemma {:induction false} SoundTemplate(u: Unit, env: Env, s: Scope, items: Sexp, vis: set<string>, d: nat, n: nat)
    requires CompileTemplate(u, env, s, items).Ok? && TidyItems(u, items, vis) && Ready(s, d, n)
    requires d + NeedItems(items) <= n
    ensures Sound(s, CompileTemplate(u, env, s, items).value, vis, d, n)
    decreases Size(items), 2
  {
    if !items.SCons? {
      SoundSelf(s, [], vis, d, n);
    } else {
      var r := CompileTemplate(u, env, s, items.cdr).value;
      SoundTemplate(u, env, s, items.cdr, vis, d, n);
      SoundReady(s, r, vis, d, n);
      if IsSplice(items.car) {
        SoundExpr(u, env, r.scope, Car(Cdr(items.car)), false, vis, d, n);
        SoundJoin(s, r, Compile(u, env, r.scope, Car(Cdr(items.car)), false).value, PUSH_MERGE, vis, d, n);
      } else {
        SoundBackquote(u, env, r.scope, items.car, vis, d, n);
        SoundJoin(s, r, CompileBackquote(u, env, r.scope, items.car).value, PUSH_CONS, vis, d, n);
      }
    }
  }

  // ----- the keywords -----

  lemma KeywordNames(name: string)
    ensures FormOf(name) == FLet1 <==> name == "let1"
    ensures FormOf(name) == FLambda <==> name == "lambda"
    ensures FormOf(name) == FQuote <==> name == "quote"
    ensures FormOf(name) == FBackquote <==> name == "backquote"
  {
    FormUnrolled(name);
  }

  lemma FormUnrolled(name: string)
    ensures FormOf(name) ==
      if name == "if" then FIf else if name == "and" then FAnd else if name == "or" then FOr
      else if name == "progn" then FProgn else if name == "let1" then FLet1 else if name == "gc" then FGc
      else if name == "quote" then FQuote else if name == "backquote" then FBackquote
      else if name == "function" then FFunction else if name == "list" then FList
      else if name == "lambda" then FLambda else if name == "eval" then FEval else if name == "load" then FLoad
        else FCall
  {
    LaterForms(name);
    assert FormFrom(name, 5) == if name == "gc" then FGc else FormFrom(name, 6);
    assert FormFrom(name, 4) == if name == "let1" then FLet1 else FormFrom(name, 5);
    assert FormFrom(name, 3) == if name == "progn" then FProgn else FormFrom(name, 4);
    assert FormFrom(name, 2) == if name == "or" then FOr else FormFrom(name, 3);
    assert FormFrom(name, 1) == if name == "and" then FAnd else FormFrom(name, 2);
  }

  lemma LaterForms(name: string)
    ensures FormFrom(name, 6) ==
      if name == "quote" then FQuote else if name == "backquote" then FBackquote
      else if name == "function" then FFunction else if name == "list" then FList
      else if name == "lambda" then FLambda else if name == "eval" then FEval else if name == "load" then FLoad
        else FCall
  {
    assert FormFrom(name, 12) == if name == "load" then FLoad else FCall;
    assert FormFrom(name, 11) == if name == "eval" then FEval else FormFrom(name, 12);
    assert FormFrom(name, 10) == if name == "lambda" then FLambda else FormFrom(name, 11);
    assert FormFrom(name, 9) == if name == "list" then FList else FormFrom(name, 10);
    assert FormFrom(name, 8) == if name == "function" then FFunction else FormFrom(name, 9);
    assert FormFrom(name, 7) == if name == "backquote" then FBackquote else FormFrom(name, 8);
  }
}
