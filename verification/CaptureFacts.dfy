/** The captures of a compiled function are the free variables of its source, in order. */
module CaptureFacts {
  import opened Wrappers
  import opened Sexps
  import opened Words
  import opened Scopes
  import opened ScopeFacts
  import opened Codegen
  import opened Source
  import opened CodegenFacts

  /** The variable list holds the names `k` knows, and its captures are those of `k`. */
  ghost predicate Matches(vars: seq<Variable>, k: Known) {
    && Frees(vars) == k.captured
    && forall x {:trigger Find(vars, x)} :: Find(vars, x).Some? <==> x in k.own || x in k.captured
  }

  /** The scope after looking up all of `xs`; `None` if one of them is not found. */
  function Looked(s: Scope, xs: seq<string>): Option<Scope>
    decreases |xs|
  {
    if xs == [] then Some(s)
    else
      var (s', v) := FindVariable(s, xs[0]);
      if v.None? then None else Looked(s', xs[1..])
  }

  /** What the new captures `xs` of a scope did to the enclosing one. */
  ghost predicate PassedOn(p: Option<Scope>, p': Option<Scope>, xs: seq<string>) {
    if p.None? then xs == [] && p'.None? else p'.Some? && Looked(p.value, xs) == p'
  }

  /** From `s` to `s'` the names that lead from `k` to `k'` were looked up. */
  ghost predicate Traces(s: Scope, s': Scope, k: Known, k': Known) {
    && Matches(s'.vars, k') && k.captured <= k'.captured
    && PassedOn(s.parent, s'.parent, k'.captured[|k.captured|..])
  }

  lemma {:induction false} LookedTwice(s: Scope, a: seq<string>, b: seq<string>)
    requires Looked(s, a).Some?
    ensures Looked(s, a + b) == Looked(Looked(s, a).value, b)
    decreases |a|
  {
    if a == [] {
      assert a + b == b;
    } else {
      LookedTwice(FindVariable(s, a[0]).0, a[1..], b);
      assert (a + b)[1..] == a[1..] + b;
    }
  }

  lemma TracesSelf(s: Scope, k: Known)
    requires Matches(s.vars, k)
    ensures Traces(s, s, k, k)
  {
    assert k.captured[|k.captured|..] == [];
  }

  lemma TracesThen(s: Scope, s1: Scope, s2: Scope, k: Known, k1: Known, k2: Known)
    requires Traces(s, s1, k, k1) && Traces(s1, s2, k1, k2)
    ensures Traces(s, s2, k, k2)
  {
    var a, b := k1.captured[|k.captured|..], k2.captured[|k1.captured|..];
    assert k2.captured[|k.captured|..] == a + b;
    if s.parent.Some? { LookedTwice(s.parent.value, a, b); }
  }

  /** Looking a name up captures it exactly if the scope does not know it. */
  lemma TracesLookup(s: Scope, x: string, k: Known)
    requires Matches(s.vars, k) && FindVariable(s, x).1.Some?
    ensures Traces(s, FindVariable(s, x).0, k, See(k, x))
  {
    var (s', v) := FindVariable(s, x);
    if Find(s.vars, x).Some? {
      TracesSelf(s, k);
    } else {
      var k' := See(k, x);
      assert k'.captured[|k.captured|..] == [x];
      assert s'.vars[1..] == s.vars;
      assert Looked(s'.parent.value, [x][1..]) == s'.parent;
      forall y ensures Find(s'.vars, y).Some? <==> y in k'.own || y in k'.captured {
        assert Find(s.vars, y).Some? <==> y in k.own || y in k.captured;
      }
    }
  }

  lemma {:induction false} TracesLooked(s: Scope, xs: seq<string>, k: Known)
    requires Matches(s.vars, k) && Looked(s, xs).Some?
    ensures Traces(s, Looked(s, xs).value, k, SeeAll(k, xs))
    decreases |xs|
  {
    hide Traces, Matches, FindVariable, See;
    if xs == [] {
      TracesSelf(s, k);
    } else {
      var s1 := FindVariable(s, xs[0]).0;
      TracesLookup(s, xs[0], k);
      TracesMatches(s, s1, k, See(k, xs[0]));
      TracesLooked(s1, xs[1..], See(k, xs[0]));
      TracesThen(s, s1, Looked(s, xs).value, k, See(k, xs[0]), SeeAll(k, xs));
    }
  }

  lemma TracesMatches(s: Scope, s': Scope, k: Known, k': Known)
    requires Traces(s, s', k, k')
    ensures Matches(s'.vars, k')
  {
  }

  lemma {:induction false} AllSeen(k: Known, xs: seq<string>)
    ensures var k' := SeeAll(k, xs);
      && k'.own == k.own && k.captured <= k'.captured && forall x :: x in xs ==> x in k'.own || x in k'.captured
    decreases |xs|
  {
    if xs != [] {
      AllSeen(See(k, xs[0]), xs[1..]);
      assert xs == [xs[0]] + xs[1..];
    }
  }

  /** Loading captures looks up names that are known by then. */
  lemma {:induction false} CapturesKnown(vars: seq<Variable>, s: Scope)
    requires Captures(vars, s).Ok? && forall x :: x in Frees(vars) ==> Find(s.vars, x).Some?
    ensures Captures(vars, s).value.scope == s
    decreases |vars|
  {
    if vars != [] { CapturesKnown(vars[1..], s); }
  }

  // ----- parameters -----

  lemma {:induction false} DeclaredVars(defaults: map<Sexp, Word>, i: Sexp, s: Scope, a: Args, inOptional: bool,
                                        own: set<string>)
    requires ListToArgs(defaults, i, s, a, inOptional).Ok? && Matches(s.vars, Known(own, []))
    ensures var s' := ListToArgs(defaults, i, s, a, inOptional).value;
      s'.parent == s.parent && s'.slots == s.slots && Matches(s'.vars, Known(own + Declared(i, a.variadic), []))
    decreases i
  {
    if !i.SNil? {
      var val := Car(i);
      if val.SSym? && !a.variadic && val.name == "&" {
        var x := Car(Cdr(i)).name;
        DeclaredOne(s, Variable(x, Argument, a.Total()), own);
        DeclaredVars(defaults, Cdr(Cdr(i)), AddVariable(s, Variable(x, Argument, a.Total())), a.(variadic := true),
                     inOptional, own + {x});
        assert own + {x} + Declared(Cdr(i.cdr), true) == own + Declared(i, a.variadic);
      } else if val.SSym? {
        DeclaredOne(s, Variable(val.name, Argument, a.required), own);
        DeclaredVars(defaults, Cdr(i), AddVariable(s, Variable(val.name, Argument, a.required)),
                     a.(required := a.required + 1), inOptional, own + {val.name});
        assert own + {val.name} + Declared(i.cdr, a.variadic) == own + Declared(i, a.variadic);
      } else if Listp(val) {
        var x := Car(val).name;
        DeclaredOne(s, Variable(x, Argument, a.Total()), own);
        DeclaredVars(defaults, Cdr(i), AddVariable(s, Variable(x, Argument, a.Total())),
                     a.(optional := a.optional + [defaults[Elt(val, 1)]]), true, own + {x});
        assert own + {x} + Declared(i.cdr, a.variadic) == own + Declared(i, a.variadic);
      } else {
        DeclaredVars(defaults, Cdr(i), s, a, inOptional, own);
      }
    } else {
      assert own + {} == own;
    }
  }

  lemma DeclaredOne(s: Scope, v: Variable, own: set<string>)
    requires Matches(s.vars, Known(own, [])) && v.kind != Free
    ensures Matches(AddVariable(s, v).vars, Known(own + {v.name}, []))
  {
    NewName(s.vars, v, Known(own, []));
  }

  lemma NewName(vars: seq<Variable>, v: Variable, k: Known)
    requires Matches(vars, k) && v.kind != Free
    ensures Matches([v] + vars, k.(own := k.own + {v.name}))
  {
    assert ([v] + vars)[1..] == vars;
    forall y ensures Find([v] + vars, y).Some? <==> y in k.own + {v.name} || y in k.captured {
      assert Find(vars, y).Some? <==> y in k.own || y in k.captured;
    }
  }

  // ----- every form -----

  lemma {:induction false} TracesFunction(u: Unit, env: Env, arglist: Sexp, body: Sexp, name: string,
                                          parent: Option<Scope>)
    requires CompileFunction(u, env, arglist, body, name, parent).Ok?
    ensures var s' := CompileFunction(u, env, arglist, body, name, parent).value.scope;
      Frees(s'.vars) == FreeNames(arglist, body) && PassedOn(parent, s'.parent, FreeNames(arglist, body))
    decreases Size(body), 3
  {
    hide CompileBody, WalkEach, Matches, Setup, SeenEach, ListToArgs, Looked, Declared, Frees;
    var fresh_ := FreshScope(name, parent);
    FreshMatches(name, parent);
    DeclaredVars(u.defaults, arglist, fresh_, Args(0, [], false), false, {});
    var s := ListToArgs(u.defaults, arglist, fresh_, Args(0, [], false), false).value;
    WalkEachSame(s, s, body, false);
    var s1 := Prepare(s, body).0;
    var k := Known(Declared(arglist, false), []);
    assert {} + Declared(arglist, false) == Declared(arglist, false);
    TracesBody(u, env, s1, body, true, k);
    var k' := SeenEach(k, body);
    assert k'.captured[0..] == k'.captured;
    MatchesFrees(CompileFunction(u, env, arglist, body, name, parent).value.scope.vars, k');
  }

  lemma FreshMatches(name: string, parent: Option<Scope>)
    ensures Matches(FreshScope(name, parent).vars, Known({}, []))
  {
  }

  lemma MatchesFrees(vars: seq<Variable>, k: Known)
    requires Matches(vars, k)
    ensures Frees(vars) == k.captured
  {
  }

  lemma {:induction false} TracesLambda(u: Unit, env: Env, s: Scope, args: Sexp, k: Known)
    requires CompileLambda(u, env, s, args).Ok? && Matches(s.vars, k)
    ensures Traces(s, CompileLambda(u, env, s, args).value.scope, k, SeeAll(k, FreeNames(Car(args), Cdr(args))))
    decreases Size(args), 4
  {
    hide CompileFunction, Captures, FreeNames, SeeAll, Traces, Looked;
    TracesFunction(u, env, Car(args), Cdr(args), "recurse", Some(s));
    var f := CompileFunction(u, env, Car(args), Cdr(args), "recurse", Some(s)).value;
    var xs := FreeNames(Car(args), Cdr(args));
    var s1 := f.scope.parent.value;
    TracesLooked(s, xs, k);
    TracesMatches(s, s1, k, SeeAll(k, xs));
    AllSeen(k, xs);
    CapturesKnown(f.scope.vars, s1);
  }

  lemma {:induction false} TracesExpr(u: Unit, env: Env, s: Scope, e: Sexp, tail: bool, k: Known)
    requires Compile(u, env, s, e, tail).Ok? && Matches(s.vars, k)
    ensures Traces(s, Compile(u, env, s, e, tail).value.scope, k, Seen(k, e))
    decreases Size(e), 1
  {
    hide Traces, Matches, CompileForm, SeenForm, Keyword, FormOf, Listp, FindVariable;
    match e
    case SCons(_, fsym, args) => TracesForm(u, env, s, fsym.name, args, tail, k);
    case SSym(name) => if SymbolOf(name).VariableName? { TracesLookup(s, name, k); } else { TracesSelf(s, k); }
    case _ => TracesSelf(s, k);
  }

  lemma {:induction false} TracesForm(u: Unit, env: Env, s: Scope, name: string, args: Sexp, tail: bool, k: Known)
    requires CompileForm(u, env, s, name, args, tail).Ok? && Matches(s.vars, k)
    ensures Traces(s, CompileForm(u, env, s, name, args, tail).value.scope, k, SeenForm(k, name, args))
    decreases Size(args), 5
  {
    hide Traces, Matches, FormOf, Keyword, Compile, Seen, SeenEach, SeenBack, SeenTemplate, CompileConses,
         CompileLambda, CompileCall;
    hide CompileBackquote, CompileLet1, CompileBody, CompileAndOr, CompileIf, FreeNames;
    match FormOf(name)
    case FIf => TracesIf(u, env, s, args, tail, k);
    case FAnd => TracesAndOr(u, env, s, args, false, k);
    case FOr => TracesAndOr(u, env, s, args, true, k);
    case FProgn => TracesBody(u, env, s, args, tail, k);
    case FLet1 => TracesLet1(u, env, s, args, tail, k);
    case FQuote => TracesSelf(s, k);
    case FBackquote => TracesBackquote(u, env, s, Car(args), k);
    case FList => TracesConses(u, env, s, args, 0, k);
    case FLambda => TracesLambda(u, env, s, args, k);
    case FCall => TracesCall(u, env, s, name, args, tail, k);
    case _ => assert false;
  }

  /** Labels do not matter. */
  lemma TracesFrom(s: Scope, s1: Scope, s': Scope, k: Known, k': Known)
    requires Traces(s1, s', k, k') && s1.parent == s.parent
    ensures Traces(s, s', k, k')
  {
  }

  lemma {:induction false} TracesIf(u: Unit, env: Env, s: Scope, args: Sexp, tail: bool, k: Known)
    requires CompileIf(u, env, s, args, tail).Ok? && Matches(s.vars, k)
    ensures Traces(s, CompileIf(u, env, s, args, tail).value.scope, k, SeenEach(k, args))
    decreases Size(args), 3
  {
    hide Traces, Matches, Compile, CompileBranches, Seen;
    assert Listp(args) && Length(args) >= 2;
    assert Listp(args.cdr) && Length(args.cdr) >= 1;
    var c, k1 := Compile(u, env, s, args.car, false).value, Seen(k, args.car);
    TracesExpr(u, env, s, args.car, false, k);
    TracesMatches(s, c.scope, k, k1);
    TracesBranches(u, env, c, args.cdr.car, args.cdr.cdr, tail, k1);
    assert SeenEach(k, args) == SeenEach(Seen(k1, args.cdr.car), args.cdr.cdr);
    TracesThen(s, c.scope, CompileIf(u, env, s, args, tail).value.scope, k, k1, SeenEach(k, args));
  }

  lemma {:induction false} TracesBranches(u: Unit, env: Env, c: Gen, e: Sexp, rest: Sexp, tail: bool, k: Known)
    requires CompileBranches(u, env, c, e, rest, tail).Ok? && Matches(c.scope.vars, k) && Listp(rest)
    requires Length(rest) <= 1
    ensures Traces(c.scope, CompileBranches(u, env, c, e, rest, tail).value.scope, k, SeenEach(Seen(k, e), rest))
    decreases Size(e) + Size(rest), 3
  {
    hide Traces, Matches, Compile, Seen, SeenEach;
    var s2 := NextPc(NextPc(c.scope).0).0;
    var t, k1 := Compile(u, env, s2, e, tail).value, Seen(k, e);
    TracesExpr(u, env, s2, e, tail, k);
    TracesMatches(s2, t.scope, k, k1);
    TracesElse(u, env, t.scope, rest, tail, k1);
    var s' := CompileElse(u, env, t.scope, rest, tail).value.scope;
    TracesThen(s2, t.scope, s', k, k1, SeenEach(k1, rest));
    TracesFrom(c.scope, s2, s', k, SeenEach(k1, rest));
  }

  lemma {:induction false} TracesElse(u: Unit, env: Env, s: Scope, rest: Sexp, tail: bool, k: Known)
    requires CompileElse(u, env, s, rest, tail).Ok? && Matches(s.vars, k) && Listp(rest) && Length(rest) <= 1
    ensures Traces(s, CompileElse(u, env, s, rest, tail).value.scope, k, SeenEach(k, rest))
    decreases Size(rest), 2
  {
    hide Traces, Matches, Compile, Seen;
    if rest.SCons? {
      TracesExpr(u, env, s, rest.car, tail, k);
      assert SeenEach(k, rest) == SeenEach(Seen(k, rest.car), SNil) == Seen(k, rest.car);
    } else {
      TracesSelf(s, k);
    }
  }

  lemma {:induction false} TracesAndOr(u: Unit, env: Env, s: Scope, args: Sexp, or: bool, k: Known)
    requires CompileAndOr(u, env, s, args, or).Ok? && Matches(s.vars, k)
    ensures Traces(s, CompileAndOr(u, env, s, args, or).value.scope, k, SeenEach(k, args))
    decreases Size(args), 3
  {
    hide Traces, Matches, CompileChain, SeenEach;
    var s1 := NextPc(s).0;
    TracesChain(u, env, s1, args, or, s.nextpc, k);
    TracesFrom(s, s1, CompileChain(u, env, s1, args, or, s.nextpc).value.scope, k, SeenEach(k, args));
  }

  lemma {:induction false} TracesChain(u: Unit, env: Env, s: Scope, args: Sexp, or: bool, after: nat, k: Known)
    requires CompileChain(u, env, s, args, or, after).Ok? && Matches(s.vars, k) && Listp(args)
    ensures Traces(s, CompileChain(u, env, s, args, or, after).value.scope, k, SeenEach(k, args))
    decreases Size(args), 2
  {
    hide Traces, Matches, Compile, Seen;
    if !args.SCons? {
      TracesSelf(s, k);
    } else {
      var g, k1 := Compile(u, env, s, args.car, false).value, Seen(k, args.car);
      TracesExpr(u, env, s, args.car, false, k);
      if args.cdr.SNil? {
        assert SeenEach(k, args) == SeenEach(k1, SNil) == k1;
      } else {
        TracesMatches(s, g.scope, k, k1);
        TracesChain(u, env, g.scope, args.cdr, or, after, k1);
        TracesThen(s, g.scope, CompileChain(u, env, g.scope, args.cdr, or, after).value.scope, k, k1,
                   SeenEach(k1, args.cdr));
      }
    }
  }

  lemma {:induction false} TracesBody(u: Unit, env: Env, s: Scope, body: Sexp, tail: bool, k: Known)
    requires CompileBody(u, env, s, body, tail).Ok? && Matches(s.vars, k)
    ensures Traces(s, CompileBody(u, env, s, body, tail).value.scope, k, SeenEach(k, body))
    decreases Size(body), 2
  {
    hide Traces, Matches, Compile, Seen;
    if !body.SCons? {
      TracesSelf(s, k);
    } else {
      var t := tail && body.cdr.SNil?;
      var g, k1 := Compile(u, env, s, body.car, t).value, Seen(k, body.car);
      TracesExpr(u, env, s, body.car, t, k);
      TracesMatches(s, g.scope, k, k1);
      TracesBody(u, env, g.scope, body.cdr, tail, k1);
      TracesThen(s, g.scope, CompileBody(u, env, g.scope, body.cdr, tail).value.scope, k, k1, SeenEach(k1, body.cdr));
    }
  }

  lemma {:induction false} TracesLet1(u: Unit, env: Env, s: Scope, args: Sexp, tail: bool, k: Known)
    requires CompileLet1(u, env, s, args, tail).Ok? && Matches(s.vars, k)
    ensures var v := Seen(k, Car(Cdr(Car(args))));
      var own := v.own + if Car(Car(args)).SSym? then {Car(Car(args)).name} else {};
      Traces(s, CompileLet1(u, env, s, args, tail).value.scope, k, SeenEach(v.(own := own), Cdr(args)))
    decreases Size(args), 3
  {
    hide Traces, Matches, Compile, CompileBody, Seen, SeenEach, LocalAlloc, LocalFree;
    var e, name, body := Car(Cdr(args.car)), Car(args.car).name, args.cdr;
    assert Size(e) < Size(args) && Size(body) < Size(args);
    var v, k1 := Compile(u, env, s, e, false).value, Seen(k, e);
    TracesExpr(u, env, s, e, false, k);
    TracesMatches(s, v.scope, k, k1);
    var (s1, i) := LocalAlloc(v.scope);
    var s2, k2 := AddVariable(s1, Variable(name, Bound, i)), k1.(own := k1.own + {name});
    AllocSame(v.scope);
    NewName(v.scope.vars, Variable(name, Bound, i), k1);
    TracesBody(u, env, s2, body, tail, k2);
    var g, k3 := CompileBody(u, env, s2, body, tail).value, SeenEach(k2, body);
    FreeSame(g.scope, i);
    TracesAround(s, v.scope, s2, g.scope, LocalFree(g.scope, i), k, k1, k2, k3);
  }

  lemma AllocSame(s: Scope)
    ensures LocalAlloc(s).0.vars == s.vars && LocalAlloc(s).0.parent == s.parent
  {
  }

  lemma FreeSame(s: Scope, i: nat)
    ensures LocalFree(s, i).vars == s.vars && LocalFree(s, i).parent == s.parent
  {
  }

  lemma TracesAround(s: Scope, s1: Scope, s2: Scope, s3: Scope, s4: Scope, k: Known, k1: Known, k2: Known, k3: Known)
    requires Traces(s, s1, k, k1) && Traces(s2, s3, k2, k3) && s2.parent == s1.parent && k2.captured == k1.captured
    requires s4.vars == s3.vars && s4.parent == s3.parent
    ensures Traces(s, s4, k, k3)
  {
    assert Traces(s1, s4, k1, k3);
    TracesThen(s, s1, s4, k, k1, k3);
  }

  lemma {:induction false} TracesBackquote(u: Unit, env: Env, s: Scope, val: Sexp, k: Known)
    requires CompileBackquote(u, env, s, val).Ok? && Matches(s.vars, k)
    ensures Traces(s, CompileBackquote(u, env, s, val).value.scope, k, SeenTemplate(k, val))
    decreases Size(val), 3
  {
    hide Traces, Matches, Compile, CompileTemplate, Seen, SeenItems;
    if !Listp(val) {
      TracesSelf(s, k);
    } else if SymStrEq(Car(val), "unquote") {
      TracesExpr(u, env, s, Car(Cdr(val)), false, k);
    } else {
      TracesTemplate(u, env, s, val, k);
    }
  }

  lemma {:induction false} TracesTemplate(u: Unit, env: Env, s: Scope, items: Sexp, k: Known)
    requires CompileTemplate(u, env, s, items).Ok? && Matches(s.vars, k)
    ensures Traces(s, CompileTemplate(u, env, s, items).value.scope, k, SeenItems(k, items))
    decreases Size(items), 2
  {
    hide Traces, Matches, Compile, CompileBackquote, Seen, SeenTemplate;
    if !items.SCons? {
      TracesSelf(s, k);
    } else {
      var r, k1 := CompileTemplate(u, env, s, items.cdr).value, SeenItems(k, items.cdr);
      TracesTemplate(u, env, s, items.cdr, k);
      TracesMatches(s, r.scope, k, k1);
      if IsSplice(items.car) {
        TracesExpr(u, env, r.scope, Car(Cdr(items.car)), false, k1);
      } else {
        TracesBackquote(u, env, r.scope, items.car, k1);
      }
      TracesThen(s, r.scope, CompileTemplate(u, env, s, items).value.scope, k, k1, SeenItems(k, items));
    }
  }

  /** Looking at a list from its end up to element `n`, and at the elements before it. */
  function SeenFrom(k: Known, items: Sexp, n: nat): Known
    decreases Size(items)
  {
    if n == 0 then SeenBack(k, items) else if !items.SCons? then k else SeenFrom(k, items.cdr, n - 1)
  }

  function SeenFirst(k: Known, items: Sexp, n: nat): Known
    decreases Size(items)
  {
    if !items.SCons? || n == 0 then k else Seen(SeenFirst(k, items.cdr, n - 1), items.car)
  }

  lemma {:induction false} SeenSplit(k: Known, items: Sexp, n: nat)
    ensures SeenBack(k, items) == SeenFirst(SeenFrom(k, items, n), items, n)
    ensures Length(items) <= n ==> SeenFrom(k, items, n) == k
    decreases Size(items)
  {
    if items.SCons? && n > 0 { SeenSplit(k, items.cdr, n - 1); }
  }

  lemma {:induction false} TracesConses(u: Unit, env: Env, s: Scope, args: Sexp, skip: nat, k: Known)
    requires CompileConses(u, env, s, args, skip).Ok? && Matches(s.vars, k)
    ensures Traces(s, CompileConses(u, env, s, args, skip).value.scope, k, SeenFrom(k, args, skip))
    decreases Size(args), 2
  {
    hide Traces, Matches, Compile, Seen;
    if !args.SCons? {
      TracesSelf(s, k);
    } else if skip > 0 {
      TracesConses(u, env, s, args.cdr, skip - 1, k);
    } else {
      var r, k1 := CompileConses(u, env, s, args.cdr, 0).value, SeenBack(k, args.cdr);
      TracesConses(u, env, s, args.cdr, 0, k);
      assert SeenFrom(k, args.cdr, 0) == k1;
      TracesMatches(s, r.scope, k, k1);
      TracesExpr(u, env, r.scope, args.car, false, k1);
      TracesThen(s, r.scope, CompileConses(u, env, s, args, 0).value.scope, k, k1, Seen(k1, args.car));
    }
  }

  lemma {:induction false} TracesPushes(u: Unit, env: Env, s: Scope, args: Sexp, n: nat, k: Known)
    requires CompilePushes(u, env, s, args, n).Ok? && Matches(s.vars, k)
    ensures Traces(s, CompilePushes(u, env, s, args, n).value.scope, k, SeenFirst(k, args, n))
    decreases Size(args), 2
  {
    hide Traces, Matches, Compile, Seen;
    if !args.SCons? || n == 0 {
      TracesSelf(s, k);
    } else {
      var r, k1 := CompilePushes(u, env, s, args.cdr, n - 1).value, SeenFirst(k, args.cdr, n - 1);
      TracesPushes(u, env, s, args.cdr, n - 1, k);
      TracesMatches(s, r.scope, k, k1);
      TracesExpr(u, env, r.scope, args.car, false, k1);
      TracesThen(s, r.scope, CompilePushes(u, env, s, args, n).value.scope, k, k1, Seen(k1, args.car));
    }
  }

  lemma {:induction false} TracesCall(u: Unit, env: Env, s: Scope, name: string, args: Sexp, tail: bool, k: Known)
    requires CompileCall(u, env, s, name, args, tail).Ok? && Matches(s.vars, k)
    ensures Traces(s, CompileCall(u, env, s, name, args, tail).value.scope, k, SeenBack(k, args))
    decreases Size(args), 4
  {
    hide Traces, Matches, CompileArgs, SeenBack;
    TracesArgs(u, env, s, if s.fname == name then s.args else FindFunction(env, name).args, args, k);
  }

  lemma {:induction false} TracesArgs(u: Unit, env: Env, s: Scope, a: Args, args: Sexp, k: Known)
    requires CompileArgs(u, env, s, a, args).Ok? && Matches(s.vars, k)
    ensures Traces(s, CompileArgs(u, env, s, a, args).value.scope, k, SeenBack(k, args))
    decreases Size(args), 3
  {
    hide Traces, Matches, CompileConses, CompilePushes, SeenBack, SeenFrom, SeenFirst, Length, PushDefaults;
    var t := a.Total();
    var r, k1 := if a.variadic then CompileConses(u, env, s, args, t).value else Gen([], s), SeenFrom(k, args, t);
    SeenSplit(k, args, t);
    if a.variadic {
      TracesConses(u, env, s, args, t, k);
    } else {
      TracesSelf(s, k);
    }
    TracesMatches(s, r.scope, k, k1);
    TracesPushes(u, env, r.scope, args, t, k1);
    TracesThen(s, r.scope, CompilePushes(u, env, r.scope, args, t).value.scope, k, k1, SeenBack(k, args));
  }
}
