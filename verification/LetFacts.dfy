/** What the let1s of a form leave behind: their names on the variable list and the slots
    that were handed out, whether or not they hide other variables. */
module LetFacts {
  import opened Wrappers
  import opened Sexps
  import opened Words
  import opened Scopes
  import opened ScopeFacts
  import opened Codegen
  import opened CodegenFacts

  // ----- the let1s of a form -----

  /** The names that let1s bind, lambdas excluded, and how deeply the let1s are nested. */
  datatype Lets = Lets(names: set<string>, depth: nat)

  const NO_LETS := Lets({}, 0)

  function Both(a: Lets, b: Lets): Lets { Lets(a.names + b.names, Max(a.depth, b.depth)) }

  function LetsOf(e: Sexp): Lets
    decreases Size(e), 1
  {
    if e.SCons? && e.car.SSym? then LetsForm(e.car.name, e.cdr) else NO_LETS
  }

  function LetsForm(name: string, args: Sexp): Lets
    decreases Size(args), 2
  {
    match FormOf(name)
    case FLet1 => Both(LetsOf(Car(Cdr(Car(args)))), Around(Car(Car(args)), LetsEach(Cdr(args))))
    case FBackquote => LetsTemplate(Car(args))
    case FQuote => NO_LETS
    case FLambda => NO_LETS
    case _ => LetsEach(args)
  }

  /** A let1 of `name` around a body. */
  function Around(name: Sexp, body: Lets): Lets {
    Lets(body.names + (if name.SSym? then {name.name} else {}), 1 + body.depth)
  }

  function LetsEach(items: Sexp): Lets
    decreases Size(items), 0
  {
    if items.SCons? then Both(LetsOf(items.car), LetsEach(items.cdr)) else NO_LETS
  }

  function LetsTemplate(val: Sexp): Lets
    decreases Size(val), 1
  {
    if !Listp(val) then NO_LETS
    else if SymStrEq(Car(val), "unquote") then LetsOf(Car(Cdr(val)))
    else LetsItems(val)
  }

  function LetsItems(items: Sexp): Lets
    decreases Size(items), 0
  {
    if !items.SCons? then NO_LETS
    else Both(LetsItems(items.cdr), if IsSplice(items.car) then LetsOf(Car(Cdr(items.car)))
      else LetsTemplate(items.car))
  }

  lemma {:induction false} LetsDepth(e: Sexp)
    ensures LetsOf(e).depth == Need(e)
    decreases Size(e), 1
  {
    if e.SCons? && e.car.SSym? {
      match FormOf(e.car.name)
      case FLet1 =>
        LetsDepth(Car(Cdr(Car(e.cdr))));
        LetsEachDepth(Cdr(e.cdr));
      case FBackquote => LetsTemplateDepth(Car(e.cdr));
      case _ => LetsEachDepth(e.cdr);
    }
  }

  lemma {:induction false} LetsEachDepth(items: Sexp)
    ensures LetsEach(items).depth == NeedEach(items)
    decreases Size(items), 0
  {
    if items.SCons? {
      LetsDepth(items.car);
      LetsEachDepth(items.cdr);
    }
  }

  lemma {:induction false} LetsTemplateDepth(val: Sexp)
    ensures LetsTemplate(val).depth == NeedTemplate(val)
    decreases Size(val), 1
  {
    if Listp(val) {
      if SymStrEq(Car(val), "unquote") { LetsDepth(Car(Cdr(val))); } else { LetsItemsDepth(val); }
    }
  }

  lemma {:induction false} LetsItemsDepth(items: Sexp)
    ensures LetsItems(items).depth == NeedItems(items)
    decreases Size(items), 0
  {
    if items.SCons? {
      if IsSplice(items.car) { LetsDepth(Car(Cdr(items.car))); } else { LetsTemplateDepth(items.car); }
      LetsItemsDepth(items.cdr);
    }
  }

  // ----- what generating code leaves -----

  /** Where a name is found afterwards: if a let1 bound it, at a slot from `d` on, and
      otherwise where it was found before, or as a capture. */
  ghost predicate Found(was: Option<Variable>, now: Option<Variable>, bound: bool, d: nat) {
    if bound then now.Some? && now.value.kind == Bound && now.value.number >= d
    else now == was || (was.None? && now.Some? && now.value.kind == Free)
  }

  /** From `s` to `s'` code with the let1s `l` was generated, with `d` slots in use. */
  ghost predicate Leaves(s: Scope, s': Scope, d: nat, l: Lets) {
    && Slotted(s', d) && ParentGrown(s.parent, s'.parent)
    && (forall x {:trigger Find(s'.vars, x)} :: Found(Find(s.vars, x), Find(s'.vars, x), x in l.names, d))
    && (forall v :: v in s'.vars ==> v in s.vars || v.kind == Free || (v.kind == Bound && v.number < d + l.depth))
    && (l.depth > 0 ==> exists v :: v in s'.vars && v.kind == Bound && v.number == d + l.depth - 1)
    && (forall v :: v in s.vars ==> v in s'.vars)
  }

  lemma LeavesThen(s: Scope, s1: Scope, s2: Scope, d: nat, a: Lets, b: Lets)
    requires Leaves(s, s1, d, a) && Leaves(s1, s2, d, b)
    ensures Leaves(s, s2, d, Both(a, b)) && Leaves(s, s2, d, Both(b, a))
  {
    ParentGrownTrans(s.parent, s1.parent, s2.parent);
    forall x ensures Found(Find(s.vars, x), Find(s2.vars, x), x in a.names || x in b.names, d) {
      assert Found(Find(s.vars, x), Find(s1.vars, x), x in a.names, d);
    }
  }

  lemma LeavesGrown(s: Scope, s': Scope, d: nat)
    requires Slotted(s, d) && Grown(s, s')
    ensures Leaves(s, s', d, NO_LETS)
  {
    forall x ensures Found(Find(s.vars, x), Find(s'.vars, x), false, d) {
      CapturesKept(s.vars, s'.vars, {x});
    }
    CapturesKept(s.vars, s'.vars, {});
    CapturesSubset(s.vars, s'.vars);
  }

  lemma LeavesSelf(s: Scope, d: nat)
    requires Slotted(s, d)
    ensures Leaves(s, s, d, NO_LETS)
  {
    GrownSelf(s);
    LeavesGrown(s, s, d);
  }

  /** Labels do not matter. */
  lemma LeavesFrom(s: Scope, s1: Scope, s': Scope, d: nat, l: Lets)
    requires Leaves(s1, s', d, l) && s1 == s.(nextpc := s1.nextpc)
    ensures Leaves(s, s', d, l)
  {
  }

  /** A let1 of `name` around code that leaves `l` inside. */
  lemma LeavesAround(s: Scope, name: string, s': Scope, d: nat, l: Lets)
    requires Slotted(s, d)
    requires Leaves(AddVariable(LocalAlloc(s).0, Variable(name, Bound, d)), s', d + 1, l)
    ensures Leaves(s, LocalFree(s', d), d, Around(SSym(name), l))
  {
    hide FirstUnused;
    AllocSlot(s, d);
    FreeSlot(s', d);
    var v := Variable(name, Bound, d);
    var s1 := AddVariable(LocalAlloc(s).0, v);
    assert s1.vars[1..] == s.vars;
    forall x ensures Found(Find(s.vars, x), Find(s'.vars, x), x in l.names || x == name, d) {
      assert Found(Find(s1.vars, x), Find(s'.vars, x), x in l.names, d + 1);
    }
    assert v in s1.vars;
  }

  lemma {:induction false} CapturesSubset(vars: seq<Variable>, vars': seq<Variable>)
    requires CapturesAdded(vars, vars')
    ensures forall v :: v in vars ==> v in vars'
    decreases |vars'|
  {
    if vars' != vars { CapturesSubset(vars, vars'[1..]); }
  }

  lemma {:induction false} CapturesGrow(vars: seq<Variable>, s: Scope)
    requires Captures(vars, s).Ok?
    ensures Grown(s, Captures(vars, s).value.scope)
    decreases |vars|
  {
    if vars == [] {
      GrownSelf(s);
    } else if vars[0].kind != Free {
      CapturesGrow(vars[1..], s);
    } else {
      FindVariableGrown(s, vars[0].name);
      var s1 := FindVariable(s, vars[0].name).0;
      CapturesGrow(vars[1..], s1);
      GrownTrans(s, s1, Captures(vars[1..], s1).value.scope);
    }
  }

  // ----- every form -----

  lemma {:induction false} LeavesExpr(u: Unit, env: Env, s: Scope, e: Sexp, tail: bool, d: nat)
    requires Compile(u, env, s, e, tail).Ok? && Slotted(s, d)
    ensures Leaves(s, Compile(u, env, s, e, tail).value.scope, d, LetsOf(e))
    decreases Size(e), 1
  {
    hide Leaves, CompileForm, LetsForm, Slotted, Keyword, FormOf, Listp, FindVariable;
    match e
    case SCons(_, fsym, args) => LeavesForm(u, env, s, fsym.name, args, tail, d);
    case SSym(name) =>
      FindVariableGrown(s, name);
      LeavesGrown(s, FindVariable(s, name).0, d);
      LeavesSelf(s, d);
    case _ => LeavesSelf(s, d);
  }

  lemma {:induction false} LeavesForm(u: Unit, env: Env, s: Scope, name: string, args: Sexp, tail: bool, d: nat)
    requires CompileForm(u, env, s, name, args, tail).Ok? && Slotted(s, d)
    ensures Leaves(s, CompileForm(u, env, s, name, args, tail).value.scope, d, LetsForm(name, args))
    decreases Size(args), 5
  {
    hide Leaves, Slotted, FormOf, Keyword, Compile, LetsOf, LetsEach, LetsTemplate, CompileConses, CompileLambda,
         CompileCall;
    hide CompileBackquote, CompileLet1, CompileBody, CompileAndOr, CompileIf, Around, Both;
    match FormOf(name)
    case FIf => LeavesIf(u, env, s, args, tail, d);
    case FAnd => LeavesAndOr(u, env, s, args, false, d);
    case FOr => LeavesAndOr(u, env, s, args, true, d);
    case FProgn => LeavesBody(u, env, s, args, tail, d);
    case FLet1 => LeavesLet1(u, env, s, args, tail, d);
    case FQuote => LeavesSelf(s, d);
    case FBackquote => LeavesBackquote(u, env, s, Car(args), d);
    case FList => LeavesConses(u, env, s, args, 0, d);
    case FLambda => LeavesLambda(u, env, s, args, d);
    case FCall => LeavesCall(u, env, s, name, args, tail, d);
    case _ => assert false;
  }

  lemma {:induction false} LeavesLambda(u: Unit, env: Env, s: Scope, args: Sexp, d: nat)
    requires CompileLambda(u, env, s, args).Ok? && Slotted(s, d)
    ensures Leaves(s, CompileLambda(u, env, s, args).value.scope, d, NO_LETS)
    decreases Size(args), 4
  {
    hide CompileFunction, Captures, Slotted, Leaves;
    LeavesFunction(u, env, Car(args), Cdr(args), "recurse", Some(s));
    var f := CompileFunction(u, env, Car(args), Cdr(args), "recurse", Some(s)).value;
    var s1 := f.scope.parent.value;
    CapturesGrow(f.scope.vars, s1);
    GrownTrans(s, s1, Captures(f.scope.vars, s1).value.scope);
    LeavesGrown(s, Captures(f.scope.vars, s1).value.scope, d);
  }

  /** Declaring parameters adds arguments and nothing else. */
  lemma {:induction false} ArgsOnly(defaults: map<Sexp, Word>, i: Sexp, s: Scope, a: Args, inOptional: bool)
    requires ListToArgs(defaults, i, s, a, inOptional).Ok?
    ensures var s' := ListToArgs(defaults, i, s, a, inOptional).value;
      s' == s.(vars := s'.vars, args := s'.args) && forall v :: v in s'.vars ==> v in s.vars || v.kind == Argument
    decreases i
  {
    if !i.SNil? {
      var val := Car(i);
      if val.SSym? && !a.variadic && val.name == "&" {
        var v := Variable(Car(Cdr(i)).name, Argument, a.Total());
        ArgsOnly(defaults, Cdr(Cdr(i)), AddVariable(s, v), a.(variadic := true), inOptional);
      } else if val.SSym? {
        var v := Variable(val.name, Argument, a.required);
        ArgsOnly(defaults, Cdr(i), AddVariable(s, v), a.(required := a.required + 1), inOptional);
      } else if Listp(val) {
        var v := Variable(Car(val).name, Argument, a.Total());
        ArgsOnly(defaults, Cdr(i), AddVariable(s, v), a.(optional := a.optional + [defaults[Elt(val, 1)]]), true);
      } else {
        ArgsOnly(defaults, Cdr(i), s, a, inOptional);
      }
    }
  }

  lemma {:induction false} LeavesFunction(u: Unit, env: Env, arglist: Sexp, body: Sexp, name: string,
                                          parent: Option<Scope>)
    requires CompileFunction(u, env, arglist, body, name, parent).Ok?
    ensures var s' := CompileFunction(u, env, arglist, body, name, parent).value.scope;
      && ParentGrown(parent, s'.parent)
      && (forall v :: v in s'.vars && v.kind == Bound ==> v.number < LetsEach(body).depth)
      && (LetsEach(body).depth > 0 ==>
            exists v :: v in s'.vars && v.kind == Bound && v.number == LetsEach(body).depth - 1)
    decreases Size(body), 3
  {
    hide CompileBody, WalkEach, LetsEach, Setup;
    var s := ListToArgs(u.defaults, arglist, FreshScope(name, parent), Args(0, [], false), false).value;
    ArgsOnly(u.defaults, arglist, FreshScope(name, parent), Args(0, [], false), false);
    WalkEachSame(s, s, body, false);
    var s1 := Prepare(s, body).0;
    LeavesBody(u, env, s1, body, true, 0);
  }

  lemma {:induction false} LeavesIf(u: Unit, env: Env, s: Scope, args: Sexp, tail: bool, d: nat)
    requires CompileIf(u, env, s, args, tail).Ok? && Slotted(s, d)
    ensures Leaves(s, CompileIf(u, env, s, args, tail).value.scope, d, LetsEach(args))
    decreases Size(args), 3
  {
    hide Leaves, Slotted, Compile, CompileBranches, LetsOf;
    assert Listp(args) && Length(args) >= 2;
    assert Listp(args.cdr) && Length(args.cdr) >= 1;
    assert LetsEach(args.cdr) == Both(LetsOf(args.cdr.car), LetsEach(args.cdr.cdr));
    var c := Compile(u, env, s, args.car, false).value;
    LeavesExpr(u, env, s, args.car, false, d);
    LeavesSlotted(s, c.scope, d, LetsOf(args.car));
    LeavesBranches(u, env, c, args.cdr.car, args.cdr.cdr, tail, d);
    LeavesThen(s, c.scope, CompileIf(u, env, s, args, tail).value.scope, d, LetsOf(args.car), LetsEach(args.cdr));
  }

  lemma LeavesSlotted(s: Scope, s': Scope, d: nat, l: Lets)
    requires Leaves(s, s', d, l)
    ensures Slotted(s', d)
  {
  }

  lemma {:induction false} LeavesBranches(u: Unit, env: Env, c: Gen, e: Sexp, rest: Sexp, tail: bool, d: nat)
    requires CompileBranches(u, env, c, e, rest, tail).Ok? && Slotted(c.scope, d) && Listp(rest) && Length(rest) <= 1
    ensures Leaves(c.scope, CompileBranches(u, env, c, e, rest, tail).value.scope, d, Both(LetsOf(e), LetsEach(rest)))
    decreases Size(e) + Size(rest), 3
  {
    hide Leaves, Compile, LetsOf, LetsEach, Both;
    var s2 := NextPc(NextPc(c.scope).0).0;
    var t := Compile(u, env, s2, e, tail).value;
    LeavesExpr(u, env, s2, e, tail, d);
    LeavesSlotted(s2, t.scope, d, LetsOf(e));
    LeavesElse(u, env, t.scope, rest, tail, d);
    var s' := CompileElse(u, env, t.scope, rest, tail).value.scope;
    LeavesThen(s2, t.scope, s', d, LetsOf(e), LetsEach(rest));
    LeavesFrom(c.scope, s2, s', d, Both(LetsOf(e), LetsEach(rest)));
  }

  lemma {:induction false} LeavesElse(u: Unit, env: Env, s: Scope, rest: Sexp, tail: bool, d: nat)
    requires CompileElse(u, env, s, rest, tail).Ok? && Slotted(s, d) && Listp(rest) && Length(rest) <= 1
    ensures Leaves(s, CompileElse(u, env, s, rest, tail).value.scope, d, LetsEach(rest))
    decreases Size(rest), 2
  {
    hide Leaves, Slotted, Compile, LetsOf;
    if rest.SCons? {
      LeavesExpr(u, env, s, rest.car, tail, d);
      assert LetsEach(rest) == Both(LetsOf(rest.car), NO_LETS) == LetsOf(rest.car);
    } else {
      LeavesSelf(s, d);
    }
  }

  lemma {:induction false} LeavesAndOr(u: Unit, env: Env, s: Scope, args: Sexp, or: bool, d: nat)
    requires CompileAndOr(u, env, s, args, or).Ok? && Slotted(s, d)
    ensures Leaves(s, CompileAndOr(u, env, s, args, or).value.scope, d, LetsEach(args))
    decreases Size(args), 3
  {
    hide Leaves, CompileChain, LetsEach;
    var s1 := NextPc(s).0;
    LeavesChain(u, env, s1, args, or, s.nextpc, d);
    LeavesFrom(s, s1, CompileChain(u, env, s1, args, or, s.nextpc).value.scope, d, LetsEach(args));
  }

  lemma {:induction false} LeavesChain(u: Unit, env: Env, s: Scope, args: Sexp, or: bool, after: nat, d: nat)
    requires CompileChain(u, env, s, args, or, after).Ok? && Slotted(s, d) && Listp(args)
    ensures Leaves(s, CompileChain(u, env, s, args, or, after).value.scope, d, LetsEach(args))
    decreases Size(args), 2
  {
    hide Leaves, Slotted, Compile, LetsOf;
    if !args.SCons? {
      LeavesSelf(s, d);
    } else {
      var g := Compile(u, env, s, args.car, false).value;
      LeavesExpr(u, env, s, args.car, false, d);
      LeavesSlotted(s, g.scope, d, LetsOf(args.car));
      if args.cdr.SNil? {
        assert LetsEach(args) == Both(LetsOf(args.car), NO_LETS) == LetsOf(args.car);
      } else {
        LeavesChain(u, env, g.scope, args.cdr, or, after, d);
        var s' := CompileChain(u, env, g.scope, args.cdr, or, after).value.scope;
        LeavesThen(s, g.scope, s', d, LetsOf(args.car), LetsEach(args.cdr));
      }
    }
  }

  lemma {:induction false} LeavesBody(u: Unit, env: Env, s: Scope, body: Sexp, tail: bool, d: nat)
    requires CompileBody(u, env, s, body, tail).Ok? && Slotted(s, d)
    ensures Leaves(s, CompileBody(u, env, s, body, tail).value.scope, d, LetsEach(body))
    decreases Size(body), 2
  {
    hide Leaves, Slotted, Compile, LetsOf;
    if !body.SCons? {
      LeavesSelf(s, d);
    } else {
      var t := tail && body.cdr.SNil?;
      var g := Compile(u, env, s, body.car, t).value;
      LeavesExpr(u, env, s, body.car, t, d);
      LeavesSlotted(s, g.scope, d, LetsOf(body.car));
      LeavesBody(u, env, g.scope, body.cdr, tail, d);
      var s' := CompileBody(u, env, g.scope, body.cdr, tail).value.scope;
      LeavesThen(s, g.scope, s', d, LetsOf(body.car), LetsEach(body.cdr));
    }
  }

  lemma {:induction false} LeavesLet1(u: Unit, env: Env, s: Scope, args: Sexp, tail: bool, d: nat)
    requires CompileLet1(u, env, s, args, tail).Ok? && Slotted(s, d)
    ensures Leaves(s, CompileLet1(u, env, s, args, tail).value.scope, d,
                   Both(LetsOf(Car(Cdr(Car(args)))), Around(Car(Car(args)), LetsEach(Cdr(args)))))
    decreases Size(args), 3
  {
    hide Leaves, Slotted, Compile, CompileBody, LetsOf, LetsEach, LocalAlloc, LocalFree, Around, Both;
    var e, name, body := Car(Cdr(args.car)), Car(args.car).name, args.cdr;
    assert Size(e) < Size(args) && Size(body) < Size(args);
    var v := Compile(u, env, s, e, false).value;
    LeavesExpr(u, env, s, e, false, d);
    LeavesSlotted(s, v.scope, d, LetsOf(e));
    AllocSlot(v.scope, d);
    var s2 := AddVariable(LocalAlloc(v.scope).0, Variable(name, Bound, d));
    SlottedMoved(LocalAlloc(v.scope).0, s2, d + 1);
    LeavesBody(u, env, s2, body, tail, d + 1);
    var s3 := CompileBody(u, env, s2, body, tail).value.scope;
    LeavesAround(v.scope, name, s3, d, LetsEach(body));
    LeavesThen(s, v.scope, LocalFree(s3, d), d, LetsOf(e), Around(SSym(name), LetsEach(body)));
  }

  lemma SlottedMoved(s: Scope, s': Scope, d: nat)
    requires Slotted(s, d) && s'.slots == s.slots
    ensures Slotted(s', d)
  {
  }

  lemma {:induction false} LeavesBackquote(u: Unit, env: Env, s: Scope, val: Sexp, d: nat)
    requires CompileBackquote(u, env, s, val).Ok? && Slotted(s, d)
    ensures Leaves(s, CompileBackquote(u, env, s, val).value.scope, d, LetsTemplate(val))
    decreases Size(val), 3
  {
    hide Leaves, Slotted, Compile, CompileTemplate, LetsOf, LetsItems;
    if !Listp(val) {
      LeavesSelf(s, d);
    } else if SymStrEq(Car(val), "unquote") {
      LeavesExpr(u, env, s, Car(Cdr(val)), false, d);
    } else {
      LeavesTemplate(u, env, s, val, d);
    }
  }

  lemma {:induction false} LeavesTemplate(u: Unit, env: Env, s: Scope, items: Sexp, d: nat)
    requires CompileTemplate(u, env, s, items).Ok? && Slotted(s, d)
    ensures Leaves(s, CompileTemplate(u, env, s, items).value.scope, d, LetsItems(items))
    decreases Size(items), 2
  {
    hide Leaves, Slotted, Compile, CompileBackquote, LetsOf, LetsTemplate, Both;
    if !items.SCons? {
      LeavesSelf(s, d);
    } else {
      var r := CompileTemplate(u, env, s, items.cdr).value;
      LeavesTemplate(u, env, s, items.cdr, d);
      LeavesSlotted(s, r.scope, d, LetsItems(items.cdr));
      var s' := CompileTemplate(u, env, s, items).value.scope;
      if IsSplice(items.car) {
        LeavesExpr(u, env, r.scope, Car(Cdr(items.car)), false, d);
        LeavesThen(s, r.scope, s', d, LetsItems(items.cdr), LetsOf(Car(Cdr(items.car))));
      } else {
        LeavesBackquote(u, env, r.scope, items.car, d);
        LeavesThen(s, r.scope, s', d, LetsItems(items.cdr), LetsTemplate(items.car));
      }
    }
  }

  /** The let1s of a list from element `skip` on, and before element `k`. */
  function LetsFrom(items: Sexp, skip: nat): Lets
    decreases Size(items)
  {
    if skip == 0 then LetsEach(items) else if !items.SCons? then NO_LETS else LetsFrom(items.cdr, skip - 1)
  }

  function LetsFirst(items: Sexp, k: nat): Lets
    decreases Size(items)
  {
    if !items.SCons? || k == 0 then NO_LETS else Both(LetsOf(items.car), LetsFirst(items.cdr, k - 1))
  }

  lemma {:induction false} LetsSplit(items: Sexp, k: nat)
    ensures LetsEach(items) == Both(LetsFrom(items, k), LetsFirst(items, k))
    ensures Length(items) <= k ==> LetsFrom(items, k) == NO_LETS
    decreases Size(items)
  {
    if items.SCons? && k > 0 { LetsSplit(items.cdr, k - 1); }
  }

  lemma {:induction false} LeavesConses(u: Unit, env: Env, s: Scope, args: Sexp, skip: nat, d: nat)
    requires CompileConses(u, env, s, args, skip).Ok? && Slotted(s, d)
    ensures Leaves(s, CompileConses(u, env, s, args, skip).value.scope, d, LetsFrom(args, skip))
    decreases Size(args), 2
  {
    hide Leaves, Slotted, Compile, LetsOf;
    if !args.SCons? {
      LeavesSelf(s, d);
    } else if skip > 0 {
      LeavesConses(u, env, s, args.cdr, skip - 1, d);
    } else {
      var r := CompileConses(u, env, s, args.cdr, 0).value;
      LeavesConses(u, env, s, args.cdr, 0, d);
      assert LetsFrom(args.cdr, 0) == LetsEach(args.cdr);
      LeavesSlotted(s, r.scope, d, LetsEach(args.cdr));
      LeavesExpr(u, env, r.scope, args.car, false, d);
      LeavesThen(s, r.scope, CompileConses(u, env, s, args, 0).value.scope, d, LetsEach(args.cdr), LetsOf(args.car));
    }
  }

  lemma {:induction false} LeavesPushes(u: Unit, env: Env, s: Scope, args: Sexp, k: nat, d: nat)
    requires CompilePushes(u, env, s, args, k).Ok? && Slotted(s, d)
    ensures Leaves(s, CompilePushes(u, env, s, args, k).value.scope, d, LetsFirst(args, k))
    decreases Size(args), 2
  {
    hide Leaves, Slotted, Compile, LetsOf;
    if !args.SCons? || k == 0 {
      LeavesSelf(s, d);
    } else {
      var r := CompilePushes(u, env, s, args.cdr, k - 1).value;
      LeavesPushes(u, env, s, args.cdr, k - 1, d);
      LeavesSlotted(s, r.scope, d, LetsFirst(args.cdr, k - 1));
      LeavesExpr(u, env, r.scope, args.car, false, d);
      var s' := CompilePushes(u, env, s, args, k).value.scope;
      LeavesThen(s, r.scope, s', d, LetsFirst(args.cdr, k - 1), LetsOf(args.car));
    }
  }

  lemma {:induction false} LeavesCall(u: Unit, env: Env, s: Scope, name: string, args: Sexp, tail: bool, d: nat)
    requires CompileCall(u, env, s, name, args, tail).Ok? && Slotted(s, d)
    ensures Leaves(s, CompileCall(u, env, s, name, args, tail).value.scope, d, LetsEach(args))
    decreases Size(args), 4
  {
    hide Leaves, Slotted, CompileArgs, LetsEach;
    LeavesArgs(u, env, s, if s.fname == name then s.args else FindFunction(env, name).args, args, d);
  }

  lemma {:induction false} LeavesArgs(u: Unit, env: Env, s: Scope, a: Args, args: Sexp, d: nat)
    requires CompileArgs(u, env, s, a, args).Ok? && Slotted(s, d)
    ensures Leaves(s, CompileArgs(u, env, s, a, args).value.scope, d, LetsEach(args))
    decreases Size(args), 3
  {
    hide Leaves, Slotted, CompileConses, CompilePushes, LetsEach, LetsFrom, LetsFirst, Length, PushDefaults, Both;
    var t := a.Total();
    LetsSplit(args, t);
    var r := if a.variadic then CompileConses(u, env, s, args, t).value else Gen([], s);
    if a.variadic {
      LeavesConses(u, env, s, args, t, d);
      LeavesSlotted(s, r.scope, d, LetsFrom(args, t));
    } else {
      LeavesSelf(s, d);
    }
    LeavesPushes(u, env, r.scope, args, t, d);
    LeavesThen(s, r.scope, CompilePushes(u, env, r.scope, args, t).value.scope, d, LetsFrom(args, t),
               LetsFirst(args, t));
  }

  // ----- names that survive -----

  /** A slot below `d` is in use. */
  predicate Live(v: Option<Variable>, d: nat) {
    v.Some? && v.value.kind == Bound ==> v.value.number < d
  }

  /** Behind any form a name is found where it was, or as a new capture, if and only if no
      let1 of the form binds it; the others are found in an abandoned slot. */
  lemma NameSurvives(u: Unit, env: Env, s: Scope, e: Sexp, tail: bool, d: nat, x: string)
    requires Compile(u, env, s, e, tail).Ok? && Slotted(s, d) && Live(Find(s.vars, x), d)
    ensures var (was, now) := (Find(s.vars, x), Find(Compile(u, env, s, e, tail).value.scope.vars, x));
      && (now == was || (was.None? && now.Some? && now.value.kind == Free) <==> x !in LetsOf(e).names)
      && (x in LetsOf(e).names ==> now.Some? && now.value.kind == Bound && !Live(now, d))
  {
    hide Compile, LetsOf, Slotted;
    LeavesExpr(u, env, s, e, tail, d);
    var s' := Compile(u, env, s, e, tail).value.scope;
    assert Found(Find(s.vars, x), Find(s'.vars, x), x in LetsOf(e).names, d);
  }
}
