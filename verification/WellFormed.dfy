/** Which forms compile, said of their syntax alone. */
module WellFormedness {
  import opened Wrappers
  import opened Sexps
  import opened Words
  import opened Codegen

  /** Where a form stands: what is defined, and the function that a self-call enters. */
  datatype Place = Place(defaults: map<Sexp, Word>, env: Env, fname: string, args: Args)

  /** The names and the argument record that a parameter list declares. */
  datatype Signature = Signature(names: set<string>, args: Args)

  const NO_SIGNATURE := Signature({}, Args(0, [], false))

  /** Required names, then (name default) pairs; `&` and a name once, anywhere.  Numbers and
      strings are passed over. */
  function SignatureOf(defaults: map<Sexp, Word>, list: Sexp, g: Signature): Result<Signature>
    decreases list
  {
    if list.SNil? then Ok(g)
    else if !list.SCons? then Err(EInvalid)
    else
      var (p, rest) := (list.car, list.cdr);
      if p == SSym("&") && !g.args.variadic then
        (match rest
         case SCons(_, SSym(x), more) =>
           SignatureOf(defaults, more, Signature(g.names + {x}, g.args.(variadic := true)))
         case _ => Err(EExpected))
      else if p.SSym? then
        if g.args.optional != [] then Err(EInvalid)
        else SignatureOf(defaults, rest, Signature(g.names + {p.name}, g.args.(required := g.args.required + 1)))
      else if !Listp(p) then SignatureOf(defaults, rest, g)
      else if !p.SCons? || !p.cdr.SCons? || !p.cdr.cdr.SNil? then Err(EInvalid)
      else if !p.car.SSym? || p.cdr.car !in defaults then Err(Unmodelled)
      else
        var a := g.args.(optional := g.args.optional + [defaults[p.cdr.car]]);
        SignatureOf(defaults, rest, Signature(g.names + {p.car.name}, a))
  }

  /** The names known behind a form, when `names` are known in front of it: a let1 leaves
      its name.  An error if the form is not well formed. */
  function Behind(p: Place, names: set<string>, e: Sexp): Result<set<string>>
    decreases Size(e), 3
  {
    match e
    case SSym(x) =>
      if x == "nil" || x == "t" || x == "+current-file+" then Ok(names)
      else if x == "+current-env+" then Err(Unmodelled)
      else if x in names then Ok(names) else Err(EInvalid)
    case SCons(_, f, args) =>
      if !Listp(args) then Err(EUnimpl) else if !f.SSym? then Err(EExpected) else BehindForm(p, names, f.name, args)
    case _ => Ok(names)
  }

  function BehindForm(p: Place, names: set<string>, f: string, args: Sexp): Result<set<string>>
    decreases Size(args), 4
  {
    if f == "if" then BehindIf(p, names, args)
    else if f == "and" || f == "or" then if args.SCons? then BehindEach(p, names, args) else Err(EArgs)
    else if f == "progn" then BehindEach(p, names, args)
    else if f == "let1" then BehindLet1(p, names, args)
    else if f == "quote" then (match args case SCons(_, _, SNil) => Ok(names) case _ => Err(EArgs))
    else if f == "backquote" then
      (match args case SCons(_, val, SNil) => BehindTemplate(p, names, val) case _ => Err(EArgs))
    else if f == "list" then BehindBack(p, names, args)
    else if f == "lambda" then
      (match args
       case SCons(_, list, body) => BehindLambda(p, names, list, body)
       case _ => Ok(names))
    else if f == "gc" || f == "function" || f == "eval" || f == "load" then Err(Unmodelled)
    else if f == p.fname then BehindCall(p, names, p.args, args)
    else
      match FindFunction(p.env, f)
      case NoFunctions => Err(EInvalid)
      case Function(_, a, _, _) => BehindCall(p, names, a, args)
  }

  /** Two or three operands. */
  function BehindIf(p: Place, names: set<string>, args: Sexp): Result<set<string>>
    decreases Size(args), 3
  {
    match args
    case SCons(_, _, SCons(_, _, SNil)) => BehindEach(p, names, args)
    case SCons(_, _, SCons(_, _, SCons(_, _, SNil))) => BehindEach(p, names, args)
    case _ => Err(EArgs)
  }

  /** A binding, then at least one form. */
  function BehindLet1(p: Place, names: set<string>, args: Sexp): Result<set<string>>
    decreases Size(args), 3
  {
    if !args.SCons? || !args.cdr.SCons? || !args.car.SCons? then Err(EArgs)
    else
      assert Size(args.car.cdr) < Size(args.car) < Size(args);
      match BehindValue(p, names, args.car.car, args.car.cdr)
      case Err(x) => Err(x)
      case Ok(k) => BehindEach(p, k, args.cdr)
  }

  /** The binding (x value), or (x . atom), whose value is nil. */
  function BehindValue(p: Place, names: set<string>, x: Sexp, value: Sexp): Result<set<string>>
    decreases Size(value), 3
  {
    match value
    case SNil => Err(EArgs)
    case SCons(_, e, SNil) =>
      if !x.SSym? then Err(Unmodelled)
      else
        (match Behind(p, names, e)
         case Err(y) => Err(y)
         case Ok(k) => Ok(k + {x.name}))
    case SCons(_, _, _) => Err(EArgs)
    case _ => if !x.SSym? then Err(Unmodelled) else Ok(names + {x.name})
  }

  /** A lambda leaves no name. */
  function BehindLambda(p: Place, names: set<string>, list: Sexp, body: Sexp): Result<set<string>>
    decreases Size(body), 4
  {
    match InFunction(p, names, "recurse", list, body)
    case Err(x) => Err(x)
    case Ok(_) => Ok(names)
  }

  /** The parameters are in order, and the body is well formed with their names known. */
  function InFunction(p: Place, names: set<string>, name: string, list: Sexp, body: Sexp): Result<set<string>>
    decreases Size(body), 3
  {
    match SignatureOf(p.defaults, list, NO_SIGNATURE)
    case Err(x) => Err(x)
    case Ok(g) => BehindEach(Place(p.defaults, p.env, name, g.args), names + g.names, body)
  }

  /** As many arguments as the function accepts. */
  function BehindCall(p: Place, names: set<string>, a: Args, args: Sexp): Result<set<string>>
    decreases Size(args), 3
  {
    var n := Count(args);
    if a.required <= n && (a.variadic || n <= a.required + |a.optional|) then BehindBack(p, names, args) else Err(EArgs)
  }

  function Count(items: Sexp): nat { if items.SCons? then 1 + Count(items.cdr) else 0 }

  /** Forms, from the first to the last. */
  function BehindEach(p: Place, names: set<string>, items: Sexp): Result<set<string>>
    decreases Size(items), 0
  {
    match items
    case SCons(_, e, rest) =>
      (match Behind(p, names, e)
       case Err(x) => Err(x)
       case Ok(k) => BehindEach(p, k, rest))
    case _ => Ok(names)
  }

  /** Forms, from the last to the first. */
  function BehindBack(p: Place, names: set<string>, items: Sexp): Result<set<string>>
    decreases Size(items), 0
  {
    match items
    case SCons(_, e, rest) =>
      (match BehindBack(p, names, rest)
       case Err(x) => Err(x)
       case Ok(k) => Behind(p, k, e))
    case _ => Ok(names)
  }

  /** A template: an unquote has one operand, everything but a list is a constant. */
  function BehindTemplate(p: Place, names: set<string>, val: Sexp): Result<set<string>>
    decreases Size(val), 1
  {
    if !Listp(val) then Ok(names)
    else if val.SCons? && val.car == SSym("unquote") then
      (match val.cdr
       case SCons(_, e, SNil) => assert Size(e) < Size(val.cdr) < Size(val); Behind(p, names, e)
       case _ => Err(EArgs))
    else BehindItems(p, names, val)
  }

  /** The elements of a template, from the last to the first. */
  function BehindItems(p: Place, names: set<string>, items: Sexp): Result<set<string>>
    decreases Size(items), 0
  {
    match items
    case SCons(_, item, rest) =>
      (match BehindItems(p, names, rest)
       case Err(x) => Err(x)
       case Ok(k) =>
         if Listp(item) && item.SCons? && item.car == SSym("unquote-splice") then
           (match item.cdr
            case SCons(_, e, SNil) => assert Size(e) < Size(item.cdr) < Size(item); Behind(p, k, e)
            case _ => Err(EArgs))
         else BehindTemplate(p, k, item))
    case _ => Ok(names)
  }

  predicate WellFormed(p: Place, names: set<string>, e: Sexp) { Behind(p, names, e).Ok? }
}

/** The compiler accepts exactly the well-formed forms. */
module CompilesFacts {
  import opened Wrappers
  import opened Sexps
  import opened Words
  import opened Scopes
  import opened ScopeFacts
  import opened Codegen
  import opened Source
  import opened CodegenFacts
  import opened CaptureFacts
  import opened WellFormedness

  // ----- the names a scope can find -----

  ghost function Own(vars: seq<Variable>): set<string> { set v | v in vars :: v.name }

  /** All names of a scope and of those it stands in. */
  ghost function Reach(s: Scope): set<string>
    decreases s
  {
    Own(s.vars) + if s.parent.Some? then Reach(s.parent.value) else {}
  }

  lemma {:induction false} FindReach(s: Scope, x: string)
    ensures FindVariable(s, x).1.Some? <==> x in Reach(s)
    ensures x in Reach(s) ==> Reach(FindVariable(s, x).0) == Reach(s)
    ensures var s' := FindVariable(s, x).0; s'.fname == s.fname && s'.args == s.args
    decreases s
  {
    if Find(s.vars, x).None? && s.parent.Some? {
      FindReach(s.parent.value, x);
      var v := Variable(x, Free, s.closureSlots);
      assert Own([v] + s.vars) == Own(s.vars) + {x};
    }
  }

  ghost function At(u: Unit, env: Env, s: Scope): Place { Place(u.defaults, env, s.fname, s.args) }

  /** Code is generated if and only if the form is well formed, and the names `k` known
      behind it are then what the next scope can find; otherwise the error is the same. */
  ghost predicate Agrees(r: Result<Gen>, k: Result<set<string>>, s: Scope) {
    match r
    case Err(x) => k == Err(x)
    case Ok(g) => k == Ok(Reach(g.scope)) && g.scope.fname == s.fname && g.scope.args == s.args
  }

  // ----- parameters -----

  lemma {:induction false} SignatureAgrees(defaults: map<Sexp, Word>, list: Sexp, s: Scope, a: Args)
    ensures var (r, g) := (ListToArgs(defaults, list, s, a, a.optional != []),
                           SignatureOf(defaults, list, Signature(Own(s.vars), a)));
      match r
      case Err(x) => g == Err(x)
      case Ok(s') => g == Ok(Signature(Own(s'.vars), s'.args)) && s' == s.(vars := s'.vars, args := s'.args)
    decreases list
  {
    hide ListToArgs, SignatureOf, Own;
    if list.SNil? {
      NoParameters(defaults, s, a);
    } else {
      var ok, rest, s1, a1 := Parameter(defaults, list, s, a);
      if ok { SignatureAgrees(defaults, rest, s1, a1); }
    }
  }

  lemma NoParameters(defaults: map<Sexp, Word>, s: Scope, a: Args)
    ensures ListToArgs(defaults, SNil, s, a, a.optional != []) == Ok(s.(args := a))
    ensures SignatureOf(defaults, SNil, Signature(Own(s.vars), a)) == Ok(Signature(Own(s.vars), a))
  {
  }

  /** Both sides take one parameter off the list and go on with `rest`, or both refuse. */
  ghost predicate Takes(defaults: map<Sexp, Word>, list: Sexp, s: Scope, a: Args, ok: bool, rest: Sexp, s1: Scope,
                        a1: Args) {
    var (r, g) := (ListToArgs(defaults, list, s, a, a.optional != []),
                   SignatureOf(defaults, list, Signature(Own(s.vars), a)));
    if ok then
      && rest < list && s1 == s.(vars := s1.vars) && r == ListToArgs(defaults, rest, s1, a1, a1.optional != [])
      && g == SignatureOf(defaults, rest, Signature(Own(s1.vars), a1))
    else r.Err? && g == Err(r.error)
  }

  lemma Parameter(defaults: map<Sexp, Word>, list: Sexp, s: Scope, a: Args)
    returns (ok: bool, rest: Sexp, s1: Scope, a1: Args)
    requires !list.SNil?
    ensures Takes(defaults, list, s, a, ok, rest, s1, a1)
  {
    hide Takes;
    if list.SCons? && list.car.SSym? {
      ok, rest, s1, a1 := NameParameter(defaults, list, s, a);
    } else if list.SCons? && Listp(list.car) {
      ok, rest, s1, a1 := PairParameter(defaults, list, s, a);
    } else {
      ok, rest, s1, a1 := list.SCons?, Cdr(list), s, a;
      OddParameter(defaults, list, s, a);
    }
  }

  lemma NameParameter(defaults: map<Sexp, Word>, list: Sexp, s: Scope, a: Args)
    returns (ok: bool, rest: Sexp, s1: Scope, a1: Args)
    requires list.SCons? && list.car.SSym?
    ensures Takes(defaults, list, s, a, ok, rest, s1, a1)
  {
    hide Own;
    ok, rest, s1, a1 := false, list, s, a;
    if list.car.name == "&" && !a.variadic {
      if list.cdr.SCons? && list.cdr.car.SSym? {
        var v := Variable(list.cdr.car.name, Argument, a.Total());
        NewOwn(s, v);
        ok, rest, s1, a1 := true, list.cdr.cdr, AddVariable(s, v), a.(variadic := true);
      }
    } else if a.optional == [] {
      var v := Variable(list.car.name, Argument, a.required);
      NewOwn(s, v);
      ok, rest, s1, a1 := true, list.cdr, AddVariable(s, v), a.(required := a.required + 1);
    }
  }

  lemma PairParameter(defaults: map<Sexp, Word>, list: Sexp, s: Scope, a: Args)
    returns (ok: bool, rest: Sexp, s1: Scope, a1: Args)
    requires list.SCons? && !list.car.SSym? && Listp(list.car)
    ensures Takes(defaults, list, s, a, ok, rest, s1, a1)
  {
    hide Own, Listp, Length;
    ok, rest, s1, a1 := false, list, s, a;
    var p := list.car;
    PairShape(p);
    if Length(p) == 2 && p.car.SSym? && p.cdr.car in defaults {
      var v := Variable(p.car.name, Argument, a.Total());
      NewOwn(s, v);
      ok, rest, s1, a1 := true, list.cdr, AddVariable(s, v), a.(optional := a.optional + [defaults[p.cdr.car]]);
    }
  }

  lemma PairShape(p: Sexp)
    requires Listp(p)
    ensures Length(p) == 2 <==> p.SCons? && p.cdr.SCons? && p.cdr.cdr.SNil?
    ensures Length(p) == 2 ==> Elt(p, 1) == p.cdr.car
  {
    if p.SCons? {
      OneOperand(p.cdr);
      assert Elt(p.cdr, 0) == Car(p.cdr);
    }
  }

  lemma OddParameter(defaults: map<Sexp, Word>, list: Sexp, s: Scope, a: Args)
    requires !list.SNil? && (list.SCons? ==> !list.car.SSym? && !Listp(list.car))
    ensures Takes(defaults, list, s, a, list.SCons?, Cdr(list), s, a)
  {
    if list.SCons? && list.car.SCons? && list.car.cdr.SCons? {
      assert list.car.cdr.cdr.SNil? ==> Listp(list.car.cdr);
    }
  }

  lemma NewOwn(s: Scope, v: Variable)
    ensures Own(AddVariable(s, v).vars) == Own(s.vars) + {v.name}
  {
  }

  // ----- every form -----

  lemma {:induction false} Accepts(u: Unit, env: Env, s: Scope, e: Sexp, tail: bool)
    ensures Agrees(Compile(u, env, s, e, tail), Behind(At(u, env, s), Reach(s), e), s)
    decreases Size(e), 1
  {
    hide CompileForm, BehindForm, FindVariable, Reach;
    match e
    case SCons(_, fsym, args) =>
      if fsym.SSym? && Listp(args) { AcceptsForm(u, env, s, fsym.name, args, tail); }
    case SSym(name) => FindReach(s, name);
    case _ =>
  }

  lemma {:induction false} AcceptsForm(u: Unit, env: Env, s: Scope, name: string, args: Sexp, tail: bool)
    requires Listp(args)
    ensures Agrees(CompileForm(u, env, s, name, args, tail), BehindForm(At(u, env, s), Reach(s), name, args), s)
    decreases Size(args), 5
  {
    hide FormOf, Keyword, Compile, CompileBody, CompileIf, CompileAndOr, CompileLet1, CompileBackquote, CompileList;
    hide CompileLambda, CompileCall, BehindIf, BehindLet1, BehindTemplate, BehindLambda, BehindCall, Behind, Reach;
    hide FindFunction, BehindEach, BehindBack, Agrees;
    FormUnrolled(name);
    match FormOf(name)
    case FIf => AcceptsIf(u, env, s, args, tail);
    case FAnd => AcceptsAndOr(u, env, s, args, false);
    case FOr => AcceptsAndOr(u, env, s, args, true);
    case FProgn => AcceptsBody(u, env, s, args, tail);
    case FLet1 => AcceptsLet1(u, env, s, args, tail);
    case FQuote => AcceptsQuote(u, env, s, args);
    case FBackquote => AcceptsQuasi(u, env, s, args);
    case FList => AcceptsList(u, env, s, args);
    case FLambda => AcceptsLambda(u, env, s, args);
    case FCall => AcceptsCall(u, env, s, name, args, tail);
    case _ => Refused(s, Unmodelled);
  }

  lemma Refused(s: Scope, x: Error)
    ensures Agrees(Err(x), Err(x), s)
  {
  }

  lemma AcceptsQuote(u: Unit, env: Env, s: Scope, args: Sexp)
    requires Listp(args)
    ensures Agrees(if Length(args) != 1 then Err(EArgs) else Ok(Gen([MovEaxImm(WordOf(Car(args)))], s)),
                   match args { case SCons(_, _, SNil) => Ok(Reach(s)) case _ => Err(EArgs) }, s)
  {
    OneOperand(args);
  }

  lemma OneOperand(args: Sexp)
    ensures Length(args) == 1 && Listp(args) <==> args.SCons? && args.cdr.SNil?
  {
    if args.SCons? { assert Length(args.cdr) == 0 <==> args.cdr.SNil?; }
  }

  lemma {:induction false} AcceptsQuasi(u: Unit, env: Env, s: Scope, args: Sexp)
    requires Listp(args)
    ensures Agrees(if Length(args) != 1 then Err(EArgs) else CompileBackquote(u, env, s, Car(args)),
                   match args { case SCons(_, val, SNil) => BehindTemplate(At(u, env, s), Reach(s), val) case _ =>
                     Err(EArgs) }, s)
    decreases Size(args), 4
  {
    hide CompileBackquote, BehindTemplate, Reach;
    OneOperand(args);
    if args.SCons? && args.cdr.SNil? { AcceptsBackquote(u, env, s, args.car); }
  }

  lemma {:induction false} AcceptsIf(u: Unit, env: Env, s: Scope, args: Sexp, tail: bool)
    requires Listp(args)
    ensures Agrees(CompileIf(u, env, s, args, tail), BehindIf(At(u, env, s), Reach(s), args), s)
    decreases Size(args), 3
  {
    hide Compile, CompileBranches, Behind, Reach;
    TwoOrThree(args);
    if 2 <= Length(args) <= 3 {
      Accepts(u, env, s, args.car, false);
      var c := Compile(u, env, s, args.car, false);
      if c.Ok? { AcceptsBranches(u, env, c.value, args.cdr, tail); }
    }
  }

  lemma TwoOrThree(args: Sexp)
    requires Listp(args)
    ensures 2 <= Length(args) <= 3 <==>
      args.SCons? && args.cdr.SCons? && (args.cdr.cdr.SNil? || (args.cdr.cdr.SCons? && args.cdr.cdr.cdr.SNil?))
    ensures 2 <= Length(args) <= 3 ==> Listp(args.cdr) && Length(args.cdr.cdr) <= 1
  {
    if args.SCons? && args.cdr.SCons? {
      assert Length(args) == 1 + Length(args.cdr) == 2 + Length(args.cdr.cdr);
      OneOperand(args.cdr.cdr);
    }
  }

  lemma {:induction false} AcceptsBranches(u: Unit, env: Env, c: Gen, two: Sexp, tail: bool)
    requires two.SCons? && Listp(two) && Length(two.cdr) <= 1
    ensures Agrees(CompileBranches(u, env, c, two.car, two.cdr, tail),
                   BehindEach(At(u, env, c.scope), Reach(c.scope), two), c.scope)
    decreases Size(two), 1
  {
    hide Compile, CompileElse, Behind;
    var s2 := NextPc(NextPc(c.scope).0).0;
    Accepts(u, env, s2, two.car, tail);
    var t := Compile(u, env, s2, two.car, tail);
    if t.Ok? { AcceptsElse(u, env, t.value.scope, two.cdr, tail); }
  }

  lemma {:induction false} AcceptsElse(u: Unit, env: Env, s: Scope, rest: Sexp, tail: bool)
    requires Listp(rest) && Length(rest) <= 1
    ensures Agrees(CompileElse(u, env, s, rest, tail), BehindEach(At(u, env, s), Reach(s), rest), s)
    decreases Size(rest), 2
  {
    hide Compile, Behind, Reach;
    if rest.SCons? {
      Accepts(u, env, s, rest.car, tail);
      assert rest.cdr.SNil? by { assert Length(rest.cdr) == 0; }
    }
  }

  lemma {:induction false} AcceptsAndOr(u: Unit, env: Env, s: Scope, args: Sexp, or: bool)
    requires Listp(args)
    ensures Agrees(CompileAndOr(u, env, s, args, or),
                   if args.SCons? then BehindEach(At(u, env, s), Reach(s), args) else Err(EArgs), s)
    decreases Size(args), 3
  {
    hide CompileChain, BehindEach;
    if args.SCons? { AcceptsChain(u, env, NextPc(s).0, args, or, s.nextpc); }
  }

  lemma {:induction false} AcceptsChain(u: Unit, env: Env, s: Scope, args: Sexp, or: bool, after: nat)
    requires Listp(args)
    ensures Agrees(CompileChain(u, env, s, args, or, after), BehindEach(At(u, env, s), Reach(s), args), s)
    decreases Size(args), 2
  {
    hide Compile, Behind, Reach;
    if args.SCons? {
      Accepts(u, env, s, args.car, false);
      var g := Compile(u, env, s, args.car, false);
      if g.Ok? && !args.cdr.SNil? { AcceptsChain(u, env, g.value.scope, args.cdr, or, after); }
    }
  }

  lemma {:induction false} AcceptsBody(u: Unit, env: Env, s: Scope, body: Sexp, tail: bool)
    requires Listp(body)
    ensures Agrees(CompileBody(u, env, s, body, tail), BehindEach(At(u, env, s), Reach(s), body), s)
    decreases Size(body), 2
  {
    hide Compile, Behind, Reach;
    if body.SCons? {
      var t := tail && body.cdr.SNil?;
      Accepts(u, env, s, body.car, t);
      var g := Compile(u, env, s, body.car, t);
      if g.Ok? { AcceptsBody(u, env, g.value.scope, body.cdr, tail); }
    }
  }

  lemma {:induction false} AcceptsLet1(u: Unit, env: Env, s: Scope, args: Sexp, tail: bool)
    requires Listp(args)
    ensures Agrees(CompileLet1(u, env, s, args, tail), BehindLet1(At(u, env, s), Reach(s), args), s)
    decreases Size(args), 3
  {
    hide Compile, CompileBound, Behind, BehindEach, Reach;
    LetShape(args);
    if args.SCons? && args.cdr.SCons? && args.car.SCons? {
      var (x, value) := (args.car.car, args.car.cdr);
      OneOperand(value);
      assert Length(args.car) == 1 + Length(value) && (Length(value) == 0 <==> value.SNil?);
      if x.SSym? && Length(args.car) == 2 {
        assert Size(Car(value)) <= Size(value) < Size(args.car) < Size(args);
        Accepts(u, env, s, Car(value), false);
        NilBehind(At(u, env, s), Reach(s));
        var v := Compile(u, env, s, Car(value), false);
        if v.Ok? { AcceptsBound(u, env, v.value, x.name, args.cdr, tail); }
      }
    }
  }

  lemma NilBehind(p: Place, names: set<string>)
    ensures Behind(p, names, SNil) == Ok(names)
  {
  }

  lemma LetShape(args: Sexp)
    requires Listp(args)
    ensures Length(args) < 2 <==> !args.SCons? || !args.cdr.SCons?
    ensures args.SCons? ==> Listp(args.cdr)
    ensures args.SCons? && Length(args.car) == 2 ==> args.car.SCons?
  {
  }

  lemma {:induction false} AcceptsBound(u: Unit, env: Env, v: Gen, x: string, body: Sexp, tail: bool)
    requires Listp(body)
    ensures Agrees(CompileBound(u, env, v, x, body, tail),
                   BehindEach(At(u, env, v.scope), Reach(v.scope) + {x}, body), v.scope)
    decreases Size(body), 3
  {
    hide CompileBody, BehindEach, FirstUnused;
    var (s1, i) := LocalAlloc(v.scope);
    var s2 := AddVariable(s1, Variable(x, Bound, i));
    NewOwn(s1, Variable(x, Bound, i));
    assert Reach(s2) == Reach(v.scope) + {x};
    AcceptsBody(u, env, s2, body, tail);
  }

  // ----- calls -----

  /** The elements from number `n` on, and those before it. */
  function BehindFrom(p: Place, names: set<string>, items: Sexp, n: nat): Result<set<string>>
    decreases items
  {
    if n == 0 then BehindBack(p, names, items) else if !items.SCons? then Ok(names)
    else BehindFrom(p, names, items.cdr, n - 1)
  }

  function BehindFirst(p: Place, names: set<string>, items: Sexp, n: nat): Result<set<string>>
    decreases items
  {
    if !items.SCons? || n == 0 then Ok(names)
    else
      match BehindFirst(p, names, items.cdr, n - 1)
      case Err(x) => Err(x)
      case Ok(k) => Behind(p, k, items.car)
  }

  lemma {:induction false} BackSplit(p: Place, names: set<string>, items: Sexp, n: nat)
    requires Listp(items)
    ensures BehindBack(p, names, items) ==
      match BehindFrom(p, names, items, n)
      case Err(x) => Err(x)
      case Ok(k) => BehindFirst(p, k, items, n)
    ensures Count(items) == Length(items) && (Length(items) <= n ==> BehindFrom(p, names, items, n) == Ok(names))
    decreases items
  {
    hide Behind;
    if items.SCons? { BackSplit(p, names, items.cdr, if n > 0 then n - 1 else 0); }
  }

  lemma {:induction false} AcceptsConses(u: Unit, env: Env, s: Scope, args: Sexp, skip: nat)
    requires Listp(args)
    ensures Agrees(CompileConses(u, env, s, args, skip), BehindFrom(At(u, env, s), Reach(s), args, skip), s)
    decreases Size(args), 2
  {
    hide Compile, Behind, Reach;
    if args.SCons? {
      if skip > 0 {
        AcceptsConses(u, env, s, args.cdr, skip - 1);
      } else {
        AcceptsConses(u, env, s, args.cdr, 0);
        var r := CompileConses(u, env, s, args.cdr, 0);
        if r.Ok? { Accepts(u, env, r.value.scope, args.car, false); }
      }
    }
  }

  lemma {:induction false} AcceptsPushes(u: Unit, env: Env, s: Scope, args: Sexp, n: nat)
    requires Listp(args)
    ensures Agrees(CompilePushes(u, env, s, args, n), BehindFirst(At(u, env, s), Reach(s), args, n), s)
    decreases Size(args), 2
  {
    hide Compile, Behind, Reach;
    if args.SCons? && n > 0 {
      AcceptsPushes(u, env, s, args.cdr, n - 1);
      var r := CompilePushes(u, env, s, args.cdr, n - 1);
      if r.Ok? { Accepts(u, env, r.value.scope, args.car, false); }
    }
  }

  lemma {:induction false} AcceptsList(u: Unit, env: Env, s: Scope, args: Sexp)
    requires Listp(args)
    ensures Agrees(CompileList(u, env, s, args), BehindBack(At(u, env, s), Reach(s), args), s)
    decreases Size(args), 3
  {
    hide CompileConses, BehindBack, Reach;
    AcceptsConses(u, env, s, args, 0);
  }

  lemma {:induction false} AcceptsArgs(u: Unit, env: Env, s: Scope, a: Args, args: Sexp)
    requires Listp(args)
    ensures Agrees(CompileArgs(u, env, s, a, args), BehindCall(At(u, env, s), Reach(s), a, args), s)
    decreases Size(args), 3
  {
    hide CompileConses, CompilePushes, BehindFrom, BehindFirst, BehindBack, PushDefaults, Reach, Count, Length;
    var p, t := At(u, env, s), a.Total();
    BackSplit(p, Reach(s), args, t);
    if AreArgsAcceptable(a, Length(args)) {
      if a.variadic { AcceptsConses(u, env, s, args, t); }
      var r := if a.variadic then CompileConses(u, env, s, args, t) else Ok(Gen([], s));
      if r.Ok? { AcceptsPushes(u, env, r.value.scope, args, t); }
    }
  }

  lemma {:induction false} AcceptsCall(u: Unit, env: Env, s: Scope, name: string, args: Sexp, tail: bool)
    requires Listp(args)
    ensures Agrees(CompileCall(u, env, s, name, args, tail),
                   if name == s.fname then BehindCall(At(u, env, s), Reach(s), s.args, args)
                   else match FindFunction(env, name) {
                     case NoFunctions => Err(EInvalid)
                     case Function(_, a, _, _) => BehindCall(At(u, env, s), Reach(s), a, args)
                   }, s)
    decreases Size(args), 4
  {
    hide CompileArgs, BehindCall, Reach, FindFunction, MoveArgs;
    if name == s.fname {
      AcceptsArgs(u, env, s, s.args, args);
    } else {
      var f := FindFunction(env, name);
      if f.Function? { AcceptsArgs(u, env, s, f.args, args); }
    }
  }

  // ----- functions -----

  /** Compiling a function succeeds exactly if it is well formed where it stands. */
  lemma {:induction false} AcceptsFunction(u: Unit, env: Env, arglist: Sexp, body: Sexp, name: string,
                                           parent: Option<Scope>)
    requires Listp(body)
    ensures var r := CompileFunction(u, env, arglist, body, name, parent);
      var k := InFunction(Outside(u, env), if parent.Some? then Reach(parent.value) else {}, name, arglist, body);
      match r
      case Err(x) => k == Err(x)
      case Ok(_) => k.Ok?
    decreases Size(body), 3
  {
    hide CompileBody, BehindEach, ListToArgs, SignatureOf, Setup, WalkEach;
    var fresh_ := FreshScope(name, parent);
    assert Own(fresh_.vars) == {};
    SignatureAgrees(u.defaults, arglist, fresh_, Args(0, [], false));
    var r := ListToArgs(u.defaults, arglist, fresh_, Args(0, [], false), false);
    if r.Ok? {
      WalkEachSame(r.value, r.value, body, false);
      var s1 := Prepare(r.value, body).0;
      AcceptsBody(u, env, s1, body, true);
      var outer := if parent.Some? then Reach(parent.value) else {};
      assert Reach(s1) == outer + Own(r.value.vars);
    }
  }

  /** A place in no function: what a function needs of it are the definitions. */
  ghost function Outside(u: Unit, env: Env): Place { Place(u.defaults, env, "", Args(0, [], false)) }

  lemma {:induction false} AcceptsLambda(u: Unit, env: Env, s: Scope, args: Sexp)
    requires Listp(args)
    ensures Agrees(CompileLambda(u, env, s, args),
                   match args {
                     case SCons(_, list, body) => BehindLambda(At(u, env, s), Reach(s), list, body)
                     case _ => Ok(Reach(s))
                   }, s)
    decreases Size(args), 4
  {
    hide CompileFunction, Captures, BehindEach, Reach, SignatureOf;
    AcceptsFunction(u, env, Car(args), Cdr(args), "recurse", Some(s));
    EmptyOk(Outside(u, env), Reach(s));
    var f := CompileFunction(u, env, Car(args), Cdr(args), "recurse", Some(s));
    if f.Ok? { CapturesFound(u, env, s, Car(args), Cdr(args)); }
  }

  lemma EmptyOk(p: Place, names: set<string>)
    ensures InFunction(p, names, "recurse", SNil, SNil).Ok?
  {
  }

  /** What a lambda captures is found where it stands, and looking it up adds no name. */
  lemma CapturesFound(u: Unit, env: Env, s: Scope, list: Sexp, body: Sexp)
    requires CompileFunction(u, env, list, body, "recurse", Some(s)).Ok?
    ensures var f := CompileFunction(u, env, list, body, "recurse", Some(s)).value;
      && f.scope.parent.Some? && Captures(f.scope.vars, f.scope.parent.value).Ok?
      && var s' := Captures(f.scope.vars, f.scope.parent.value).value.scope;
         Reach(s') == Reach(s) && s'.fname == s.fname && s'.args == s.args
  {
    hide CompileFunction, Captures, Looked, FreeNames, Reach;
    TracesFunction(u, env, list, body, "recurse", Some(s));
    var f := CompileFunction(u, env, list, body, "recurse", Some(s)).value;
    LookedReach(s, Frees(f.scope.vars));
    AllCaptured(f.scope.vars, f.scope.parent.value);
  }

  lemma {:induction false} LookedReach(s: Scope, xs: seq<string>)
    requires Looked(s, xs).Some?
    ensures var s' := Looked(s, xs).value;
      && Reach(s') == Reach(s) && s'.fname == s.fname && s'.args == s.args
      && (forall x :: x in xs ==> Find(s'.vars, x).Some?) && forall x :: Find(s.vars, x).Some? ==>
        Find(s'.vars, x).Some?
    decreases |xs|
  {
    hide Reach;
    if xs != [] {
      FindReach(s, xs[0]);
      var s1 := FindVariable(s, xs[0]).0;
      NowKnown(s, xs[0]);
      LookedReach(s1, xs[1..]);
      assert xs == [xs[0]] + xs[1..];
    }
  }

  lemma NowKnown(s: Scope, x: string)
    requires FindVariable(s, x).1.Some?
    ensures Find(FindVariable(s, x).0.vars, x).Some?
    ensures forall y :: Find(s.vars, y).Some? ==> Find(FindVariable(s, x).0.vars, y).Some?
  {
    var s' := FindVariable(s, x).0;
    if Find(s.vars, x).None? { assert s'.vars[1..] == s.vars; }
  }

  lemma {:induction false} AllCaptured(vars: seq<Variable>, s: Scope)
    requires forall x :: x in Frees(vars) ==> Find(s.vars, x).Some?
    ensures Captures(vars, s).Ok? && Captures(vars, s).value.scope == s
    decreases |vars|
  {
    if vars != [] { AllCaptured(vars[1..], s); }
  }

  // ----- templates -----

  lemma {:induction false} AcceptsBackquote(u: Unit, env: Env, s: Scope, val: Sexp)
    ensures Agrees(CompileBackquote(u, env, s, val), BehindTemplate(At(u, env, s), Reach(s), val), s)
    decreases Size(val), 3
  {
    hide Compile, CompileTemplate, Behind, BehindItems, Reach;
    if Listp(val) {
      if val.SCons? && val.car == SSym("unquote") {
        OneOperand(val.cdr);
        if val.cdr.SCons? && val.cdr.cdr.SNil? {
          assert Size(val.cdr.car) < Size(val.cdr) < Size(val);
          Accepts(u, env, s, val.cdr.car, false);
        }
      } else {
        AcceptsTemplate(u, env, s, val);
      }
    }
  }

  lemma {:induction false} AcceptsTemplate(u: Unit, env: Env, s: Scope, items: Sexp)
    ensures Agrees(CompileTemplate(u, env, s, items), BehindItems(At(u, env, s), Reach(s), items), s)
    decreases Size(items), 2
  {
    hide Compile, CompileBackquote, Behind, BehindTemplate, Reach, IsSplice, Length, Listp;
    if items.SCons? {
      AcceptsTemplate(u, env, s, items.cdr);
      var r := CompileTemplate(u, env, s, items.cdr);
      if r.Ok? {
        SpliceShape(items.car);
        if !IsSplice(items.car) {
          AcceptsBackquote(u, env, r.value.scope, items.car);
        } else if Length(items.car) == 2 {
          assert Size(items.car.cdr.car) < Size(items.car.cdr) < Size(items.car) < Size(items);
          Accepts(u, env, r.value.scope, items.car.cdr.car, false);
        }
      }
    }
  }

  lemma SpliceShape(item: Sexp)
    ensures IsSplice(item) <==> Listp(item) && item.SCons? && item.car == SSym("unquote-splice")
    ensures IsSplice(item) ==> (Length(item) == 2 <==> item.cdr.SCons? && item.cdr.cdr.SNil?)
  {
    if item.SCons? { OneOperand(item.cdr); }
  }

  // ----- the theorem -----

  /** A form compiles if and only if it is well formed with the names that its scope and the
      enclosing ones know. */
  lemma CompilesIff(u: Unit, env: Env, s: Scope, e: Sexp, tail: bool)
    ensures Compile(u, env, s, e, tail).Ok? <==> WellFormed(At(u, env, s), Reach(s), e)
    ensures Compile(u, env, s, e, tail).Err? ==>
      Behind(At(u, env, s), Reach(s), e) == Err(Compile(u, env, s, e, tail).error)
  {
    hide Compile, Behind, Reach;
    Accepts(u, env, s, e, tail);
  }
}
