/** What the compiler emits: the code and the scope that compile_expression,
    compile_backquote and compile_function leave, as functions of the form. */
module Codegen {
  import opened Wrappers
  import opened Sexps
  import opened Words
  import opened Scopes

  /** The functions defined so far, most recent first (`struct environment`). */
  datatype Env = NoFunctions | Function(name: string, args: Args, def: Def, prev: Env)

  /** A Lisp function with its source and its code, a C builtin, or `apply`. */
  datatype Def = Lisp(arglist: Sexp, body: Sexp, code: seq<Instr>) | Builtin | Apply

  /** What a compilation unit fixes: the file name and the default values. */
  datatype Unit = Unit(file: string, defaults: map<Sexp, Word>)

  /** Emitted code and the scope it leaves. */
  datatype Gen = Gen(code: seq<Instr>, scope: Scope)

  function FindFunction(env: Env, name: string): (r: Env)
    ensures r.Function? ==> r.name == name
    decreases env
  {
    if env.NoFunctions? || env.name == name then env else FindFunction(env.prev, name)
  }

  /** The definition `k` before the newest one. */
  function Back(env: Env, k: nat): Env
    decreases k
  {
    if k == 0 || env.NoFunctions? then env else Back(env.prev, k - 1)
  }

  predicate Defines(env: Env, name: string) { env.Function? && env.name == name }

  /** The newest definition of the name is found, or the end if there is none. */
  lemma {:induction false} FindsNewest(env: Env, name: string) returns (k: nat)
    ensures FindFunction(env, name) == Back(env, k) && (Back(env, k).Function? ==> Defines(Back(env, k), name))
    ensures forall j: nat :: j < k ==> Back(env, j).Function? && !Defines(Back(env, j), name)
    decreases env
  {
    if env.NoFunctions? || env.name == name {
      k := 0;
    } else {
      k := FindsNewest(env.prev, name);
      k := k + 1;
      forall j: nat | j < k ensures Back(env, j).Function? && !Defines(Back(env, j), name) {
        if j > 0 { assert Back(env, j) == Back(env.prev, j - 1); }
      }
    }
  }

  lemma {:induction false} BackStays(env: Env, k: nat, j: nat)
    requires Back(env, k).NoFunctions? && k <= j
    ensures Back(env, j).NoFunctions?
    decreases k
  {
    if k > 0 && env.Function? { BackStays(env.prev, k - 1, j - 1); }
  }

  lemma NoneDefined(env: Env, name: string)
    ensures FindFunction(env, name).NoFunctions? <==> forall k: nat :: !Defines(Back(env, k), name)
  {
    var k := FindsNewest(env, name);
    if FindFunction(env, name).NoFunctions? {
      forall j: nat ensures !Defines(Back(env, j), name) {
        if j >= k { BackStays(env, k, j); }
      }
    } else {
      assert Defines(Back(env, k), name);
    }
  }

  datatype Form =
    | FIf | FAnd | FOr | FProgn | FLet1 | FGc | FQuote | FBackquote | FFunction
    | FList | FLambda | FEval | FLoad | FCall

  /** The special forms in the order in which compile_expression tests for them. */
  function Keyword(k: nat): (string, Form) {
    match k
    case 0 => ("if", FIf)
    case 1 => ("and", FAnd)
    case 2 => ("or", FOr)
    case 3 => ("progn", FProgn)
    case 4 => ("let1", FLet1)
    case 5 => ("gc", FGc)
    case 6 => ("quote", FQuote)
    case 7 => ("backquote", FBackquote)
    case 8 => ("function", FFunction)
    case 9 => ("list", FList)
    case 10 => ("lambda", FLambda)
    case 11 => ("eval", FEval)
    case _ => ("load", FLoad)
  }

  function FormFrom(name: string, k: nat): Form
    decreases 13 - k
  {
    if k >= 13 then FCall
    else if name == Keyword(k).0 then Keyword(k).1
    else FormFrom(name, k + 1)
  }

  function FormOf(name: string): Form {
    FormFrom(name, 0)
  }

  datatype Symbol = NilSymbol | TSymbol | CurrentFile | CurrentEnv | VariableName

  function SymbolOf(name: string): Symbol {
    if name == "nil" then NilSymbol
    else if name == "t" then TSymbol
    else if name == "+current-file+" then CurrentFile
    else if name == "+current-env+" then CurrentEnv
    else VariableName
  }

  // ----- pieces of emitted code -----

  function CompileVariable(v: Variable): Instr {
    match v.kind
    case Argument => MovEaxMem(v.number + 2)
    case Bound => MovEaxMem(-(v.number + 1))
    case Free => MovEaxEdi(v.number)
  }

  const PUSH_CONS: seq<Instr> := [PushEax, CallCons, AddEsp(2), PushEax]
  const PUSH_MERGE: seq<Instr> := [PushEax, CallMerge2, AddEsp(2), PushEax]
  const CLEANUP: seq<Instr> := [MovEspEbp, PopEbp, Ret]
  const BACK_TO_ENTRY: seq<Instr> := [MovEspEbp, PopEbp, JmpEntry]

  function Setup(nvars: nat): seq<Instr> {
    [PushEbp, MovEbpEsp, SubEsp(nvars)]
  }

  /** Defaults of the optional parameters from number `from` on, last one first. */
  function PushDefaults(optional: seq<Word>, from: nat): seq<Instr>
    decreases |optional| - from
  {
    if from >= |optional| then [] else PushDefaults(optional, from + 1) + [PushImm(optional[from])]
  }

  /** Popping `n` arguments, the first of them number `from`, into the caller's area. */
  function MoveArgs(from: nat, n: nat): seq<Instr>
    decreases n
  {
    if n == 0 then [] else [PopEax, MovMemEax(from + 2)] + MoveArgs(from + 1, n - 1)
  }

  function CallTo(f: Env): Instr
    requires f.Function?
  {
    match f.def
    case Lisp(_, _, code) => CallCode(code)
    case Builtin => CallBuiltin(f.name, f.args.Real())
    case Apply => CallApply
  }

  /** Storing each captured variable of a new closure, in the order of the list. */
  function Captures(vars: seq<Variable>, s: Scope): Result<Gen>
    decreases |vars|
  {
    if vars == [] then Ok(Gen([], s))
    else if vars[0].kind != Free then Captures(vars[1..], s)
    else
      match FindVariable(s, vars[0].name)
      case (_, None) => Err(Unmodelled)
      case (s1, Some(v)) =>
        match Captures(vars[1..], s1)
        case Err(x) => Err(x)
        case Ok(g) =>
          Ok(Gen([PushEax, CompileVariable(v), PushEax, PushImm(Num(vars[0].number)), CallSetCapture, AddEsp(2), PopEax]
                 + g.code, g.scope))
  }

  // ----- compile_expression -----

  function Compile(u: Unit, env: Env, s: Scope, e: Sexp, tail: bool): Result<Gen>
    decreases Size(e), 1
  {
    match e
    case SNil => Ok(Gen([MovEaxImm(Nil)], s))
    case SInt(_) => Ok(Gen([MovEaxImm(WordOf(e))], s))
    case SStr(_) => Ok(Gen([MovEaxImm(WordOf(e))], s))
    case SSym(name) => CompileSymbol(u, s, name)
    case SCons(_, fsym, args) =>
      if !Listp(e) then Err(EUnimpl)
      else if !fsym.SSym? then Err(EExpected)
      else CompileForm(u, env, s, fsym.name, args, tail)
  }

  function CompileForm(u: Unit, env: Env, s: Scope, name: string, args: Sexp, tail: bool): Result<Gen>
    decreases Size(args), 5
  {
    match FormOf(name)
    case FIf => CompileIf(u, env, s, args, tail)
    case FAnd => CompileAndOr(u, env, s, args, false)
    case FOr => CompileAndOr(u, env, s, args, true)
    case FProgn => CompileBody(u, env, s, args, tail)
    case FLet1 => CompileLet1(u, env, s, args, tail)
    case FQuote => if Length(args) != 1 then Err(EArgs) else Ok(Gen([MovEaxImm(WordOf(Car(args)))], s))
    case FBackquote => if Length(args) != 1 then Err(EArgs) else CompileBackquote(u, env, s, Car(args))
    case FList => CompileList(u, env, s, args)
    case FLambda => CompileLambda(u, env, s, args)
    case FCall => CompileCall(u, env, s, name, args, tail)
    case _ => Err(Unmodelled)
  }

  function CompileList(u: Unit, env: Env, s: Scope, args: Sexp): Result<Gen>
    decreases Size(args), 3
  {
    match CompileConses(u, env, s, args, 0)
    case Err(x) => Err(x)
    case Ok(g) => Ok(Gen([PushImm(Nil)] + g.code + [PopEax], g.scope))
  }

  function CompileSymbol(u: Unit, s: Scope, name: string): Result<Gen> {
    match SymbolOf(name)
    case NilSymbol => Ok(Gen([MovEaxImm(Nil)], s))
    case TSymbol => Ok(Gen([MovEaxImm(T)], s))
    case CurrentFile => Ok(Gen([MovEaxImm(Str(u.file))], s))
    case CurrentEnv => Err(Unmodelled)
    case VariableName =>
      match FindVariable(s, name)
      case (_, None) => Err(EInvalid)
      case (s', Some(v)) => Ok(Gen([CompileVariable(v)], s'))
  }

  function CompileIf(u: Unit, env: Env, s: Scope, args: Sexp, tail: bool): Result<Gen>
    decreases Size(args), 3
  {
    if !(2 <= Length(args) <= 3) || !Listp(args) then Err(EArgs) else
    match Compile(u, env, s, args.car, false)
    case Err(x) => Err(x)
    case Ok(c) => CompileBranches(u, env, c, Car(args.cdr), Cdr(args.cdr), tail)
  }

  /** The branches of an `if` whose test is `c`. */
  function CompileBranches(u: Unit, env: Env, c: Gen, e: Sexp, rest: Sexp, tail: bool): Result<Gen>
    decreases Size(e) + Size(rest), 3
  {
    var (s1, falseLabel) := NextPc(c.scope);
    var (s2, afterLabel) := NextPc(s1);
    match Compile(u, env, s2, e, tail)
    case Err(x) => Err(x)
    case Ok(t) =>
      match CompileElse(u, env, t.scope, rest, tail)
      case Err(x) => Err(x)
      case Ok(f) =>
        Ok(Gen(IfCode(c.code, t.code, f.code, falseLabel, afterLabel), f.scope))
  }

  function IfCode(c: seq<Instr>, t: seq<Instr>, f: seq<Instr>, falseLabel: nat, afterLabel: nat): seq<Instr> {
    c + [CmpEax(Nil), Je(falseLabel)] + t + [Jmp(afterLabel), Label(falseLabel)] + f + [Label(afterLabel)]
  }

  /** The third operand of `if`, when there is one. */
  function CompileElse(u: Unit, env: Env, s: Scope, rest: Sexp, tail: bool): Result<Gen>
    decreases Size(rest), 2
  {
    if rest.SCons? then Compile(u, env, s, rest.car, tail) else Ok(Gen([], s))
  }

  function CompileAndOr(u: Unit, env: Env, s: Scope, args: Sexp, or: bool): Result<Gen>
    decreases Size(args), 3
  {
    if Length(args) < 1 || !Listp(args) then Err(EArgs) else
    var (s1, after) := NextPc(s);
    match CompileChain(u, env, s1, args, or, after)
    case Err(x) => Err(x)
    case Ok(g) => Ok(Gen(g.code + [Label(after)], g.scope))
  }

  /** The operands of `and` or `or`, each but the last followed by its early exit. */
  function CompileChain(u: Unit, env: Env, s: Scope, args: Sexp, or: bool, after: nat): Result<Gen>
    decreases Size(args), 2
  {
    if !args.SCons? then Ok(Gen([], s)) else
    match Compile(u, env, s, args.car, false)
    case Err(x) => Err(x)
    case Ok(g) =>
      if args.cdr.SNil? then Ok(g) else
      match CompileChain(u, env, g.scope, args.cdr, or, after)
      case Err(x) => Err(x)
      case Ok(r) => Ok(Gen(g.code + [CmpEax(Nil), if or then Jne(after) else Je(after)] + r.code, r.scope))
  }

  /** Forms in sequence, the last one in tail position if `tail`. */
  function CompileBody(u: Unit, env: Env, s: Scope, body: Sexp, tail: bool): Result<Gen>
    decreases Size(body), 2
  {
    if !body.SCons? then Ok(Gen([], s)) else
    match Compile(u, env, s, body.car, tail && body.cdr.SNil?)
    case Err(x) => Err(x)
    case Ok(g) =>
      match CompileBody(u, env, g.scope, body.cdr, tail)
      case Err(x) => Err(x)
      case Ok(r) => Ok(Gen(g.code + r.code, r.scope))
  }

  function CompileLet1(u: Unit, env: Env, s: Scope, args: Sexp, tail: bool): Result<Gen>
    decreases Size(args), 3
  {
    if Length(args) < 2 || !Listp(args) then Err(EArgs)
    else if Length(args.car) != 2 then Err(EArgs)
    else if !Car(args.car).SSym? then Err(Unmodelled)
    else
      match Compile(u, env, s, Car(Cdr(args.car)), false)
      case Err(x) => Err(x)
      case Ok(v) => CompileBound(u, env, v, Car(args.car).name, args.cdr, tail)
  }

  /** The body of a let1 whose value `v` has computed in eax. */
  function CompileBound(u: Unit, env: Env, v: Gen, name: string, body: Sexp, tail: bool): Result<Gen>
    decreases Size(body), 3
  {
    var (s1, i) := LocalAlloc(v.scope);
    match CompileBody(u, env, AddVariable(s1, Variable(name, Bound, i)), body, tail)
    case Err(x) => Err(x)
    case Ok(g) => Ok(Gen(v.code + [MovMemEax(-(i + 1))] + g.code, LocalFree(g.scope, i)))
  }

  /** The forms of `args` from number `skip` on, last one first, each consed to what
      the top of the stack holds. */
  function CompileConses(u: Unit, env: Env, s: Scope, args: Sexp, skip: nat): Result<Gen>
    decreases Size(args), 2
  {
    if !args.SCons? then Ok(Gen([], s))
    else if skip > 0 then CompileConses(u, env, s, args.cdr, skip - 1)
    else
      match CompileConses(u, env, s, args.cdr, 0)
      case Err(x) => Err(x)
      case Ok(r) =>
        match Compile(u, env, r.scope, args.car, false)
        case Err(x) => Err(x)
        case Ok(g) => Ok(Gen(r.code + g.code + PUSH_CONS, g.scope))
  }

  /** The first `n` forms of `args`, last one first, each pushed. */
  function CompilePushes(u: Unit, env: Env, s: Scope, args: Sexp, n: nat): Result<Gen>
    decreases Size(args), 2
  {
    if !args.SCons? || n == 0 then Ok(Gen([], s))
    else
      match CompilePushes(u, env, s, args.cdr, n - 1)
      case Err(x) => Err(x)
      case Ok(r) =>
        match Compile(u, env, r.scope, args.car, false)
        case Err(x) => Err(x)
        case Ok(g) => Ok(Gen(r.code + g.code + [PushEax], g.scope))
  }

  function CompileCall(u: Unit, env: Env, s: Scope, name: string, args: Sexp, tail: bool): Result<Gen>
    decreases Size(args), 4
  {
    if s.fname == name then
      match CompileArgs(u, env, s, s.args, args)
      case Err(x) => Err(x)
      case Ok(g) =>
        var n := s.args.Real();
        Ok(Gen(g.code + (if tail then MoveArgs(0, n) + BACK_TO_ENTRY else [CallEntry]) + [AddEsp(n)], g.scope))
    else
      var f := FindFunction(env, name);
      if f.NoFunctions? then Err(EInvalid) else
      match CompileArgs(u, env, s, f.args, args)
      case Err(x) => Err(x)
      case Ok(g) => Ok(Gen(g.code + [CallTo(f), AddEsp(f.args.Real())], g.scope))
  }

  /** The arguments of a call: rest list, missing defaults, then the others. */
  function CompileArgs(u: Unit, env: Env, s: Scope, a: Args, args: Sexp): Result<Gen>
    decreases Size(args), 3
  {
    var nargs := Length(args);
    if !AreArgsAcceptable(a, nargs) then Err(EArgs) else
    var rest := if a.variadic then CompileConses(u, env, s, args, a.Total()) else Ok(Gen([], s));
    match rest
    case Err(x) => Err(x)
    case Ok(r) =>
      match CompilePushes(u, env, r.scope, args, a.Total())
      case Err(x) => Err(x)
      case Ok(g) =>
        Ok(Gen((if a.variadic then [PushImm(Nil)] else []) + r.code
               + PushDefaults(a.optional, nargs - a.required) + g.code, g.scope))
  }

  function CompileLambda(u: Unit, env: Env, s: Scope, args: Sexp): Result<Gen>
    decreases Size(args), 4
  {
    match CompileFunction(u, env, Car(args), Cdr(args), "recurse", Some(s))
    case Err(x) => Err(x)
    case Ok(f) =>
      if f.scope.parent.None? then Err(Unmodelled) else
      match Captures(f.scope.vars, f.scope.parent.value)
      case Err(x) => Err(x)
      case Ok(g) =>
        Ok(Gen([PushImm(Num(f.scope.closureSlots)), PushImm(ArgsPtr(f.scope.args)), PushImm(CodePtr(f.code)),
                CallCreateClosure, AddEsp(3)] + g.code, g.scope))
  }

  // ----- compile_backquote -----

  function CompileBackquote(u: Unit, env: Env, s: Scope, val: Sexp): Result<Gen>
    decreases Size(val), 3
  {
    if !Listp(val) then Ok(Gen([MovEaxImm(WordOf(val))], s))
    else if SymStrEq(Car(val), "unquote") then
      if Length(Cdr(val)) != 1 then Err(EArgs) else Compile(u, env, s, Car(Cdr(val)), false)
    else
      match CompileTemplate(u, env, s, val)
      case Err(x) => Err(x)
      case Ok(g) => Ok(Gen([PushImm(Nil)] + g.code + [PopEax], g.scope))
  }

  predicate IsSplice(v: Sexp) {
    Listp(v) && SymStrEq(Car(v), "unquote-splice")
  }

  /** The elements of a template, last one first, each added to the list under way. */
  function CompileTemplate(u: Unit, env: Env, s: Scope, items: Sexp): Result<Gen>
    decreases Size(items), 2
  {
    if !items.SCons? then Ok(Gen([], s))
    else
      match CompileTemplate(u, env, s, items.cdr)
      case Err(x) => Err(x)
      case Ok(r) =>
        if IsSplice(items.car) then
          if Length(items.car) != 2 then Err(EArgs) else
          match Compile(u, env, r.scope, Car(Cdr(items.car)), false)
          case Err(x) => Err(x)
          case Ok(g) => Ok(Gen(r.code + g.code + PUSH_MERGE, g.scope))
        else
          match CompileBackquote(u, env, r.scope, items.car)
          case Err(x) => Err(x)
          case Ok(g) => Ok(Gen(r.code + g.code + PUSH_CONS, g.scope))
  }

  // ----- compile_function -----

  function FreshScope(name: string, parent: Option<Scope>): Scope {
    Scope([], [false, false, false, false], 0, 0, 0, name, Args(0, [], false), parent)
  }

  /** The scope in which the body is generated, and the frame size: after the arguments
      are added and the body is walked, the slots are cleared again. */
  function Prepare(s: Scope, body: Sexp): (Scope, nat) {
    var walked := WalkEach(s, body, false);
    (walked.(slots := seq(|walked.slots|, _ => false), entries := 0), walked.entries)
  }

  function CompileFunction(u: Unit, env: Env, arglist: Sexp, body: Sexp, name: string,
                           parent: Option<Scope>): Result<Gen>
    decreases Size(body), 3
  {
    match ListToArgs(u.defaults, arglist, FreshScope(name, parent), Args(0, [], false), false)
    case Err(x) => Err(x)
    case Ok(s) =>
      var (s1, nvars) := Prepare(s, body);
      match CompileBody(u, env, s1, body, true)
      case Err(x) => Err(x)
      case Ok(g) => Ok(Gen(Setup(nvars) + g.code + CLEANUP, g.scope))
  }
}
