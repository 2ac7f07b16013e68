/** The meaning of source forms: an evaluator with lexical environments, operands
    evaluated right to left.  `None` is an error or exhausted fuel. */
module Source {
  import opened Wrappers
  import opened Sexps
  import opened Words
  import opened Cells
  import opened CallList
  import opened Codegen
  import opened Machine

  type Rho = map<string, Word>

  /** A closure remembers the functions and the variables visible where it was made, and
      which of the variables it captured, in order. */
  datatype SClosure = SClosure(env: Env, arglist: Sexp, body: Sexp, rho: Rho, free: seq<string>)

  datatype Heap = Heap(cells: seq<Cell>, clos: seq<SClosure>)

  datatype Out = Out(value: Word, heap: Heap)

  /** The function being run: what its self-calls re-enter. */
  datatype Fun = Fun(env: Env, name: string, arglist: Sexp, body: Sexp, rho: Rho)

  // ----- parameters -----

  /** Parameter names by position: required, optional, rest. */
  datatype Params = Params(names: seq<string>, args: Args)

  const NO_PARAMS := Params([], Args(0, [], false))

  /** The meaning of a parameter list; `None` unless it is required names, then
      (name default) pairs, then at most one rest name after `&`, at the end. */
  function ParamsOf(defaults: map<Sexp, Word>, list: Sexp, p: Params): Option<Params>
    decreases list
  {
    if list.SNil? then Some(p)
    else if !list.SCons? || p.args.variadic then None
    else if SymStrEq(list.car, "&") then
      if list.cdr.SCons? && list.cdr.car.SSym?
      then ParamsOf(defaults, list.cdr.cdr, Params(p.names + [list.cdr.car.name], p.args.(variadic := true)))
      else None
    else if list.car.SSym? then
      if p.args.optional != [] then None
      else ParamsOf(defaults, list.cdr, Params(p.names + [list.car.name], p.args.(required := p.args.required + 1)))
    else if Listp(list.car) && Length(list.car) == 2 && Car(list.car).SSym? && Elt(list.car, 1) in defaults then
      ParamsOf(defaults, list.cdr,
               Params(p.names + [Car(list.car).name],
                      p.args.(optional := p.args.optional + [defaults[Elt(list.car, 1)]])))
    else None
  }

  function Bind(names: seq<string>, ws: seq<Word>): Rho
    requires |names| <= |ws|
    decreases |names|
  {
    if names == [] then map[]
    else Bind(names[..|names| - 1], ws)[names[|names| - 1] := ws[|names| - 1]]
  }

  // ----- free variables -----

  /** What is known so far about the names of a function: its own, and those it captured. */
  datatype Known = Known(own: set<string>, captured: seq<string>)

  function See(k: Known, x: string): Known {
    if x in k.own || x in k.captured then k else k.(captured := k.captured + [x])
  }

  function SeeAll(k: Known, xs: seq<string>): Known
    decreases |xs|
  {
    if xs == [] then k else SeeAll(See(k, xs[0]), xs[1..])
  }

  /** The free variables of a lambda, in the order in which evaluation could first reach
      them: from left to right, but arguments and elements from right to left. */
  function FreeNames(arglist: Sexp, body: Sexp): seq<string>
    decreases Size(body), 1
  {
    SeenEach(Known(Declared(arglist, false), []), body).captured
  }

  /** The names a parameter list declares. */
  function Declared(list: Sexp, variadic: bool): set<string>
    decreases Size(list)
  {
    if !list.SCons? then {}
    else if list.car.SSym? && !variadic && list.car.name == "&" then
      (if Car(list.cdr).SSym? then {Car(list.cdr).name} else {}) + Declared(Cdr(list.cdr), true)
    else if list.car.SSym? then {list.car.name} + Declared(list.cdr, variadic)
    else if Listp(list.car) && Car(list.car).SSym? then {Car(list.car).name} + Declared(list.cdr, variadic)
    else Declared(list.cdr, variadic)
  }

  function Seen(k: Known, e: Sexp): Known
    decreases Size(e), 1
  {
    if e.SSym? then if SymbolOf(e.name).VariableName? then See(k, e.name) else k
    else if e.SCons? && e.car.SSym? then SeenForm(k, e.car.name, e.cdr)
    else k
  }

  function SeenForm(k: Known, name: string, args: Sexp): Known
    decreases Size(args), 2
  {
    match FormOf(name)
    case FLet1 =>
      var v := Seen(k, Car(Cdr(Car(args))));
      SeenEach(v.(own := v.own + if Car(Car(args)).SSym? then {Car(Car(args)).name} else {}), Cdr(args))
    case FBackquote => SeenTemplate(k, Car(args))
    case FQuote => k
    case FLambda => SeeAll(k, FreeNames(Car(args), Cdr(args)))
    case FList => SeenBack(k, args)
    case FCall => SeenBack(k, args)
    case _ => SeenEach(k, args)
  }

  function SeenEach(k: Known, items: Sexp): Known
    decreases Size(items), 0
  {
    if items.SCons? then SeenEach(Seen(k, items.car), items.cdr) else k
  }

  function SeenBack(k: Known, items: Sexp): Known
    decreases Size(items), 0
  {
    if items.SCons? then Seen(SeenBack(k, items.cdr), items.car) else k
  }

  function SeenTemplate(k: Known, val: Sexp): Known
    decreases Size(val), 1
  {
    if !Listp(val) then k
    else if SymStrEq(Car(val), "unquote") then Seen(k, Car(Cdr(val)))
    else SeenItems(k, val)
  }

  function SeenItems(k: Known, items: Sexp): Known
    decreases Size(items), 0
  {
    if !items.SCons? then k
    else
      var r := SeenItems(k, items.cdr);
      if IsSplice(items.car) then Seen(r, Car(Cdr(items.car))) else SeenTemplate(r, items.car)
  }

  // ----- evaluation -----

  function Eval(u: Unit, b: Builtins, fuel: nat, f: Fun, rho: Rho, e: Sexp, h: Heap): Option<Out>
    decreases fuel, 0, Size(e), 1
  {
    match e
    case SNil => Some(Out(Nil, h))
    case SInt(_) => Some(Out(WordOf(e), h))
    case SStr(_) => Some(Out(WordOf(e), h))
    case SSym(name) => EvalSymbol(u, rho, name, h)
    case SCons(_, fsym, args) =>
      if !Listp(e) || !fsym.SSym? then None else EvalForm(u, b, fuel, f, rho, fsym.name, args, h)
  }

  function EvalForm(u: Unit, b: Builtins, fuel: nat, f: Fun, rho: Rho, name: string, args: Sexp, h: Heap): Option<Out>
    decreases fuel, 0, Size(args), 5
  {
    match FormOf(name)
    case FIf => EvalIf(u, b, fuel, f, rho, args, h)
    case FAnd => EvalChain(u, b, fuel, f, rho, args, false, h)
    case FOr => EvalChain(u, b, fuel, f, rho, args, true, h)
    case FProgn => EvalBody(u, b, fuel, f, rho, args, h)
    case FLet1 => EvalLet1(u, b, fuel, f, rho, args, h)
    case FQuote => if Length(args) == 1 then Some(Out(WordOf(Car(args)), h)) else None
    case FBackquote => if Length(args) == 1 then EvalBackquote(u, b, fuel, f, rho, Car(args), h) else None
    case FList => EvalConses(u, b, fuel, f, rho, args, 0, h)
    case FLambda => Some(MadeClosure(f, args, rho, h))
    case FCall => EvalCall(u, b, fuel, f, rho, name, args, h)
    case _ => None
  }

  function MadeClosure(f: Fun, args: Sexp, rho: Rho, h: Heap): Out {
    var c := SClosure(f.env, Car(args), Cdr(args), rho, FreeNames(Car(args), Cdr(args)));
    Out(Clo(|h.clos|), h.(clos := h.clos + [c]))
  }

  function EvalSymbol(u: Unit, rho: Rho, name: string, h: Heap): Option<Out> {
    match SymbolOf(name)
    case NilSymbol => Some(Out(Nil, h))
    case TSymbol => Some(Out(T, h))
    case CurrentFile => Some(Out(Str(u.file), h))
    case CurrentEnv => None
    case VariableName => if name in rho then Some(Out(rho[name], h)) else None
  }

  function EvalIf(u: Unit, b: Builtins, fuel: nat, f: Fun, rho: Rho, args: Sexp, h: Heap): Option<Out>
    decreases fuel, 0, Size(args), 3
  {
    if !(2 <= Length(args) <= 3) || !Listp(args) then None else
    match Eval(u, b, fuel, f, rho, args.car, h)
    case None => None
    case Some(c) =>
      if c.value != Nil then Eval(u, b, fuel, f, rho, Car(args.cdr), c.heap)
      else EvalElse(u, b, fuel, f, rho, Cdr(args.cdr), c.heap)
  }

  function EvalElse(u: Unit, b: Builtins, fuel: nat, f: Fun, rho: Rho, rest: Sexp, h: Heap): Option<Out>
    decreases fuel, 0, Size(rest), 2
  {
    if rest.SCons? then Eval(u, b, fuel, f, rho, rest.car, h) else Some(Out(Nil, h))
  }

  /** `and` and `or`: the first operand that decides, or the last one. */
  function EvalChain(u: Unit, b: Builtins, fuel: nat, f: Fun, rho: Rho, args: Sexp, or: bool, h: Heap): Option<Out>
    decreases fuel, 0, Size(args), 2
  {
    if !args.SCons? then None else
    match Eval(u, b, fuel, f, rho, args.car, h)
    case None => None
    case Some(v) =>
      if args.cdr.SNil? || (or <==> v.value != Nil) then Some(v)
      else EvalChain(u, b, fuel, f, rho, args.cdr, or, v.heap)
  }

  /** Forms in sequence; there must be one. */
  function EvalBody(u: Unit, b: Builtins, fuel: nat, f: Fun, rho: Rho, body: Sexp, h: Heap): Option<Out>
    decreases fuel, 0, Size(body), 2
  {
    if !body.SCons? then None else
    match Eval(u, b, fuel, f, rho, body.car, h)
    case None => None
    case Some(v) => if body.cdr.SNil? then Some(v) else EvalBody(u, b, fuel, f, rho, body.cdr, v.heap)
  }

  function EvalLet1(u: Unit, b: Builtins, fuel: nat, f: Fun, rho: Rho, args: Sexp, h: Heap): Option<Out>
    decreases fuel, 0, Size(args), 3
  {
    if Length(args) < 2 || !Listp(args) || Length(args.car) != 2 || !Car(args.car).SSym? then None else
    match Eval(u, b, fuel, f, rho, Car(Cdr(args.car)), h)
    case None => None
    case Some(v) => EvalBody(u, b, fuel, f, rho[Car(args.car).name := v.value], args.cdr, v.heap)
  }

  /** A list of the values of `args` from number `skip` on, made from the right. */
  function EvalConses(u: Unit, b: Builtins, fuel: nat, f: Fun, rho: Rho, args: Sexp, skip: nat, h: Heap): Option<Out>
    decreases fuel, 0, Size(args), 2
  {
    if !args.SCons? then Some(Out(Nil, h))
    else if skip > 0 then EvalConses(u, b, fuel, f, rho, args.cdr, skip - 1, h)
    else
      match EvalConses(u, b, fuel, f, rho, args.cdr, 0, h)
      case None => None
      case Some(r) =>
        match Eval(u, b, fuel, f, rho, args.car, r.heap)
        case None => None
        case Some(v) => Some(Consed(v.value, r.value, v.heap))
  }

  function Consed(car: Word, cdr: Word, h: Heap): Out {
    Out(Cons(|h.cells|), h.(cells := h.cells + [Cell(car, cdr)]))
  }

  /** The values of the first `n` forms, evaluated from the right. */
  function EvalPushes(u: Unit, b: Builtins, fuel: nat, f: Fun, rho: Rho, args: Sexp, n: nat,
                      h: Heap): Option<(seq<Word>, Heap)>
    decreases fuel, 0, Size(args), 2
  {
    if !args.SCons? || n == 0 then Some(([], h))
    else
      match EvalPushes(u, b, fuel, f, rho, args.cdr, n - 1, h)
      case None => None
      case Some((ws, h1)) =>
        match Eval(u, b, fuel, f, rho, args.car, h1)
        case None => None
        case Some(v) => Some(([v.value] + ws, v.heap))
  }

  /** The actual parameters of a direct call: the given values, the defaults of the
      missing optional parameters, and the list of the remaining values if variadic. */
  function EvalArgs(u: Unit, b: Builtins, fuel: nat, f: Fun, rho: Rho, a: Args, args: Sexp,
                    h: Heap): Option<(seq<Word>, Heap)>
    decreases fuel, 0, Size(args), 3
  {
    var nargs := Length(args);
    if !(a.required <= nargs && (a.variadic || nargs <= a.Total())) then None else
    var rest := if a.variadic then EvalConses(u, b, fuel, f, rho, args, a.Total(), h) else Some(Out(Nil, h));
    match rest
    case None => None
    case Some(r) =>
      match EvalPushes(u, b, fuel, f, rho, args, a.Total(), r.heap)
      case None => None
      case Some((ws, h2)) =>
        Some((ws + Missing(a.optional, nargs - a.required) + (if a.variadic then [r.value] else []), h2))
  }

  /** The defaults of the optional parameters from number `from` on. */
  function Missing(optional: seq<Word>, from: nat): seq<Word> {
    if from < |optional| then optional[from..] else []
  }

  function EvalCall(u: Unit, b: Builtins, fuel: nat, f: Fun, rho: Rho, name: string, args: Sexp, h: Heap): Option<Out>
    decreases fuel, 0, Size(args), 4
  {
    if f.name == name then
      match ParamsOf(u.defaults, f.arglist, NO_PARAMS)
      case None => None
      case Some(p) =>
        match EvalArgs(u, b, fuel, f, rho, p.args, args, h)
        case None => None
        case Some((ws, h1)) => if fuel == 0 then None else Call(u, b, fuel - 1, f, ws, h1)
    else
      var g := FindFunction(f.env, name);
      if g.NoFunctions? then None else
      match EvalArgs(u, b, fuel, f, rho, g.args, args, h)
      case None => None
      case Some((ws, h1)) =>
        match g.def
        case Lisp(arglist, body, _) =>
          if fuel == 0 then None else Call(u, b, fuel - 1, Fun(g.prev, g.name, arglist, body, map[]), ws, h1)
        case Builtin =>
          (match b(g.name, ws, h1.cells)
           case None => None
           case Some((w, cells)) => Some(Out(w, h1.(cells := cells))))
        case Apply => if fuel == 0 || |ws| != 2 then None else EvalApply(u, b, fuel - 1, ws[0], ws[1], h1)
  }

  /** The memory that deep_copy works on: of a closure, the values of the names it captured,
      if all of them have one. */
  function MemoryOf(h: Heap): Store {
    Store(h.cells, seq(|h.clos|, k requires 0 <= k < |h.clos| => Kid(k, CapturedValues(h.clos[k]))))
  }

  function CapturedValues(c: SClosure): Option<seq<Word>> {
    if forall i :: 0 <= i < |c.free| ==> c.free[i] in c.rho
    then Some(seq(|c.free|, i requires 0 <= i < |c.free| => c.rho[c.free[i]]))
    else None
  }

  /** The closures after deep_copy made more of them: a copy remembers what the original
      does, but its captured names stand for the copied values. */
  function CopiesAdded(clos: seq<SClosure>, kids: seq<Kid>): seq<SClosure> {
    clos + seq(if |clos| <= |kids| then |kids| - |clos| else 0,
               i requires 0 <= i < |kids| - |clos| => CopyOf(clos, kids[|clos| + i]))
  }

  function CopyOf(clos: seq<SClosure>, kid: Kid): SClosure {
    if kid.origin < |clos| && kid.data.Some? && |clos[kid.origin].free| <= |kid.data.value| then
      var c := clos[kid.origin];
      c.(rho := c.rho + Bind(c.free, kid.data.value))
    else SClosure(NoFunctions, SNil, SNil, map[], [])
  }

  /** `(apply func list)`. */
  function EvalApply(u: Unit, b: Builtins, fuel: nat, func: Word, list: Word, h: Heap): Option<Out>
    decreases fuel, 2, 0, 0
  {
    if !func.Clo? then Some(Out(Nil, h))
    else if Walk(h.cells, list, |h.cells|).None? || func.k >= |h.clos| then None
    else if !ProperList(h.cells, list) then Some(Out(Nil, h))
    else
      var c := h.clos[func.k];
      match ParamsOf(u.defaults, c.arglist, NO_PARAMS)
      case None => None
      case Some(p) =>
        match CallListArgs(MemoryOf(h), p.args, list)
        case None => None
        case Some((list', m)) =>
          var ws := ElementsOf(m.cells, list');
          if |ws| > 0x1_0000 then None
          else Call(u, b, fuel, Fun(c.env, "recurse", c.arglist, c.body, c.rho), ws,
                    Heap(m.cells, CopiesAdded(h.clos, m.kids)))
  }

  /** Running `f` on the actual parameters `ws`. */
  function Call(u: Unit, b: Builtins, fuel: nat, f: Fun, ws: seq<Word>, h: Heap): Option<Out>
    decreases fuel, 1, 0, 0
  {
    match ParamsOf(u.defaults, f.arglist, NO_PARAMS)
    case None => None
    case Some(p) =>
      if |ws| < |p.names| then None
      else EvalBody(u, b, fuel, f, f.rho + Bind(p.names, ws), f.body, h)
  }

  /** A template: literal parts kept, unquoted values inserted, spliced lists merged. */
  function EvalBackquote(u: Unit, b: Builtins, fuel: nat, f: Fun, rho: Rho, val: Sexp, h: Heap): Option<Out>
    decreases fuel, 0, Size(val), 3
  {
    if !Listp(val) then Some(Out(WordOf(val), h))
    else if SymStrEq(Car(val), "unquote") then
      if Length(Cdr(val)) != 1 then None else Eval(u, b, fuel, f, rho, Car(Cdr(val)), h)
    else EvalTemplate(u, b, fuel, f, rho, val, h)
  }

  function EvalTemplate(u: Unit, b: Builtins, fuel: nat, f: Fun, rho: Rho, items: Sexp, h: Heap): Option<Out>
    decreases fuel, 0, Size(items), 2
  {
    if !items.SCons? then Some(Out(Nil, h))
    else
      match EvalTemplate(u, b, fuel, f, rho, items.cdr, h)
      case None => None
      case Some(r) =>
        if IsSplice(items.car) then
          if Length(items.car) != 2 then None else
          match Eval(u, b, fuel, f, rho, Car(Cdr(items.car)), r.heap)
          case None => None
          case Some(v) =>
            (match Merge2(v.heap.cells, v.value, r.value)
             case None => None
             case Some((w, cells)) => Some(Out(w, v.heap.(cells := cells))))
        else
          match EvalBackquote(u, b, fuel, f, rho, items.car, r.heap)
          case None => None
          case Some(v) => Some(Consed(v.value, r.value, v.heap))
  }
}
