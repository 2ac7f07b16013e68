/** What the written forms mean: constants, laws that the special forms obey, and forms that
    always have a value. */
module Laws {
  import opened Wrappers
  import opened Sexps
  import opened Words
  import opened Cells
  import opened Scopes
  import opened Codegen
  import opened CodegenFacts
  import opened Machine
  import opened Source
  import CompilesFacts

  /** A list of forms, and a form; the addresses of their cells do not matter. */
  function L(x: Sexp, rest: Sexp): Sexp { SCons(0, x, rest) }

  function Form(a: nat, name: string, args: Sexp): Sexp { SCons(a, SSym(name), args) }

  // ----- constants -----

  /** nil, t and the file name are names of constants; t is the integer 2. */
  lemma NamedConstants(u: Unit, b: Builtins, fuel: nat, f: Fun, rho: Rho, env: Env, s: Scope, h: Heap, tail: bool)
    ensures Compile(u, env, s, SSym("nil"), tail) == Ok(Gen([MovEaxImm(Nil)], s))
    ensures Compile(u, env, s, SSym("t"), tail) == Ok(Gen([MovEaxImm(Int(2))], s))
    ensures Compile(u, env, s, SSym("+current-file+"), tail) == Ok(Gen([MovEaxImm(Str(u.file))], s))
    ensures Eval(u, b, fuel, f, rho, SSym("nil"), h) == Some(Source.Out(Nil, h))
    ensures Eval(u, b, fuel, f, rho, SSym("t"), h) == Some(Source.Out(Int(2), h))
    ensures Eval(u, b, fuel, f, rho, SSym("+current-file+"), h) == Some(Source.Out(Str(u.file), h))
  {
  }

  /** Numbers, strings and nil stand for themselves; a quoted form stands for its own cells,
      and a quoted symbol for the symbol. */
  lemma Literals(u: Unit, env: Env, s: Scope, tail: bool, a: nat, c: nat, i: int, x: string, car: Sexp, cdr: Sexp)
    ensures Compile(u, env, s, SNil, tail) == Ok(Gen([MovEaxImm(Nil)], s))
    ensures Compile(u, env, s, SInt(i), tail) == Ok(Gen([MovEaxImm(Int(i))], s))
    ensures Compile(u, env, s, SStr(x), tail) == Ok(Gen([MovEaxImm(Str(x))], s))
    ensures Compile(u, env, s, Form(a, "quote", L(SSym(x), SNil)), tail) == Ok(Gen([MovEaxImm(Sym(x))], s))
    ensures Compile(u, env, s, Form(a, "quote", L(SCons(c, car, cdr), SNil)), tail) == Ok(Gen([MovEaxImm(Cons(c))], s))
  {
    QuoteCode(u, env, s, tail, a, SSym(x));
    QuoteCode(u, env, s, tail, a, SCons(c, car, cdr));
  }

  lemma QuoteCode(u: Unit, env: Env, s: Scope, tail: bool, a: nat, v: Sexp)
    ensures Compile(u, env, s, Form(a, "quote", L(v, SNil)), tail) == Ok(Gen([MovEaxImm(WordOf(v))], s))
  {
    KeywordNames("quote");
    CompilesFacts.OneOperand(L(v, SNil));
    assert Compile(u, env, s, Form(a, "quote", L(v, SNil)), tail) == CompileForm(u, env, s, "quote", L(v, SNil), tail);
  }

  // ----- laws of the special forms -----

  /** (if c x y) and (if c x). */
  lemma IfLaw(u: Unit, b: Builtins, fuel: nat, f: Fun, rho: Rho, h: Heap, a: nat, c: Sexp, x: Sexp, y: Sexp)
    ensures var (v, e2, e3) := (Eval(u, b, fuel, f, rho, c, h),
                                Eval(u, b, fuel, f, rho, Form(a, "if", L(c, L(x, SNil))), h),
                                Eval(u, b, fuel, f, rho, Form(a, "if", L(c, L(x, L(y, SNil)))), h));
      if v.None? then e2.None? && e3.None?
      else if v.value.value != Nil then e2 == e3 == Eval(u, b, fuel, f, rho, x, v.value.heap)
      else e2 == Some(Source.Out(Nil, v.value.heap)) && e3 == Eval(u, b, fuel, f, rho, y, v.value.heap)
  {
    hide Eval;
    FormUnrolled("if");
    Proper(y, SNil);
    Proper(x, L(y, SNil));
    Proper(x, SNil);
    EvalOf(u, b, fuel, f, rho, h, a, "if", L(c, L(x, SNil)));
    EvalOf(u, b, fuel, f, rho, h, a, "if", L(c, L(x, L(y, SNil))));
    IfMeans(u, b, fuel, f, rho, h, c, x, SNil);
    IfMeans(u, b, fuel, f, rho, h, c, x, L(y, SNil));
  }

  lemma IfMeans(u: Unit, b: Builtins, fuel: nat, f: Fun, rho: Rho, h: Heap, c: Sexp, x: Sexp, rest: Sexp)
    requires Listp(rest) && (rest.SNil? || rest.cdr.SNil?)
    ensures var v := Eval(u, b, fuel, f, rho, c, h);
      EvalIf(u, b, fuel, f, rho, L(c, L(x, rest)), h) ==
        if v.None? then None
        else if v.value.value != Nil then Eval(u, b, fuel, f, rho, x, v.value.heap)
        else if rest.SCons? then Eval(u, b, fuel, f, rho, rest.car, v.value.heap)
        else Some(Source.Out(Nil, v.value.heap))
  {
    hide Eval;
    CompilesFacts.TwoOrThree(L(c, L(x, rest)));
  }

  lemma Proper(x: Sexp, rest: Sexp)
    ensures Listp(L(x, rest)) <==> Listp(rest)
  {
  }

  /** A form means what its keyword makes of its operands. */
  lemma EvalOf(u: Unit, b: Builtins, fuel: nat, f: Fun, rho: Rho, h: Heap, a: nat, name: string, args: Sexp)
    requires Listp(args)
    ensures Eval(u, b, fuel, f, rho, Form(a, name, args), h) == EvalForm(u, b, fuel, f, rho, name, args, h)
  {
    hide EvalForm;
  }

  /** (and x) is x, and (and x . rest) is (if x (and . rest)). */
  lemma AndLaw(u: Unit, b: Builtins, fuel: nat, f: Fun, rho: Rho, h: Heap, a: nat, x: Sexp, rest: Sexp)
    requires Listp(rest)
    ensures Eval(u, b, fuel, f, rho, Form(a, "and", L(x, rest)), h) ==
      if rest.SNil? then Eval(u, b, fuel, f, rho, x, h)
      else Eval(u, b, fuel, f, rho, Form(a, "if", L(x, L(Form(a, "and", rest), SNil))), h)
  {
    hide Eval;
    FormUnrolled("and");
    EvalOf(u, b, fuel, f, rho, h, a, "and", L(x, rest));
    var v := Eval(u, b, fuel, f, rho, x, h);
    IfLaw(u, b, fuel, f, rho, h, a, x, Form(a, "and", rest), SNil);
    if v.Some? { EvalOf(u, b, fuel, f, rho, v.value.heap, a, "and", rest); }
  }

  /** (or x) is x; (or x . rest) is x unless that is nil, and then (or . rest). */
  lemma OrLaw(u: Unit, b: Builtins, fuel: nat, f: Fun, rho: Rho, h: Heap, a: nat, x: Sexp, rest: Sexp)
    requires Listp(rest)
    ensures var v := Eval(u, b, fuel, f, rho, x, h);
      Eval(u, b, fuel, f, rho, Form(a, "or", L(x, rest)), h) ==
        if v.None? || rest.SNil? || v.value.value != Nil then v
        else Eval(u, b, fuel, f, rho, Form(a, "or", rest), v.value.heap)
  {
    hide Eval;
    FormUnrolled("or");
    EvalOf(u, b, fuel, f, rho, h, a, "or", L(x, rest));
    var v := Eval(u, b, fuel, f, rho, x, h);
    if v.Some? { EvalOf(u, b, fuel, f, rho, v.value.heap, a, "or", rest); }
  }

  /** (progn x) is x; (progn x . rest) is (progn . rest) after x. */
  lemma PrognLaw(u: Unit, b: Builtins, fuel: nat, f: Fun, rho: Rho, h: Heap, a: nat, x: Sexp, rest: Sexp)
    requires Listp(rest)
    ensures var v := Eval(u, b, fuel, f, rho, x, h);
      Eval(u, b, fuel, f, rho, Form(a, "progn", L(x, rest)), h) ==
        if v.None? || rest.SNil? then v else Eval(u, b, fuel, f, rho, Form(a, "progn", rest), v.value.heap)
  {
    hide Eval;
    FormUnrolled("progn");
    EvalOf(u, b, fuel, f, rho, h, a, "progn", L(x, rest));
    var v := Eval(u, b, fuel, f, rho, x, h);
    if v.Some? { EvalOf(u, b, fuel, f, rho, v.value.heap, a, "progn", rest); }
  }

  /** (let1 (n e) . body) is (progn . body) where n stands for the value of e. */
  lemma LetLaw(u: Unit, b: Builtins, fuel: nat, f: Fun, rho: Rho, h: Heap, a: nat, n: string, e: Sexp, body: Sexp)
    requires Listp(body) && body.SCons?
    ensures var v := Eval(u, b, fuel, f, rho, e, h);
      Eval(u, b, fuel, f, rho, Form(a, "let1", L(L(SSym(n), L(e, SNil)), body)), h) ==
        if v.None? then v else Eval(u, b, fuel, f, rho[n := v.value.value], Form(a, "progn", body), v.value.heap)
  {
    hide Eval, EvalBody;
    FormUnrolled("let1");
    FormUnrolled("progn");
    var binding := L(SSym(n), L(e, SNil));
    CompilesFacts.OneOperand(binding.cdr);
    CompilesFacts.LetShape(L(binding, body));
    EvalOf(u, b, fuel, f, rho, h, a, "let1", L(binding, body));
    var v := Eval(u, b, fuel, f, rho, e, h);
    if v.Some? { EvalOf(u, b, fuel, f, rho[n := v.value.value], v.value.heap, a, "progn", body); }
  }

  /** (list) is nil; (list x . rest) conses x to (list . rest), which is evaluated first. */
  lemma ListLaw(u: Unit, b: Builtins, fuel: nat, f: Fun, rho: Rho, h: Heap, a: nat, x: Sexp, rest: Sexp)
    requires Listp(rest)
    ensures Eval(u, b, fuel, f, rho, Form(a, "list", SNil), h) == Some(Source.Out(Nil, h))
    ensures var (r, whole) := (Eval(u, b, fuel, f, rho, Form(a, "list", rest), h),
                               Eval(u, b, fuel, f, rho, Form(a, "list", L(x, rest)), h));
      if r.None? then whole.None?
      else
        var v := Eval(u, b, fuel, f, rho, x, r.value.heap);
        if v.None? then whole.None?
        else
          var cells := v.value.heap.cells;
          whole == Some(Source.Out(Cons(|cells|), v.value.heap.(cells := cells + [Cell(v.value.value, r.value.value)])))
  {
    hide Eval;
    FormUnrolled("list");
    EvalOf(u, b, fuel, f, rho, h, a, "list", SNil);
    EvalOf(u, b, fuel, f, rho, h, a, "list", rest);
    EvalOf(u, b, fuel, f, rho, h, a, "list", L(x, rest));
  }

  // ----- forms that always have a value -----

  /** No calls and no splices, every operand in place, and every variable one of `names`. */
  predicate Sure(names: set<string>, e: Sexp)
    decreases Size(e), 1
  {
    match e
    case SSym(x) => x == "nil" || x == "t" || x == "+current-file+" || (x != "+current-env+" && x in names)
    case SCons(_, f, args) => Listp(args) && f.SSym? && SureForm(names, f.name, args)
    case _ => true
  }

  predicate SureForm(names: set<string>, f: string, args: Sexp)
    decreases Size(args), 2
  {
    if f == "if" then
      args.SCons? && args.cdr.SCons? && (args.cdr.cdr.SCons? ==> args.cdr.cdr.cdr.SNil?) && SureEach(names, args)
    else if f == "and" || f == "or" || f == "progn" then args.SCons? && SureEach(names, args)
    else if f == "let1" then
      && args.SCons? && args.cdr.SCons? && args.car.SCons? && args.car.car.SSym?
      && args.car.cdr.SCons? && args.car.cdr.cdr.SNil?
      && (assert Size(args.car.cdr.car) < Size(args.car.cdr) < Size(args.car) < Size(args);
        Sure(names, args.car.cdr.car))
      && SureEach(names + {args.car.car.name}, args.cdr)
    else if f == "quote" then args.SCons? && args.cdr.SNil?
    else if f == "backquote" then args.SCons? && args.cdr.SNil? && SureTemplate(names, args.car)
    else if f == "list" then SureEach(names, args)
    else f == "lambda"
  }

  predicate SureEach(names: set<string>, items: Sexp)
    decreases Size(items), 0
  {
    items.SCons? ==> Sure(names, items.car) && SureEach(names, items.cdr)
  }

  predicate SureTemplate(names: set<string>, val: Sexp)
    decreases Size(val), 1
  {
    if !Listp(val) then true
    else if val.SCons? && val.car == SSym("unquote") then
      && val.cdr.SCons? && val.cdr.cdr.SNil?
      && (assert Size(val.cdr.car) < Size(val.cdr) < Size(val); Sure(names, val.cdr.car))
    else SureItems(names, val)
  }

  predicate SureItems(names: set<string>, items: Sexp)
    decreases Size(items), 0
  {
    items.SCons? ==>
      && !(Listp(items.car) && items.car.SCons? && items.car.car == SSym("unquote-splice"))
      && SureTemplate(names, items.car) && SureItems(names, items.cdr)
  }

  /** Such a form has a value in every environment that binds the names, whatever the heap,
      with any fuel. */
  lemma {:induction false} HasValue(u: Unit, b: Builtins, fuel: nat, f: Fun, rho: Rho, names: set<string>, e: Sexp,
                                    h: Heap)
    requires names <= rho.Keys && Sure(names, e)
    ensures Eval(u, b, fuel, f, rho, e, h).Some?
    decreases Size(e), 1
  {
    hide EvalForm, SureForm;
    if e.SCons? { FormHasValue(u, b, fuel, f, rho, names, e.car.name, e.cdr, h); }
  }

  lemma {:induction false} FormHasValue(u: Unit, b: Builtins, fuel: nat, f: Fun, rho: Rho, names: set<string>,
                                        name: string, args: Sexp, h: Heap)
    requires names <= rho.Keys && Listp(args) && SureForm(names, name, args)
    ensures EvalForm(u, b, fuel, f, rho, name, args, h).Some?
    decreases Size(args), 3
  {
    hide FormOf, Eval, EvalBody, EvalChain, EvalConses, EvalBackquote, EvalCall, Sure, SureEach, SureTemplate, EvalIf,
         EvalLet1;
    FormUnrolled(name);
    match FormOf(name)
    case FIf => IfHasValue(u, b, fuel, f, rho, names, args, h);
    case FAnd => ChainHasValue(u, b, fuel, f, rho, names, args, false, h);
    case FOr => ChainHasValue(u, b, fuel, f, rho, names, args, true, h);
    case FProgn => BodyHasValue(u, b, fuel, f, rho, names, args, h);
    case FLet1 => LetHasValue(u, b, fuel, f, rho, names, args, h);
    case FQuote => CompilesFacts.OneOperand(args);
    case FBackquote =>
      CompilesFacts.OneOperand(args);
      TemplateHasValue(u, b, fuel, f, rho, names, args.car, h);
    case FList => ConsesHaveValue(u, b, fuel, f, rho, names, args, h);
    case _ =>
  }

  lemma {:induction false} IfHasValue(u: Unit, b: Builtins, fuel: nat, f: Fun, rho: Rho, names: set<string>,
                                      args: Sexp, h: Heap)
    requires names <= rho.Keys && Listp(args) && SureForm(names, "if", args)
    ensures EvalIf(u, b, fuel, f, rho, args, h).Some?
    decreases Size(args), 2
  {
    hide Eval, Sure;
    assert Listp(args.cdr) && Listp(args.cdr.cdr);
    CompilesFacts.TwoOrThree(args);
    var rest := args.cdr.cdr;
    assert Size(args.cdr.car) < Size(args.cdr) < Size(args) && Size(rest) < Size(args.cdr);
    assert Sure(names, args.car) && SureEach(names, args.cdr);
    assert Sure(names, args.cdr.car) && SureEach(names, rest);
    HasValue(u, b, fuel, f, rho, names, args.car, h);
    var c := Eval(u, b, fuel, f, rho, args.car, h).value;
    HasValue(u, b, fuel, f, rho, names, args.cdr.car, c.heap);
    if rest.SCons? { HasValue(u, b, fuel, f, rho, names, rest.car, c.heap); }
  }

  lemma {:induction false} ChainHasValue(u: Unit, b: Builtins, fuel: nat, f: Fun, rho: Rho, names: set<string>,
                                         args: Sexp, or: bool, h: Heap)
    requires names <= rho.Keys && Listp(args) && args.SCons? && SureEach(names, args)
    ensures EvalChain(u, b, fuel, f, rho, args, or, h).Some?
    decreases Size(args), 0
  {
    hide Eval, Sure;
    HasValue(u, b, fuel, f, rho, names, args.car, h);
    var v := Eval(u, b, fuel, f, rho, args.car, h).value;
    if args.cdr.SCons? { ChainHasValue(u, b, fuel, f, rho, names, args.cdr, or, v.heap); }
  }

  lemma {:induction false} BodyHasValue(u: Unit, b: Builtins, fuel: nat, f: Fun, rho: Rho, names: set<string>,
                                        body: Sexp, h: Heap)
    requires names <= rho.Keys && Listp(body) && body.SCons? && SureEach(names, body)
    ensures EvalBody(u, b, fuel, f, rho, body, h).Some?
    decreases Size(body), 0
  {
    hide Eval, Sure;
    HasValue(u, b, fuel, f, rho, names, body.car, h);
    var v := Eval(u, b, fuel, f, rho, body.car, h).value;
    if body.cdr.SCons? { BodyHasValue(u, b, fuel, f, rho, names, body.cdr, v.heap); }
  }

  lemma {:induction false} LetHasValue(u: Unit, b: Builtins, fuel: nat, f: Fun, rho: Rho, names: set<string>,
                                       args: Sexp, h: Heap)
    requires names <= rho.Keys && Listp(args) && SureForm(names, "let1", args)
    ensures EvalLet1(u, b, fuel, f, rho, args, h).Some?
    decreases Size(args), 2
  {
    hide Eval, EvalBody, Sure, SureEach;
    CompilesFacts.LetShape(args);
    CompilesFacts.OneOperand(args.car.cdr);
    var (e, x) := (args.car.cdr.car, args.car.car.name);
    assert Size(e) < Size(args.car.cdr) < Size(args.car) < Size(args);
    HasValue(u, b, fuel, f, rho, names, e, h);
    var v := Eval(u, b, fuel, f, rho, e, h).value;
    BodyHasValue(u, b, fuel, f, rho[x := v.value], names + {x}, args.cdr, v.heap);
  }

  lemma {:induction false} ConsesHaveValue(u: Unit, b: Builtins, fuel: nat, f: Fun, rho: Rho, names: set<string>,
                                           args: Sexp, h: Heap)
    requires names <= rho.Keys && SureEach(names, args)
    ensures EvalConses(u, b, fuel, f, rho, args, 0, h).Some?
    decreases Size(args), 0
  {
    hide Eval, Sure;
    if args.SCons? {
      ConsesHaveValue(u, b, fuel, f, rho, names, args.cdr, h);
      HasValue(u, b, fuel, f, rho, names, args.car, EvalConses(u, b, fuel, f, rho, args.cdr, 0, h).value.heap);
    }
  }

  lemma {:induction false} TemplateHasValue(u: Unit, b: Builtins, fuel: nat, f: Fun, rho: Rho, names: set<string>,
                                            val: Sexp, h: Heap)
    requires names <= rho.Keys && SureTemplate(names, val)
    ensures EvalBackquote(u, b, fuel, f, rho, val, h).Some?
    decreases Size(val), 1
  {
    hide Eval, EvalTemplate, Sure, SureItems;
    if Listp(val) {
      if val.SCons? && val.car == SSym("unquote") {
        CompilesFacts.OneOperand(val.cdr);
        assert Size(val.cdr.car) < Size(val.cdr) < Size(val);
        HasValue(u, b, fuel, f, rho, names, val.cdr.car, h);
      } else {
        ItemsHaveValue(u, b, fuel, f, rho, names, val, h);
      }
    }
  }

  lemma {:induction false} ItemsHaveValue(u: Unit, b: Builtins, fuel: nat, f: Fun, rho: Rho, names: set<string>,
                                          items: Sexp, h: Heap)
    requires names <= rho.Keys && SureItems(names, items)
    ensures EvalTemplate(u, b, fuel, f, rho, items, h).Some?
    decreases Size(items), 0
  {
    hide Eval, EvalBackquote, Sure, SureTemplate;
    if items.SCons? {
      ItemsHaveValue(u, b, fuel, f, rho, names, items.cdr, h);
      CompilesFacts.SpliceShape(items.car);
      TemplateHasValue(u, b, fuel, f, rho, names, items.car, EvalTemplate(u, b, fuel, f, rho, items.cdr, h).value.heap);
    }
  }

  // ----- tidy forms -----

  /** The symbol stands anywhere in the form. */
  predicate Mentions(e: Sexp, x: string) {
    match e
    case SSym(y) => y == x
    case SCons(_, a, d) => Mentions(a, x) || Mentions(d, x)
    case _ => false
  }

  /** Where neither let1 nor lambda is mentioned, nothing is hidden and no slot is needed. */
  lemma {:induction false} PlainTidy(u: Unit, e: Sexp, vis: set<string>)
    requires !Mentions(e, "let1") && !Mentions(e, "lambda")
    ensures Tidy(u, e, vis) && Need(e) == 0
    decreases Size(e), 1
  {
    hide FormOf;
    if e.SCons? && e.car.SSym? {
      FormUnrolled(e.car.name);
      if FormOf(e.car.name) == FBackquote {
        assert !Mentions(Car(e.cdr), "let1") && !Mentions(Car(e.cdr), "lambda");
        PlainTemplateTidy(u, Car(e.cdr), vis);
      } else {
        PlainEachTidy(u, e.cdr, vis);
      }
    }
  }

  lemma {:induction false} PlainEachTidy(u: Unit, items: Sexp, vis: set<string>)
    requires !Mentions(items, "let1") && !Mentions(items, "lambda")
    ensures TidyEach(u, items, vis) && NeedEach(items) == 0
    decreases Size(items), 0
  {
    hide Tidy, Need;
    if items.SCons? {
      PlainTidy(u, items.car, vis);
      PlainEachTidy(u, items.cdr, vis);
    }
  }

  lemma {:induction false} PlainTemplateTidy(u: Unit, val: Sexp, vis: set<string>)
    requires !Mentions(val, "let1") && !Mentions(val, "lambda")
    ensures TidyTemplate(u, val, vis) && NeedTemplate(val) == 0
    decreases Size(val), 1
  {
    hide Tidy, Need, TidyItems, NeedItems;
    if Listp(val) {
      if SymStrEq(Car(val), "unquote") { PlainTidy(u, Car(Cdr(val)), vis); } else { PlainItemsTidy(u, val, vis); }
    }
  }

  lemma {:induction false} PlainItemsTidy(u: Unit, items: Sexp, vis: set<string>)
    requires !Mentions(items, "let1") && !Mentions(items, "lambda")
    ensures TidyItems(u, items, vis) && NeedItems(items) == 0
    decreases Size(items), 0
  {
    hide Tidy, Need, TidyTemplate, NeedTemplate;
    if items.SCons? {
      var e := Car(Cdr(items.car));
      assert Mentions(e, "let1") ==> Mentions(Cdr(items.car), "let1");
      assert Mentions(e, "lambda") ==> Mentions(Cdr(items.car), "lambda");
      if IsSplice(items.car) { PlainTidy(u, e, vis); } else { PlainTemplateTidy(u, items.car, vis); }
      PlainItemsTidy(u, items.cdr, vis);
    }
  }

  /** A let1 is tidy if and only if its name is not visible where it stands, and its parts
      are tidy with the name visible in the body. */
  lemma LetTidy(u: Unit, a: nat, n: string, e: Sexp, body: Sexp, vis: set<string>)
    ensures Tidy(u, Form(a, "let1", L(L(SSym(n), L(e, SNil)), body)), vis) <==>
      Tidy(u, e, vis) && n !in vis && TidyEach(u, body, vis + {n})
  {
    hide TidyEach;
    FormUnrolled("let1");
    var args := L(L(SSym(n), L(e, SNil)), body);
    assert Car(Cdr(Car(args))) == e && Cdr(args) == body;
    assert Tidy(u, Form(a, "let1", args), vis) <==> TidyForm(u, "let1", args, vis);
  }
}
