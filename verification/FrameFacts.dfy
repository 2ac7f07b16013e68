/** Whether the frame that the first pass sizes holds the slots that code generation
    hands out. */
module FrameFacts {
  import opened Wrappers
  import opened Sexps
  import opened Words
  import opened Scopes
  import opened ScopeFacts
  import opened Codegen
  import opened Source
  import opened CodegenFacts
  import opened LetFacts

  // ----- the first pass -----

  /** The nesting depth of the let1s that walk_and_alloc sees. */
  function WalkDepth(body: Sexp, quoted: bool): nat
    decreases body, 1
  {
    if !Listp(body) || body.SNil? then 0
    else if !quoted && SymStrEq(body.car, "let1") then
      1 + if body.cdr.SCons? then WalkDepthEach(body.cdr.cdr, false) else 0
    else if !quoted && SymStrEq(body.car, "lambda") then 0
    else if quoted then
      if SymStrEq(body.car, "unquote") || SymStrEq(body.car, "unquote-splice") then WalkDepthEach(body.cdr, false)
        else 0
    else
      Max(if body.car.SCons? then WalkDepth(body.car, false) else 0,
          WalkDepthEach(body.cdr, SymStrEq(body.car, "quote") || SymStrEq(body.car, "backquote")))
  }

  function WalkDepthEach(items: Sexp, quoted: bool): nat
    decreases items, 0
  {
    if items.SCons? then Max(WalkDepth(items.car, quoted), WalkDepthEach(items.cdr, quoted)) else 0
  }

  function Min(a: nat, b: nat): nat { if b < a then b else a }

  /** What walking does to the slot map: `depth` more slots were in use at some time. */
  ghost predicate Counted(s: Scope, s': Scope, d: nat, depth: nat) {
    && Slotted(s', d) && |s'.slots| >= 4 && s'.entries >= s.entries && s'.entries >= Min(4, d + depth)
    && (|s.slots| == 4 && d + depth <= 4 ==> |s'.slots| == 4 && s'.entries == Max(s.entries, d + depth))
  }

  lemma {:induction false} WalkCounts(s: Scope, body: Sexp, quoted: bool, d: nat)
    requires Slotted(s, d) && |s.slots| >= 4 && s.entries >= Min(4, d)
    ensures Counted(s, WalkAndAlloc(s, body, quoted), d, WalkDepth(body, quoted))
    decreases body, 1
  {
    if Listp(body) && body.SCons? {
      if !quoted && SymStrEq(body.car, "let1") {
        LetCounts(s, body, d);
      } else if !quoted && SymStrEq(body.car, "lambda") {
      } else if quoted {
        if SymStrEq(body.car, "unquote") || SymStrEq(body.car, "unquote-splice") {
          WalkEachCounts(s, body.cdr, false, d);
        }
      } else {
        if body.car.SCons? { WalkCounts(s, body.car, false, d); }
        var s1 := if body.car.SCons? then WalkAndAlloc(s, body.car, false) else s;
        WalkEachCounts(s1, body.cdr, SymStrEq(body.car, "quote") || SymStrEq(body.car, "backquote"), d);
      }
    }
  }

  lemma {:induction false} LetCounts(s: Scope, body: Sexp, d: nat)
    requires Slotted(s, d) && |s.slots| >= 4 && s.entries >= Min(4, d) && body.SCons?
    ensures var (s1, slot) := LocalAlloc(s);
      var s2 := if body.cdr.SCons? then WalkEach(s1, body.cdr.cdr, false) else s1;
      Counted(s, LocalFree(s2, slot), d, 1 + if body.cdr.SCons? then WalkDepthEach(body.cdr.cdr, false) else 0)
    decreases body, 0
  {
    AllocSlot(s, d);
    var s1 := LocalAlloc(s).0;
    if body.cdr.SCons? { WalkEachCounts(s1, body.cdr.cdr, false, d + 1); }
    var s2 := if body.cdr.SCons? then WalkEach(s1, body.cdr.cdr, false) else s1;
    FreeSlot(s2, d);
  }

  lemma {:induction false} WalkEachCounts(s: Scope, items: Sexp, quoted: bool, d: nat)
    requires Slotted(s, d) && |s.slots| >= 4 && s.entries >= Min(4, d)
    ensures Counted(s, WalkEach(s, items, quoted), d, WalkDepthEach(items, quoted))
    decreases items, 0
  {
    if items.SCons? {
      WalkCounts(s, items.car, quoted, d);
      WalkEachCounts(WalkAndAlloc(s, items.car, quoted), items.cdr, quoted, d);
    }
  }

  /** The frame has exactly as many entries as the walked nesting depth, up to four;
      beyond that it has at least four. */
  lemma FrameEntriesExact(body: Sexp)
    ensures WalkDepthEach(body, false) <= 4 ==> FrameEntries(body) == WalkDepthEach(body, false)
    ensures WalkDepthEach(body, false) > 4 ==> FrameEntries(body) >= 4
  {
    WalkEachCounts(FreshScope("", None), body, false, 0);
  }

  /** The walk sees every let1 that will take a slot: none is in the value of another
      let1, and none in a template unless the template is a single unquote. */
  predicate LetsSeen(e: Sexp)
    decreases Size(e), 1
  {
    e.SCons? ==> Listp(e) && (e.car.SSym? ==> LetsSeenForm(e.car.name, e.cdr))
  }

  predicate LetsSeenForm(name: string, args: Sexp)
    decreases Size(args), 2
  {
    match FormOf(name)
    case FLet1 => args.SCons? && Need(Car(Cdr(args.car))) == 0 && LetsSeenEach(args.cdr)
    case FBackquote =>
      var val := Car(args);
      NeedTemplate(val) == 0 || (Listp(val) && SymStrEq(Car(val), "unquote") && LetsSeenEach(Cdr(val)))
    case FQuote => true
    case FLambda => true
    case _ => LetsSeenEach(args)
  }

  predicate LetsSeenEach(items: Sexp)
    decreases Size(items), 0
  {
    items.SCons? ==> LetsSeen(items.car) && LetsSeenEach(items.cdr)
  }

  lemma {:induction false} NeedWalked(e: Sexp)
    requires LetsSeen(e)
    ensures Need(e) <= WalkDepth(e, false)
    decreases Size(e), 1
  {
    hide FormOf, NeedTemplate, WalkDepthEach;
    if e.SCons? && e.car.SSym? {
      KeywordNames(e.car.name);
      match FormOf(e.car.name)
      case FLet1 =>
        assert Size(e.cdr.cdr) < Size(e.cdr) < Size(e);
        NeedEachWalked(e.cdr.cdr);
      case FBackquote => TemplateWalked(e);
      case FQuote =>
      case FLambda =>
      case _ => FormWalked(e);
    }
  }

  /** A template that is a single unquote, the only kind with let1s here. */
  lemma {:induction false} TemplateWalked(e: Sexp)
    requires e.SCons? && Listp(e) && SymStrEq(e.car, "backquote") && FormOf("backquote") == FBackquote
    requires LetsSeenForm("backquote", e.cdr)
    ensures NeedTemplate(Car(e.cdr)) <= WalkDepth(e, false)
    decreases Size(e), 0
  {
    hide FormOf, LetsSeen;
    var val := Car(e.cdr);
    if NeedTemplate(val) > 0 {
      assert val.SCons? && Size(val.cdr) < Size(e);
      NeedEachWalked(val.cdr);
      assert WalkDepth(val, true) == WalkDepthEach(val.cdr, false) >= NeedTemplate(val);
      assert WalkDepth(e, false) >= WalkDepthEach(e.cdr, true) >= WalkDepth(val, true);
    }
  }

  lemma {:induction false} FormWalked(e: Sexp)
    requires e.SCons? && Listp(e) && LetsSeenEach(e.cdr)
    requires !SymStrEq(e.car, "let1") && !SymStrEq(e.car, "lambda") && !SymStrEq(e.car, "quote")
    requires !SymStrEq(e.car, "backquote")
    ensures NeedEach(e.cdr) <= WalkDepth(e, false)
    decreases Size(e), 0
  {
    hide LetsSeen, NeedEach;
    NeedEachWalked(e.cdr);
  }

  lemma {:induction false} NeedEachWalked(items: Sexp)
    requires LetsSeenEach(items)
    ensures NeedEach(items) <= WalkDepthEach(items, false)
    decreases Size(items), 0
  {
    if items.SCons? {
      NeedWalked(items.car);
      NeedEachWalked(items.cdr);
    }
  }

  // ----- both passes -----

  /** The frame holds every slot handed out for the body if and only if the first pass
      counted at least the nesting depth of the body's let1s. */
  lemma FrameHolds(u: Unit, env: Env, arglist: Sexp, body: Sexp, name: string, parent: Option<Scope>)
    requires CompileFunction(u, env, arglist, body, name, parent).Ok?
    ensures InFrame(CompileFunction(u, env, arglist, body, name, parent).value.scope.vars, FrameEntries(body))
       <==> NeedEach(body) <= FrameEntries(body)
  {
    hide CompileFunction, FrameEntries, LetsEach, NeedEach;
    LeavesFunction(u, env, arglist, body, name, parent);
    LetsEachDepth(body);
  }

  /** With at most four nested let1s, all of them where the walk sees them, it does. */
  lemma FrameFits(body: Sexp)
    requires LetsSeenEach(body) && NeedEach(body) <= 4
    ensures NeedEach(body) <= FrameEntries(body)
  {
    FrameEntriesExact(body);
    NeedEachWalked(body);
  }

  function List1(a: Sexp): Sexp { SCons(0, a, SNil) }

  /** (let1 (name value) body) */
  function Let(name: string, value: Sexp, body: Sexp): Sexp {
    SCons(0, SSym("let1"), SCons(0, SCons(0, SSym(name), List1(value)), List1(body)))
  }

  lemma ListpCons(v: Sexp)
    requires v.SCons? && Listp(v.cdr)
    ensures Listp(v)
  {
  }

  lemma LetCost(name: string, value: Sexp, body: Sexp, s: Scope)
    ensures Need(Let(name, value, body)) == Max(Need(value), 1 + Need(body))
    ensures WalkAndAlloc(s, Let(name, value, body), false) ==
      LocalFree(WalkAndAlloc(LocalAlloc(s).0, body, false), LocalAlloc(s).1)
  {
    hide FormOf;
    KeywordNames("let1");
    var e := Let(name, value, body);
    assert Need(e) == NeedForm("let1", e.cdr);
    assert NeedEach(List1(body)) == Need(body) by { assert NeedEach(SNil) == 0; }
    assert WalkEach(LocalAlloc(s).0, List1(body), false) == WalkAndAlloc(LocalAlloc(s).0, body, false) by {
      assert WalkEach(WalkAndAlloc(LocalAlloc(s).0, body, false), SNil, false) ==
        WalkAndAlloc(LocalAlloc(s).0, body, false);
    }
    assert e.cdr.cdr == List1(body);
    assert Listp(e.cdr.cdr);
    ListpCons(e.cdr);
    ListpCons(e);
    assert WalkAndAlloc(s, e, false) == LocalFree(WalkEach(LocalAlloc(s).0, e.cdr.cdr, false), LocalAlloc(s).1);
  }

  /** Five nested let1s need five slots; the slot map grows for the fifth, and the
      growing path of local_alloc does not count it. */
  lemma FiveLetsOverflow()
    ensures
      var body := List1(Let("a", SInt(1), Let("b", SInt(1), Let("c", SInt(1), Let("d", SInt(1),
                        Let("e", SInt(1), SSym("e")))))));
      NeedEach(body) == 5 && FrameEntries(body) == 4
  {
    hide WalkAndAlloc, Need, FormOf;
    var s0 := FreshScope("", None);
    var e5 := Let("e", SInt(1), SSym("e"));
    var e4 := Let("d", SInt(1), e5);
    var e3 := Let("c", SInt(1), e4);
    var e2 := Let("b", SInt(1), e3);
    var e1 := Let("a", SInt(1), e2);
    Atoms(s0);
    var s1 := LocalAlloc(s0).0;
    var s2 := LocalAlloc(s1).0;
    var s3 := LocalAlloc(s2).0;
    var s4 := LocalAlloc(s3).0;
    var s5 := LocalAlloc(s4).0;
    AllocSlot(s0, 0);
    AllocSlot(s1, 1);
    AllocSlot(s2, 2);
    AllocSlot(s3, 3);
    AllocSlot(s4, 4);
    LetCost("e", SInt(1), SSym("e"), s4);
    LetCost("d", SInt(1), e5, s3);
    LetCost("c", SInt(1), e4, s2);
    LetCost("b", SInt(1), e3, s1);
    LetCost("a", SInt(1), e2, s0);
    Atoms(s5);
    assert WalkEach(s0, List1(e1), false) == WalkAndAlloc(s0, e1, false);
    assert NeedEach(List1(e1)) == Need(e1) by { assert NeedEach(SNil) == 0; }
  }

  lemma Atoms(s: Scope)
    ensures WalkAndAlloc(s, SSym("e"), false) == s && Need(SSym("e")) == 0 && Need(SInt(1)) == 0
  {
  }

  /** The walk skips the value of a let1, so let1s in there are not counted. */
  lemma HiddenLetOverflow()
    ensures var value := Let("b", SInt(1), Let("c", SInt(1), SSym("e")));
      var body := List1(Let("a", value, SSym("e")));
      NeedEach(body) == 2 && FrameEntries(body) == 1
  {
    hide WalkAndAlloc, Need, FormOf;
    var s0 := FreshScope("", None);
    var c := Let("c", SInt(1), SSym("e"));
    var value := Let("b", SInt(1), c);
    var e := Let("a", value, SSym("e"));
    AllocSlot(s0, 0);
    var s1 := LocalAlloc(s0).0;
    Atoms(s1);
    LetCost("c", SInt(1), SSym("e"), s0);
    LetCost("b", SInt(1), c, s0);
    LetCost("a", value, SSym("e"), s0);
    assert WalkEach(s0, List1(e), false) == WalkAndAlloc(s0, e, false);
    assert NeedEach(List1(e)) == Need(e) by { assert NeedEach(SNil) == 0; }
  }
}
