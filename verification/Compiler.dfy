/** The code generator as it is written: it appends to a buffer and changes the record of
    the function under way.  Every method is tied to its specification in Codegen. */
module Compiler {
  import opened Wrappers
  import opened Sexps
  import opened Words
  import opened Scopes
  import opened Codegen
  import opened LocalState

  /** `*Dst`. */
  class Buffer {
    var code: seq<Instr>

    constructor ()
      ensures code == []
    {
      code := [];
    }

    method Emit(c: seq<Instr>)
      modifies this
      ensures code == old(code) + c
    {
      code := code + c;
    }
  }

  /** What a method did is what the specification says: the same error, or the code
      appended and the record left as given. */
  ghost predicate Did(r: Result<Gen>, err: Option<Error>, was: seq<Instr>, now: seq<Instr>, view: Scope) {
    match r
    case Err(e) => err == Some(e)
    case Ok(g) => err == None && now == was + g.code && view == g.scope
  }

  /** `r`, with `code` in front. */
  ghost function Then(code: seq<Instr>, r: Result<Gen>): Result<Gen> {
    match r
    case Err(e) => Err(e)
    case Ok(g) => Ok(Gen(code + g.code, g.scope))
  }

  /** The forms of a list from number `k` on. */
  function Drop(v: Sexp, k: nat): (r: Sexp)
    ensures Size(r) <= Size(v)
    decreases k
  {
    if k == 0 then v else Drop(Cdr(v), k - 1)
  }

  lemma {:induction false} DropElt(v: Sexp, k: nat)
    ensures Elt(v, k) == Car(Drop(v, k)) && Drop(v, k + 1) == Cdr(Drop(v, k))
    decreases k
  {
    if k > 0 { DropElt(Cdr(v), k - 1); }
  }

  lemma {:induction false} DropList(v: Sexp, k: nat)
    requires Listp(v) && k <= Length(v)
    ensures Listp(Drop(v, k)) && Length(Drop(v, k)) == Length(v) - k
    ensures k < Length(v) ==> Drop(v, k).SCons? && Size(Car(Drop(v, k))) < Size(v)
    decreases k
  {
    if k > 0 { DropList(v.cdr, k - 1); }
  }

  // ----- the loops that run from the last form to the first -----

  /** An error among the later forms is the error of the whole list. */
  lemma {:induction false} ConsesErr(u: Unit, env: Env, s: Scope, args: Sexp, k: nat, skip: nat)
    requires Listp(args) && skip <= k <= Length(args) && CompileConses(u, env, s, Drop(args, k), 0).Err?
    ensures CompileConses(u, env, s, args, skip) == CompileConses(u, env, s, Drop(args, k), 0)
    decreases Size(args)
  {
    hide Compile;
    if args.SCons? && k > 0 {
      if skip > 0 {
        ConsesErr(u, env, s, args.cdr, k - 1, skip - 1);
      } else {
        ConsesErr(u, env, s, args.cdr, k - 1, 0);
      }
    }
  }

  lemma {:induction false} ConsesSkip(u: Unit, env: Env, s: Scope, args: Sexp, skip: nat)
    requires Listp(args)
    ensures CompileConses(u, env, s, args, skip) == if skip <= Length(args) then
      CompileConses(u, env, s, Drop(args, skip), 0) else Ok(Gen([], s))
    decreases Size(args)
  {
    hide Compile;
    if args.SCons? && skip > 0 { ConsesSkip(u, env, s, args.cdr, skip - 1); }
  }

  lemma {:induction false} PushesErr(u: Unit, env: Env, s: Scope, args: Sexp, k: nat, n: nat)
    requires Listp(args) && k <= n && k <= Length(args) && CompilePushes(u, env, s, Drop(args, k), n - k).Err?
    ensures CompilePushes(u, env, s, args, n) == CompilePushes(u, env, s, Drop(args, k), n - k)
    decreases Size(args)
  {
    hide Compile;
    if args.SCons? && k > 0 { PushesErr(u, env, s, args.cdr, k - 1, n - 1); }
  }

  lemma {:induction false} TemplateErr(u: Unit, env: Env, s: Scope, items: Sexp, k: nat)
    requires Listp(items) && k <= Length(items) && CompileTemplate(u, env, s, Drop(items, k)).Err?
    ensures CompileTemplate(u, env, s, items) == CompileTemplate(u, env, s, Drop(items, k))
    decreases Size(items)
  {
    hide Compile, CompileBackquote;
    if items.SCons? && k > 0 { TemplateErr(u, env, s, items.cdr, k - 1); }
  }

  /** Adding one element of a template. */
  lemma TemplateStep(u: Unit, env: Env, s: Scope, items: Sexp)
    requires items.SCons?
    ensures CompileTemplate(u, env, s, items) ==
      match CompileTemplate(u, env, s, items.cdr)
      case Err(e) => Err(e)
      case Ok(r) => Then(r.code, ItemResult(u, env, r.scope, items.car))
  {
    hide Compile, CompileBackquote, IsSplice;
    match CompileTemplate(u, env, s, items.cdr)
    case Err(e) =>
    case Ok(r) =>
      if IsSplice(items.car) {
        if Compile(u, env, r.scope, Car(Cdr(items.car)), false).Ok? {
          var g := Compile(u, env, r.scope, Car(Cdr(items.car)), false).value;
          assert r.code + g.code + PUSH_MERGE == r.code + (g.code + PUSH_MERGE);
        }
      } else if CompileBackquote(u, env, r.scope, items.car).Ok? {
        var g := CompileBackquote(u, env, r.scope, items.car).value;
        assert r.code + g.code + PUSH_CONS == r.code + (g.code + PUSH_CONS);
      }
  }

  lemma ConsesStep(u: Unit, env: Env, s: Scope, args: Sexp)
    requires args.SCons?
    ensures CompileConses(u, env, s, args, 0) ==
      match CompileConses(u, env, s, args.cdr, 0)
      case Err(e) => Err(e)
      case Ok(r) => Then(r.code, Behind(Compile(u, env, r.scope, args.car, false), PUSH_CONS))
  {
    hide Compile;
    match CompileConses(u, env, s, args.cdr, 0)
    case Err(e) =>
    case Ok(r) =>
      if Compile(u, env, r.scope, args.car, false).Ok? {
        var g := Compile(u, env, r.scope, args.car, false).value;
        assert r.code + g.code + PUSH_CONS == r.code + (g.code + PUSH_CONS);
      }
  }

  lemma PushesStep(u: Unit, env: Env, s: Scope, args: Sexp, n: nat)
    requires args.SCons? && n > 0
    ensures CompilePushes(u, env, s, args, n) ==
      match CompilePushes(u, env, s, args.cdr, n - 1)
      case Err(e) => Err(e)
      case Ok(r) => Then(r.code, Behind(Compile(u, env, r.scope, args.car, false), [PushEax]))
  {
    hide Compile;
    match CompilePushes(u, env, s, args.cdr, n - 1)
    case Err(e) =>
    case Ok(r) =>
      if Compile(u, env, r.scope, args.car, false).Ok? {
        var g := Compile(u, env, r.scope, args.car, false).value;
        assert r.code + g.code + [PushEax] == r.code + (g.code + [PushEax]);
      }
  }

  /** `r` with `end` behind its code. */
  ghost function Behind(r: Result<Gen>, end: seq<Instr>): Result<Gen> {
    match r
    case Err(e) => Err(e)
    case Ok(g) => Ok(Gen(g.code + end, g.scope))
  }

  /** One piece after another. */
  lemma DidThen(r1: seq<Instr>, r2: Result<Gen>, err: Option<Error>, c0: seq<Instr>, c1: seq<Instr>, now: seq<Instr>,
                view: Scope)
    requires c1 == c0 + r1 && Did(r2, err, c1, now, view)
    ensures Did(Then(r1, r2), err, c0, now, view)
  {
    if r2.Ok? { assert c0 + r1 + r2.value.code == c0 + (r1 + r2.value.code); }
  }

  lemma DidBehind(r: Result<Gen>, end: seq<Instr>, was: seq<Instr>, now: seq<Instr>, view: Scope)
    requires Did(r, None, was, now, view)
    ensures Did(Behind(r, end), None, was, now + end, view)
  {
    if r.Ok? { assert was + r.value.code + end == was + (r.value.code + end); }
  }

  lemma DidNothing(s: Scope, code: seq<Instr>)
    ensures Did(Ok(Gen([], s)), None, code, code, s)
  {
    assert code + [] == code;
  }

  // ----- methods -----

  method CompileExpression(u: Unit, env: Env, local: Local, val: Sexp, tail: bool, dst: Buffer)
    returns (err: Option<Error>)
    requires local.Valid()
    modifies local.Repr, dst
    ensures Did(Compile(u, env, old(local.View()), val, tail), err, old(dst.code), dst.code, local.View())
    decreases Size(val), 1
  {
    hide CompileForm, FindVariable;
    err := None;
    if SymStrEq(val, "nil") || val.SNil? {
      dst.Emit([MovEaxImm(Nil)]);
    } else if SymStrEq(val, "t") {
      dst.Emit([MovEaxImm(T)]);
    } else if val.SInt? || val.SStr? {
      dst.Emit([MovEaxImm(WordOf(val))]);
    } else if Listp(val) {
      if !val.car.SSym? {
        return Some(EExpected);
      }
      err := CompileCallForm(u, env, local, val.car.name, val.cdr, tail, dst);
    } else if val.SSym? {
      if val.name == "+current-file+" {
        dst.Emit([MovEaxImm(Str(u.file))]);
      } else if val.name == "+current-env+" {
        return Some(Unmodelled);
      } else {
        var v := local.FindVar(val.name);
        if v.None? {
          return Some(EInvalid);
        }
        dst.Emit([CompileVariable(v.value)]);
      }
    } else {
      return Some(EUnimpl);
    }
  }

  /** The chain of tests for the special forms. */
  method CompileCallForm(u: Unit, env: Env, local: Local, name: string, args: Sexp, tail: bool, dst: Buffer)
    returns (err: Option<Error>)
    requires local.Valid() && Listp(args)
    modifies local.Repr, dst
    ensures Did(CompileForm(u, env, old(local.View()), name, args, tail), err, old(dst.code), dst.code, local.View())
    decreases Size(args), 5
  {
    hide CompileIf, CompileAndOr, CompileBody, CompileLet1, CompileBackquote, CompileList, CompileLambda, CompileCall,
         FormOf, Did;
    match FormOf(name) {
      case FIf => err := EmitIf(u, env, local, args, tail, dst);
      case FAnd => err := EmitAndOr(u, env, local, args, false, dst);
      case FOr => err := EmitAndOr(u, env, local, args, true, dst);
      case FProgn => err := EmitBody(u, env, local, args, tail, dst);
      case FLet1 => err := EmitLet1(u, env, local, args, tail, dst);
      case FQuote => err := EmitQuote(u, env, local, name, args, tail, dst);
      case FBackquote => err := EmitQuasi(u, env, local, name, args, tail, dst);
      case FList => err := EmitList(u, env, local, args, dst);
      case FLambda => err := EmitLambda(u, env, local, args, dst);
      case FCall => err := EmitCall(u, env, local, name, args, tail, dst);
      case _ => err := NotModelled(u, env, local, name, args, tail, dst);
    }
  }

  method NotModelled(u: Unit, env: Env, local: Local, name: string, args: Sexp, tail: bool, dst: Buffer)
    returns (err: Option<Error>)
    requires local.Valid() && FormOf(name) in {FGc, FFunction, FEval, FLoad}
    ensures Did(CompileForm(u, env, local.View(), name, args, tail), err, dst.code, dst.code, local.View())
  {
    hide FormOf;
    err := Some(Unmodelled);
  }

  method EmitQuote(u: Unit, env: Env, local: Local, name: string, args: Sexp, tail: bool, dst: Buffer)
    returns (err: Option<Error>)
    requires local.Valid() && FormOf(name) == FQuote
    modifies dst
    ensures Did(CompileForm(u, env, old(local.View()), name, args, tail), err, old(dst.code), dst.code, local.View())
  {
    hide FormOf;
    if Length(args) != 1 {
      return Some(EArgs);
    }
    dst.Emit([MovEaxImm(WordOf(Car(args)))]);
    err := None;
  }

  method EmitQuasi(u: Unit, env: Env, local: Local, name: string, args: Sexp, tail: bool, dst: Buffer)
    returns (err: Option<Error>)
    requires local.Valid() && FormOf(name) == FBackquote && Listp(args)
    modifies local.Repr, dst
    ensures Did(CompileForm(u, env, old(local.View()), name, args, tail), err, old(dst.code), dst.code, local.View())
    decreases Size(args), 4
  {
    hide FormOf, CompileBackquote;
    if Length(args) != 1 {
      return Some(EArgs);
    }
    err := EmitBackquote(u, env, local, Car(args), dst);
  }

  method EmitIf(u: Unit, env: Env, local: Local, args: Sexp, tail: bool, dst: Buffer) returns (err: Option<Error>)
    requires local.Valid() && Listp(args)
    modifies local.Repr, dst
    ensures Did(CompileIf(u, env, old(local.View()), args, tail), err, old(dst.code), dst.code, local.View())
    decreases Size(args), 3
  {
    hide Compile, Did;
    var nargs := Length(args);
    if nargs < 2 || nargs > 3 {
      err := Some(EArgs);
      DidErr(EArgs, dst.code, dst.code, local.View());
      return;
    }
    ghost var s, c0 := local.View(), dst.code;
    DropList(args, 1);
    err := CompileExpression(u, env, local, args.car, false, dst);
    DidFacts(Compile(u, env, s, args.car, false), err, c0, dst.code, local.View());
    if err.Some? {
      DidErr(err.value, c0, dst.code, local.View());
      return;
    }
    ghost var c := Compile(u, env, s, args.car, false).value;
    err := EmitBranches(u, env, local, args.cdr.car, args.cdr.cdr, tail, dst, c, c0);
  }

  /** From the test jump of an `if` to its end label. */
  method EmitBranches(u: Unit, env: Env, local: Local, e: Sexp, rest: Sexp, tail: bool, dst: Buffer, ghost c: Gen,
                      ghost c0: seq<Instr>)
    returns (err: Option<Error>)
    requires local.Valid() && c.scope == local.View() && dst.code == c0 + c.code && Listp(rest) && Length(rest) <= 1
    modifies local.Repr, dst
    ensures Did(CompileBranches(u, env, c, e, rest, tail), err, c0, dst.code, local.View())
    decreases Size(e) + Size(rest), 3
  {
    hide *;
    ghost var s2 := NextPc(NextPc(c.scope).0).0;
    InRepr(local);
    var falseLabel := local.NextLabel();
    var afterLabel := local.NextLabel();
    dst.Emit([CmpEax(Nil), Je(falseLabel)]);
    ghost var c1 := dst.code;
    err := CompileExpression(u, env, local, e, tail, dst);
    ghost var t := Compile(u, env, s2, e, tail);
    DidFacts(t, err, c1, dst.code, local.View());
    BranchesAre(u, env, c, e, rest, tail);
    if err.Some? {
      DidErr(err.value, c0, dst.code, local.View());
      return;
    }
    dst.Emit([Jmp(afterLabel), Label(falseLabel)]);
    ghost var c2 := dst.code;
    err := EmitElse(u, env, local, rest, tail, dst);
    ghost var f := CompileElse(u, env, t.value.scope, rest, tail);
    DidFacts(f, err, c2, dst.code, local.View());
    if err.Some? {
      DidErr(err.value, c0, dst.code, local.View());
      return;
    }
    dst.Emit([Label(afterLabel)]);
    IfCodeAssoc(c0, c.code, t.value.code, f.value.code, falseLabel, afterLabel);
    DidOk(Gen(IfCode(c.code, t.value.code, f.value.code, falseLabel, afterLabel), f.value.scope), c0);
  }

  /** `if (nargs == 3)`. */
  method EmitElse(u: Unit, env: Env, local: Local, rest: Sexp, tail: bool, dst: Buffer) returns (err: Option<Error>)
    requires local.Valid() && Listp(rest)
    modifies local.Repr, dst
    ensures Did(CompileElse(u, env, old(local.View()), rest, tail), err, old(dst.code), dst.code, local.View())
    decreases Size(rest), 2
  {
    hide Compile;
    err := None;
    if rest.SCons? {
      err := CompileExpression(u, env, local, rest.car, tail, dst);
    }
  }

  lemma DidOk(g: Gen, was: seq<Instr>)
    ensures Did(Ok(g), None, was, was + g.code, g.scope)
  {
  }

  lemma BranchesAre(u: Unit, env: Env, c: Gen, e: Sexp, rest: Sexp, tail: bool)
    ensures var (s1, fl) := NextPc(c.scope); var (s2, al) := NextPc(s1);
      CompileBranches(u, env, c, e, rest, tail) ==
      match Compile(u, env, s2, e, tail)
      case Err(x) => Err(x)
      case Ok(t) =>
        match CompileElse(u, env, t.scope, rest, tail)
        case Err(x) => Err(x)
        case Ok(f) => Ok(Gen(IfCode(c.code, t.code, f.code, fl, al), f.scope))
  {
    hide Compile, CompileElse;
  }

  lemma InRepr(local: Local)
    requires local.Valid()
    ensures local in local.Repr && local.Repr == {local} + if local.parent == null then {} else local.parent.Repr
  {
  }

  lemma IfCodeAssoc(c0: seq<Instr>, c: seq<Instr>, t: seq<Instr>, f: seq<Instr>, fl: nat, al: nat)
    ensures c0 + c + [CmpEax(Nil), Je(fl)] + t + [Jmp(al), Label(fl)] + f + [Label(al)] == c0 + IfCode(c, t, f, fl, al)
  {
  }

  lemma DidErr(e: Error, was: seq<Instr>, now: seq<Instr>, view: Scope)
    ensures Did(Err(e), Some(e), was, now, view)
  {
  }

  lemma DidFacts(r: Result<Gen>, err: Option<Error>, was: seq<Instr>, now: seq<Instr>, view: Scope)
    requires Did(r, err, was, now, view)
    ensures r.Err? ==> err == Some(r.error)
    ensures r.Ok? ==> err == None && now == was + r.value.code && view == r.value.scope
  {
  }

  method EmitAndOr(u: Unit, env: Env, local: Local, list: Sexp, or: bool, dst: Buffer) returns (err: Option<Error>)
    requires local.Valid() && Listp(list)
    modifies local.Repr, dst
    ensures Did(CompileAndOr(u, env, old(local.View()), list, or), err, old(dst.code), dst.code, local.View())
    decreases Size(list), 3
  {
    hide Compile, CompileChain, Did, Then, Size, Local.View, Local.Valid;
    err := None;
    InRepr(local);
    if Length(list) < 1 {
      err := Some(EArgs);
      DidErr(EArgs, dst.code, dst.code, local.View());
      return;
    }
    ghost var c0 := dst.code;
    var after := local.NextLabel();
    ghost var s1 := local.View();
    var args := list;
    AfterNothing(CompileChain(u, env, s1, list, or, after));
    assert dst.code[|c0|..] == [];
    while !args.SNil?
      invariant Listp(args) && Size(args) <= Size(list) && c0 <= dst.code && local.Valid() && err == None
      invariant CompileChain(u, env, s1, list, or, after) ==
        Then(dst.code[|c0|..], CompileChain(u, env, local.View(), args, or, after))
      decreases Size(args)
    {
      ghost var s, c := local.View(), dst.code;
      SizeStep(args);
      ChainStep(u, env, s, args, or, after);
      err := CompileExpression(u, env, local, args.car, false, dst);
      ghost var r := Compile(u, env, s, args.car, false);
      DidFacts(r, err, c, dst.code, local.View());
      if err.Some? {
        ThenErr(c[|c0|..], err.value);
        DidErr(err.value, c0, dst.code, local.View());
        return;
      }
      if !args.cdr.SNil? {
        dst.Emit([CmpEax(Nil)]);
        if or {
          dst.Emit([Jne(after)]);
        } else {
          dst.Emit([Je(after)]);
        }
      }
      ghost var piece := r.value.code + EarlyExit(args.cdr, or, after);
      assert dst.code == c + piece;
      AfterMore(c0, c, piece, dst.code, CompileChain(u, env, local.View(), args.cdr, or, after));
      args := args.cdr;
    }
    ChainEnd(u, env, local.View(), or, after);
    ThenDone(c0, dst.code, local.View());
    DidBehind(Ok(Gen(dst.code[|c0|..], local.View())), [Label(after)], c0, dst.code, local.View());
    dst.Emit([Label(after)]);
  }

  lemma SizeStep(v: Sexp)
    requires v.SCons?
    ensures Size(v.car) < Size(v) && Size(v.cdr) < Size(v)
  {
  }

  /** The test between two operands of `and` or `or`. */
  ghost function EarlyExit(rest: Sexp, or: bool, after: nat): seq<Instr> {
    if rest.SNil? then [] else [CmpEax(Nil), if or then Jne(after) else Je(after)]
  }

  lemma ChainStep(u: Unit, env: Env, s: Scope, args: Sexp, or: bool, after: nat)
    requires args.SCons? && Listp(args)
    ensures CompileChain(u, env, s, args, or, after) ==
      match Compile(u, env, s, args.car, false)
      case Err(e) => Err(e)
      case Ok(g) =>
        Then(g.code + EarlyExit(args.cdr, or, after), CompileChain(u, env, g.scope, args.cdr, or, after))
  {
    hide Compile;
    if args.cdr.SNil? && Compile(u, env, s, args.car, false).Ok? {
      var g := Compile(u, env, s, args.car, false).value;
      assert g.code + [] + [] == g.code;
    }
  }

  lemma ChainEnd(u: Unit, env: Env, s: Scope, or: bool, after: nat)
    ensures CompileChain(u, env, s, SNil, or, after) == Ok(Gen([], s))
  {
  }

  lemma BodyStep(u: Unit, env: Env, s: Scope, body: Sexp, tail: bool)
    requires body.SCons?
    ensures CompileBody(u, env, s, body, tail) ==
      match Compile(u, env, s, body.car, tail && body.cdr.SNil?)
      case Err(e) => Err(e)
      case Ok(g) => Then(g.code, CompileBody(u, env, g.scope, body.cdr, tail))
  {
    hide Compile;
  }

  lemma BodyEnd(u: Unit, env: Env, s: Scope, tail: bool)
    ensures CompileBody(u, env, s, SNil, tail) == Ok(Gen([], s))
  {
  }

  lemma ThenErr(code: seq<Instr>, e: Error)
    ensures Then(code, Err(e)) == Err(e)
  {
  }

  /** Nothing is left to do. */
  lemma ThenDone(c0: seq<Instr>, now: seq<Instr>, s: Scope)
    requires c0 <= now
    ensures Then(now[|c0|..], Ok(Gen([], s))) == Ok(Gen(now[|c0|..], s))
    ensures Did(Ok(Gen(now[|c0|..], s)), None, c0, now, s)
  {
    assert now[|c0|..] + [] == now[|c0|..] && c0 + now[|c0|..] == now;
  }

  lemma AfterNothing(r: Result<Gen>)
    ensures Then([], r) == r
  {
    if r.Ok? { assert [] + r.value.code == r.value.code; }
  }

  lemma AfterMore(c0: seq<Instr>, c: seq<Instr>, piece: seq<Instr>, now: seq<Instr>, r: Result<Gen>)
    requires c0 <= c && now == c + piece
    ensures c0 <= now && Then(now[|c0|..], r) == Then(c[|c0|..], Then(piece, r))
  {
    assert now[|c0|..] == c[|c0|..] + piece;
    if r.Ok? { assert c[|c0|..] + piece + r.value.code == c[|c0|..] + (piece + r.value.code); }
  }

  /** The loops over the forms of a progn, a let1 body or a function body. */
  method EmitBody(u: Unit, env: Env, local: Local, list: Sexp, tail: bool, dst: Buffer) returns (err: Option<Error>)
    requires local.Valid() && Listp(list)
    modifies local.Repr, dst
    ensures Did(CompileBody(u, env, old(local.View()), list, tail), err, old(dst.code), dst.code, local.View())
    decreases Size(list), 2
  {
    hide Compile, CompileBody, Did, Then, Size;
    err := None;
    ghost var s0, c0 := local.View(), dst.code;
    var body := list;
    AfterNothing(CompileBody(u, env, s0, list, tail));
    assert dst.code[|c0|..] == [];
    while !body.SNil?
      invariant Listp(body) && Size(body) <= Size(list) && c0 <= dst.code && local.Valid() && err == None
      invariant CompileBody(u, env, s0, list, tail) ==
        Then(dst.code[|c0|..], CompileBody(u, env, local.View(), body, tail))
      decreases Size(body)
    {
      ghost var s, c := local.View(), dst.code;
      SizeStep(body);
      BodyStep(u, env, s, body, tail);
      err := CompileExpression(u, env, local, body.car, tail && body.cdr.SNil?, dst);
      ghost var r := Compile(u, env, s, body.car, tail && body.cdr.SNil?);
      DidFacts(r, err, c, dst.code, local.View());
      if err.Some? {
        ThenErr(c[|c0|..], err.value);
        DidErr(err.value, c0, dst.code, local.View());
        return;
      }
      AfterMore(c0, c, r.value.code, dst.code, CompileBody(u, env, local.View(), body.cdr, tail));
      body := body.cdr;
    }
    BodyEnd(u, env, local.View(), tail);
    ThenDone(c0, dst.code, local.View());
  }

  method EmitLet1(u: Unit, env: Env, local: Local, args: Sexp, tail: bool, dst: Buffer) returns (err: Option<Error>)
    requires local.Valid() && Listp(args)
    modifies local.Repr, dst
    ensures Did(CompileLet1(u, env, old(local.View()), args, tail), err, old(dst.code), dst.code, local.View())
    decreases Size(args), 3
  {
    hide Compile, CompileBody;
    if Length(args) < 2 {
      return Some(EArgs);
    }
    var binding, rest := Car(args), Cdr(args);
    if Length(binding) != 2 {
      return Some(EArgs);
    }
    if !Car(binding).SSym? {
      return Some(Unmodelled);
    }
    ghost var s, c0 := local.View(), dst.code;
    assert Size(Car(Cdr(binding))) < Size(args) && Size(rest) < Size(args);
    err := CompileExpression(u, env, local, Car(Cdr(binding)), false, dst);
    ghost var v := Compile(u, env, s, Car(Cdr(binding)), false);
    if err.Some? {
      return;
    }
    err := EmitBound(u, env, local, Car(binding).name, rest, tail, dst, v.value, c0);
  }

  /** From the store of a let1's value to the end of its body. */
  method EmitBound(u: Unit, env: Env, local: Local, name: string, rest: Sexp, tail: bool, dst: Buffer, ghost v: Gen,
                   ghost c0: seq<Instr>)
    returns (err: Option<Error>)
    requires local.Valid() && Listp(rest) && v.scope == local.View() && dst.code == c0 + v.code
    modifies local.Repr, dst
    ensures Did(CompileBound(u, env, v, name, rest, tail), err, c0, dst.code, local.View())
    decreases Size(rest), 3
  {
    hide CompileBody, LocalAlloc, LocalFree;
    var i := local.Alloc();
    local.Add(Variable(name, Bound, i));
    dst.Emit([MovMemEax(-((i as int) + 1))]);
    ghost var s2 := local.View();
    err := EmitBody(u, env, local, rest, tail, dst);
    if err.Some? {
      return;
    }
    local.Free(i);
    ghost var g := CompileBody(u, env, s2, rest, tail).value;
    assert c0 + v.code + [MovMemEax(-((i as int) + 1))] + g.code ==
      c0 + (v.code + [MovMemEax(-((i as int) + 1))] + g.code);
  }

  /** Forms from number `skip` on, last one first, consed onto the top of the stack. */
  method EmitConses(u: Unit, env: Env, local: Local, args: Sexp, skip: nat, dst: Buffer) returns (err: Option<Error>)
    requires local.Valid() && Listp(args)
    modifies local.Repr, dst
    ensures Did(CompileConses(u, env, old(local.View()), args, skip), err, old(dst.code), dst.code, local.View())
    decreases Size(args), 2
  {
    hide Compile, CompileConses, Did, Listp, Length, Size;
    err := None;
    ghost var s0, c0 := local.View(), dst.code;
    ConsesSkip(u, env, s0, args, skip);
    DidNothing(s0, c0);
    var nargs: int := Length(args);
    if nargs <= skip {
      NoConses(u, env, s0, args, skip);
      return;
    }
    NoConses(u, env, s0, args, nargs);
    ConsesSkip(u, env, s0, args, nargs);
    var i: int := nargs - 1;
    while i >= skip
      invariant skip - 1 <= i < nargs && local.Valid() && err == None
      invariant Did(CompileConses(u, env, s0, Drop(args, i + 1), 0), None, c0, dst.code, local.View())
      decreases i
    {
      DropElt(args, i);
      DropList(args, i);
      ConsesStep(u, env, s0, Drop(args, i));
      DidFacts(CompileConses(u, env, s0, Drop(args, i + 1), 0), None, c0, dst.code, local.View());
      ghost var r, c := CompileConses(u, env, s0, Drop(args, i + 1), 0).value, dst.code;
      err := CompileExpression(u, env, local, Elt(args, i), false, dst);
      ghost var g := Compile(u, env, r.scope, Elt(args, i), false);
      DidFacts(g, err, c, dst.code, local.View());
      if err.Some? {
        ConsesErr(u, env, s0, args, i, skip);
        DidErr(err.value, c0, dst.code, local.View());
        return;
      }
      DidBehind(g, PUSH_CONS, c, dst.code, local.View());
      DidThen(r.code, Behind(g, PUSH_CONS), None, c0, c, dst.code + PUSH_CONS, local.View());
      dst.Emit(PUSH_CONS);
      i := i - 1;
    }
    assert i + 1 == skip;
  }

  lemma {:induction false} NoConses(u: Unit, env: Env, s: Scope, args: Sexp, skip: nat)
    requires Listp(args) && Length(args) <= skip
    ensures CompileConses(u, env, s, args, skip) == Ok(Gen([], s))
    decreases Size(args)
  {
    if args.SCons? { NoConses(u, env, s, args.cdr, skip - 1); }
  }

  method EmitList(u: Unit, env: Env, local: Local, args: Sexp, dst: Buffer) returns (err: Option<Error>)
    requires local.Valid() && Listp(args)
    modifies local.Repr, dst
    ensures Did(CompileList(u, env, old(local.View()), args), err, old(dst.code), dst.code, local.View())
    decreases Size(args), 3
  {
    hide CompileConses;
    dst.Emit([PushImm(Nil)]);
    err := EmitConses(u, env, local, args, 0, dst);
    if err.Some? {
      return;
    }
    dst.Emit([PopEax]);
  }

  /** The first `n` forms, last one first, pushed. */
  method EmitPushes(u: Unit, env: Env, local: Local, args: Sexp, n: nat, dst: Buffer) returns (err: Option<Error>)
    requires local.Valid() && Listp(args)
    modifies local.Repr, dst
    ensures Did(CompilePushes(u, env, old(local.View()), args, n), err, old(dst.code), dst.code, local.View())
    decreases Size(args), 2
  {
    hide Compile, CompilePushes, Did, Listp, Length, Size;
    err := None;
    ghost var s0, c0 := local.View(), dst.code;
    var min: int := if Length(args) > n then n else Length(args);
    var i: int := min - 1;
    DropList(args, min);
    NoPushes(u, env, s0, Drop(args, min), n - min);
    DidNothing(s0, c0);
    while i >= 0
      invariant -1 <= i < min && local.Valid() && err == None
      invariant Did(CompilePushes(u, env, s0, Drop(args, i + 1), n - (i + 1)), None, c0, dst.code, local.View())
      decreases i
    {
      DropElt(args, i);
      DropList(args, i);
      PushesStep(u, env, s0, Drop(args, i), n - i);
      DidFacts(CompilePushes(u, env, s0, Drop(args, i + 1), n - (i + 1)), None, c0, dst.code, local.View());
      ghost var r, c := CompilePushes(u, env, s0, Drop(args, i + 1), n - (i + 1)).value, dst.code;
      err := CompileExpression(u, env, local, Elt(args, i), false, dst);
      ghost var g := Compile(u, env, r.scope, Elt(args, i), false);
      DidFacts(g, err, c, dst.code, local.View());
      if err.Some? {
        PushesErr(u, env, s0, args, i, n);
        DidErr(err.value, c0, dst.code, local.View());
        return;
      }
      DidBehind(g, [PushEax], c, dst.code, local.View());
      DidThen(r.code, Behind(g, [PushEax]), None, c0, c, dst.code + [PushEax], local.View());
      dst.Emit([PushEax]);
      i := i - 1;
    }
    assert i + 1 == 0 && n - (i + 1) == n && Drop(args, 0) == args;
  }

  lemma NoPushes(u: Unit, env: Env, s: Scope, args: Sexp, n: nat)
    requires Listp(args) && (n == 0 || Length(args) == 0)
    ensures CompilePushes(u, env, s, args, n) == Ok(Gen([], s))
  {
  }

  /** The default values of the missing optional parameters, last one first. */
  method EmitDefaults(optional: seq<Word>, from: nat, dst: Buffer)
    modifies dst
    ensures dst.code == old(dst.code) + PushDefaults(optional, from)
  {
    ghost var c0 := dst.code;
    var i: int := |optional| - 1;
    while i >= from
      invariant i < |optional| && (from < |optional| ==> from - 1 <= i)
      invariant dst.code == c0 + if i + 1 <= |optional| && from <= i + 1 then PushDefaults(optional, i + 1) else []
      decreases i
    {
      dst.Emit([PushImm(optional[i])]);
      i := i - 1;
    }
  }

  /** The words of a direct call. */
  method EmitArgs(u: Unit, env: Env, local: Local, a: Args, args: Sexp, dst: Buffer) returns (err: Option<Error>)
    requires local.Valid() && Listp(args)
    modifies local.Repr, dst
    ensures Did(CompileArgs(u, env, old(local.View()), a, args), err, old(dst.code), dst.code, local.View())
    decreases Size(args), 3
  {
    hide *;
    var nargs := Length(args);
    ghost var s, c0 := local.View(), dst.code;
    ArgsAre(u, env, s, a, args);
    if !AreArgsAcceptable(a, nargs) {
      err := Some(EArgs);
      DidErr(EArgs, c0, dst.code, s);
      return;
    }
    var totalTaken := a.Total();
    err := EmitRest(u, env, local, a, args, dst);
    ghost var r := RestOf(u, env, s, a, args);
    DidFacts(r, err, c0, dst.code, local.View());
    if err.Some? {
      DidErr(err.value, c0, dst.code, local.View());
      return;
    }
    EmitDefaults(a.optional, nargs - a.required, dst);
    ghost var c1 := dst.code;
    err := EmitPushes(u, env, local, args, totalTaken, dst);
    ghost var g := CompilePushes(u, env, r.value.scope, args, totalTaken);
    DidFacts(g, err, c1, dst.code, local.View());
    if err.Some? {
      DidErr(err.value, c0, dst.code, local.View());
      return;
    }
    var defaults := PushDefaults(a.optional, nargs - a.required);
    assert c0 + r.value.code + defaults + g.value.code == c0 + (r.value.code + defaults + g.value.code);
    DidOk(Gen(r.value.code + defaults + g.value.code, g.value.scope), c0);
  }

  /** The rest list of a variadic call. */
  ghost function RestOf(u: Unit, env: Env, s: Scope, a: Args, args: Sexp): Result<Gen> {
    if a.variadic then Then([PushImm(Nil)], CompileConses(u, env, s, args, a.Total())) else Ok(Gen([], s))
  }

  lemma ArgsAre(u: Unit, env: Env, s: Scope, a: Args, args: Sexp)
    ensures AreArgsAcceptable(a, Length(args)) ==> Length(args) >= a.required
    ensures !AreArgsAcceptable(a, Length(args)) ==> CompileArgs(u, env, s, a, args) == Err(EArgs)
    ensures AreArgsAcceptable(a, Length(args)) ==>
      var r := RestOf(u, env, s, a, args);
      && (r.Err? ==> CompileArgs(u, env, s, a, args) == Err(r.error))
      && (r.Ok? ==>
            var g := CompilePushes(u, env, r.value.scope, args, a.Total());
            && (g.Err? ==> CompileArgs(u, env, s, a, args) == Err(g.error))
            && (g.Ok? ==>
                  var code := r.value.code + PushDefaults(a.optional, Length(args) - a.required) + g.value.code;
                  CompileArgs(u, env, s, a, args) == Ok(Gen(code, g.value.scope))))
  {
    hide CompileConses, CompilePushes, PushDefaults, Length;
    var r := RestOf(u, env, s, a, args);
    if r.Ok? && !a.variadic { assert [] + r.value.code == r.value.code; }
  }

  method EmitRest(u: Unit, env: Env, local: Local, a: Args, args: Sexp, dst: Buffer) returns (err: Option<Error>)
    requires local.Valid() && Listp(args)
    modifies local.Repr, dst
    ensures Did(RestOf(u, env, old(local.View()), a, args), err, old(dst.code), dst.code, local.View())
    decreases Size(args), 3, 0
  {
    hide CompileConses, Listp, Local.View, Local.Valid;
    err := None;
    if a.variadic {
      ghost var s, c0 := local.View(), dst.code;
      dst.Emit([PushImm(Nil)]);
      ghost var c1 := dst.code;
      err := EmitConses(u, env, local, args, a.Total(), dst);
      DidThen([PushImm(Nil)], CompileConses(u, env, s, args, a.Total()), err, c0, c1, dst.code, local.View());
    }
  }

  method EmitMoves(n: nat, dst: Buffer)
    modifies dst
    ensures dst.code == old(dst.code) + MoveArgs(0, n)
  {
    ghost var c0 := dst.code;
    assert c0 + [] == c0;
    for i := 0 to n
      invariant dst.code + MoveArgs(i, n - i) == c0 + MoveArgs(0, n)
    {
      dst.Emit([PopEax]);
      dst.Emit([MovMemEax(i + 2)]);
      assert MoveArgs(i, n - i) == [PopEax, MovMemEax(i + 2)] + MoveArgs(i + 1, n - i - 1);
    }
  }

  method EmitCall(u: Unit, env: Env, local: Local, name: string, args: Sexp, tail: bool, dst: Buffer)
    returns (err: Option<Error>)
    requires local.Valid() && Listp(args)
    modifies local.Repr, dst
    ensures Did(CompileCall(u, env, old(local.View()), name, args, tail), err, old(dst.code), dst.code, local.View())
    decreases Size(args), 4
  {
    hide CompileArgs, MoveArgs, CompileCall, Did, FindFunction;
    ghost var s, c0 := local.View(), dst.code;
    var func := FindFunction(env, name);
    var isRecursive := local.fname == name;
    if !isRecursive && func.NoFunctions? {
      NoCall(u, env, s, name, args, tail, EInvalid, c0, dst.code, local.View());
      return Some(EInvalid);
    }
    var needed := if isRecursive then local.args else func.args;
    err := EmitArgs(u, env, local, needed, args, dst);
    ghost var r := CompileArgs(u, env, s, needed, args);
    DidFacts(r, err, c0, dst.code, local.View());
    if err.Some? {
      NoCall(u, env, s, name, args, tail, err.value, c0, dst.code, local.View());
      return;
    }
    ghost var c1 := dst.code;
    if isRecursive {
      if tail {
        EmitMoves(needed.Real(), dst);
        dst.Emit(BACK_TO_ENTRY);
      } else {
        dst.Emit([CallEntry]);
      }
    } else {
      dst.Emit([CallTo(func)]);
    }
    ghost var c := if !isRecursive then [CallTo(func)] else if tail then MoveArgs(0,
        needed.Real()) + BACK_TO_ENTRY else [CallEntry];
    assert dst.code == c1 + c;
    dst.Emit([AddEsp(needed.Real())]);
    CallIs(u, env, s, name, args, tail, r.value, c, c0, dst.code);
  }

  lemma NoCall(u: Unit, env: Env, s: Scope, name: string, args: Sexp, tail: bool, err: Error, was: seq<Instr>,
               now: seq<Instr>, view: Scope)
    requires var f := FindFunction(env, name);
      if s.fname != name && f.NoFunctions? then err == EInvalid
      else CompileArgs(u, env, s, if s.fname == name then s.args else f.args, args) == Err(err)
    ensures Did(CompileCall(u, env, s, name, args, tail), Some(err), was, now, view)
  {
    hide CompileArgs, FindFunction;
  }

  lemma CallIs(u: Unit, env: Env, s: Scope, name: string, args: Sexp, tail: bool, r: Gen, c: seq<Instr>,
               was: seq<Instr>, now: seq<Instr>)
    requires s.fname == name || FindFunction(env, name).Function?
    requires var (self, f) := (s.fname == name, FindFunction(env, name)); var a := if self then s.args else f.args;
      && CompileArgs(u, env, s, a, args) == Ok(r)
      && c == (if !self then [CallTo(f)] else if tail then MoveArgs(0, a.Real()) + BACK_TO_ENTRY else [CallEntry])
      && now == was + r.code + c + [AddEsp(a.Real())]
    ensures Did(CompileCall(u, env, s, name, args, tail), None, was, now, r.scope)
  {
    hide CompileArgs, FindFunction, MoveArgs;
    var f := FindFunction(env, name);
    if s.fname != name {
      assert r.code + [CallTo(f), AddEsp(f.args.Real())] == r.code + c + [AddEsp(f.args.Real())];
    }
  }

  /** The loop over the variables of a new closure. */
  method EmitCaptures(local: Local, list: seq<Variable>, dst: Buffer) returns (err: Option<Error>)
    requires local.Valid()
    modifies local.Repr, dst
    ensures Did(Captures(list, old(local.View())), err, old(dst.code), dst.code, local.View())
  {
    hide FindVariable, CompileVariable;
    err := None;
    ghost var s0, c0 := local.View(), dst.code;
    var vars := list;
    AfterNothing(Captures(list, s0));
    assert dst.code[|c0|..] == [];
    while vars != []
      invariant local.Valid() && c0 <= dst.code && err == None
      invariant Captures(list, s0) == Then(dst.code[|c0|..], Captures(vars, local.View()))
      decreases |vars|
    {
      if vars[0].kind == VarKind.Free {
        ghost var c := dst.code;
        dst.Emit([PushEax]);
        var v := local.FindVar(vars[0].name);
        if v.None? {
          return Some(Unmodelled);
        }
        dst.Emit([CompileVariable(v.value), PushEax, PushImm(Num(vars[0].number)), CallSetCapture, AddEsp(2), PopEax]);
        ghost var piece := [PushEax, CompileVariable(v.value), PushEax, PushImm(Num(vars[0].number)), CallSetCapture,
                            AddEsp(2), PopEax];
        AfterMore(c0, c, piece, dst.code, Captures(vars[1..], local.View()));
      }
      vars := vars[1..];
    }
  }

  method EmitLambda(u: Unit, env: Env, local: Local, args: Sexp, dst: Buffer) returns (err: Option<Error>)
    requires local.Valid() && Listp(args)
    modifies local.Repr, dst
    ensures Did(CompileLambda(u, env, old(local.View()), args), err, old(dst.code), dst.code, local.View())
    decreases Size(args), 4
  {
    hide CompileFunction, Captures;
    ghost var s := local.View();
    var code, inner;
    err, code, inner := EmitFunction(u, env, Car(args), Cdr(args), "recurse", local);
    if err.Some? {
      return;
    }
    ghost var f := CompileFunction(u, env, Car(args), Cdr(args), "recurse", Some(s)).value;
    assert [] + f.code == f.code;
    assert inner.View().parent == Some(local.View());
    dst.Emit([PushImm(Num(inner.closureSlots)), PushImm(ArgsPtr(inner.args)), PushImm(CodePtr(code)),
              CallCreateClosure]);
    dst.Emit([AddEsp(3)]);
    err := EmitCaptures(local, inner.vars, dst);
  }

  /** The first pass: the frame is sized and the slots are cleared again. */
  method SizeFrame(local: Local, body: Sexp) returns (nvars: nat)
    requires local.Valid() && Listp(body)
    modifies local
    ensures (local.View(), nvars) == Prepare(old(local.View()), body)
  {
    local.WalkList(body, false);
    nvars := local.entries;
    local.slots := seq(|local.slots|, _ => false);
    local.entries := 0;
  }

  /** `compile_function`: a record for the new function, the first pass over its body, and
      its code. */
  method EmitFunction(u: Unit, env: Env, arglist: Sexp, body: Sexp, name: string, parent: Local?)
    returns (err: Option<Error>, code: seq<Instr>, local: Local)
    requires (parent != null ==> parent.Valid()) && Listp(body)
    modifies if parent == null then {} else parent.Repr
    ensures local.Valid() && local.parent == parent && fresh(local)
    ensures Did(CompileFunction(u, env, arglist, body, name, if parent == null then None
      else Some(old(parent.View()))), err, [], code, local.View())
    decreases Size(body), 3
  {
    hide CompileBody, CompileFunction, ListToArgs, Prepare, Setup, Listp, Local.View, Local.Valid, Did, BodyResult,
         Size;
    ghost var p := if parent == null then None else Some(parent.View());
    local := new Local(name, parent);
    InRepr(local);
    code := [];
    err := local.DeclareArgs(u.defaults, arglist);
    FunctionIs(u, env, arglist, body, name, p);
    if err.Some? {
      DidErr(err.value, [], code, local.View());
      return;
    }
    err, code := EmitFunctionBody(u, env, local, body);
  }

  /** What compiling a function does once its parameters are declared. */
  ghost function BodyResult(u: Unit, env: Env, s: Scope, body: Sexp): Result<Gen> {
    match CompileBody(u, env, Prepare(s, body).0, body, true)
    case Err(x) => Err(x)
    case Ok(g) => Ok(Gen(Setup(Prepare(s, body).1) + g.code + CLEANUP, g.scope))
  }

  lemma FunctionIs(u: Unit, env: Env, arglist: Sexp, body: Sexp, name: string, parent: Option<Scope>)
    ensures FreshScope(name, parent) == Scope([], [false, false, false, false], 0, 0, 0, name, Args(0, [], false),
                                              parent)
    ensures var l := ListToArgs(u.defaults, arglist, FreshScope(name, parent), Args(0, [], false), false);
      CompileFunction(u, env, arglist, body, name, parent) == if l.Err? then Err(l.error)
        else BodyResult(u, env, l.value, body)
  {
    hide CompileBody, ListToArgs, Prepare;
  }

  method EmitFunctionBody(u: Unit, env: Env, local: Local, body: Sexp) returns (err: Option<Error>, code: seq<Instr>)
    requires local.Valid() && Listp(body)
    modifies local.Repr
    ensures Did(BodyResult(u, env, old(local.View()), body), err, [], code, local.View())
    decreases Size(body), 3, 0
  {
    hide CompileBody, Prepare, Setup, Listp, Local.View, Local.Valid, Did, Size;
    InRepr(local);
    code := [];
    var nvars := SizeFrame(local, body);
    var dst := new Buffer();
    dst.Emit(Setup(nvars));
    ghost var s1, c1 := local.View(), dst.code;
    err := EmitBody(u, env, local, body, true, dst);
    ghost var r := CompileBody(u, env, s1, body, true);
    DidFacts(r, err, c1, dst.code, local.View());
    if err.Some? {
      DidErr(err.value, [], code, local.View());
      return;
    }
    dst.Emit(CLEANUP);
    code := dst.code;
    FunctionDone(Setup(nvars), r.value, code);
  }

  lemma FunctionDone(setup: seq<Instr>, g: Gen, code: seq<Instr>)
    requires code == [] + setup + g.code + CLEANUP
    ensures Did(Ok(Gen(setup + g.code + CLEANUP, g.scope)), None, [], code, g.scope)
  {
    assert [] + setup == setup;
  }

  // ----- templates -----

  method EmitBackquote(u: Unit, env: Env, local: Local, val: Sexp, dst: Buffer) returns (err: Option<Error>)
    requires local.Valid()
    modifies local.Repr, dst
    ensures Did(CompileBackquote(u, env, old(local.View()), val), err, old(dst.code), dst.code, local.View())
    decreases Size(val), 3
  {
    hide Compile, CompileTemplate;
    err := None;
    if !Listp(val) {
      dst.Emit([MovEaxImm(WordOf(val))]);
    } else if SymStrEq(Car(val), "unquote") {
      if Length(Cdr(val)) != 1 {
        return Some(EArgs);
      }
      err := CompileExpression(u, env, local, Car(Cdr(val)), false, dst);
    } else {
      dst.Emit([PushImm(Nil)]);
      err := EmitTemplate(u, env, local, val, dst);
      if err.Some? {
        return;
      }
      dst.Emit([PopEax]);
    }
  }

  method EmitTemplate(u: Unit, env: Env, local: Local, val: Sexp, dst: Buffer) returns (err: Option<Error>)
    requires local.Valid() && Listp(val)
    modifies local.Repr, dst
    ensures Did(CompileTemplate(u, env, old(local.View()), val), err, old(dst.code), dst.code, local.View())
    decreases Size(val), 2
  {
    hide Compile, CompileTemplate, ItemResult, Did, Listp, Length, Size;
    err := None;
    ghost var s0, c0 := local.View(), dst.code;
    var n: int := Length(val);
    var i: int := n - 1;
    DropList(val, n);
    NoTemplate(u, env, s0, Drop(val, n));
    DidNothing(s0, c0);
    while i >= 0
      invariant -1 <= i < n && local.Valid() && err == None
      invariant Did(CompileTemplate(u, env, s0, Drop(val, i + 1)), None, c0, dst.code, local.View())
      decreases i
    {
      DropElt(val, i);
      DropList(val, i);
      TemplateStep(u, env, s0, Drop(val, i));
      DidFacts(CompileTemplate(u, env, s0, Drop(val, i + 1)), None, c0, dst.code, local.View());
      ghost var r, c := CompileTemplate(u, env, s0, Drop(val, i + 1)).value, dst.code;
      var v := Elt(val, i);
      err := EmitItem(u, env, local, v, dst);
      ghost var g := ItemResult(u, env, r.scope, v);
      DidFacts(g, err, c, dst.code, local.View());
      DidThen(r.code, g, err, c0, c, dst.code, local.View());
      if err.Some? {
        TemplateErr(u, env, s0, val, i);
        return;
      }
      i := i - 1;
    }
    assert i + 1 == 0 && Drop(val, 0) == val;
  }

  lemma NoTemplate(u: Unit, env: Env, s: Scope, items: Sexp)
    requires Listp(items) && Length(items) == 0
    ensures CompileTemplate(u, env, s, items) == Ok(Gen([], s))
  {
  }

  /** One element of a template, added to the list under way. */
  method EmitItem(u: Unit, env: Env, local: Local, v: Sexp, dst: Buffer) returns (err: Option<Error>)
    requires local.Valid()
    modifies local.Repr, dst
    ensures Did(ItemResult(u, env, old(local.View()), v), err, old(dst.code), dst.code, local.View())
    decreases Size(v), 4
  {
    hide Compile, CompileBackquote;
    if IsSplice(v) {
      if Length(v) != 2 {
        return Some(EArgs);
      }
      err := CompileExpression(u, env, local, Car(Cdr(v)), false, dst);
      if err.Some? {
        return;
      }
      dst.Emit([PushEax, CallMerge2, AddEsp(2), PushEax]);
    } else {
      err := EmitBackquote(u, env, local, v, dst);
      if err.Some? {
        return;
      }
      dst.Emit([PushEax, CallCons, AddEsp(2), PushEax]);
    }
  }

  ghost function ItemResult(u: Unit, env: Env, s: Scope, v: Sexp): Result<Gen> {
    if IsSplice(v) then
      if Length(v) != 2 then Err(EArgs) else
      match Compile(u, env, s, Car(Cdr(v)), false)
      case Err(x) => Err(x)
      case Ok(g) => Ok(Gen(g.code + PUSH_MERGE, g.scope))
    else
      match CompileBackquote(u, env, s, v)
      case Err(x) => Err(x)
      case Ok(g) => Ok(Gen(g.code + PUSH_CONS, g.scope))
  }
}
