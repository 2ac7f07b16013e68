/** The target machine: registers, a stack of words, cons cells and closures. */
module Machine {
  import opened Wrappers
  import opened Words
  import opened Cells
  import opened CallList
  import opened Runs

  /** A closure object: `data` is what edi points to while its code runs. */
  datatype Closure = Closure(code: seq<Instr>, args: Args, data: seq<Word>)

  /** `code` and `pc` are eip.  The stack grows to the right, so esp is |stack| and ebp
      a position in it; words below esp do not exist. */
  datatype State = State(code: seq<Instr>, pc: nat, eax: Word, zf: bool, stack: seq<Word>,
                         ebp: nat, edi: Word, cells: seq<Cell>, clos: seq<Closure>)

  /** The C builtins: pure functions of their arguments and of the cons cells. */
  type Builtins = (string, seq<Word>, seq<Cell>) -> Option<(Word, seq<Cell>)>

  /** The end of _call_list, where the applied code returns to. */
  const CALL_LIST_EXIT: seq<Instr> := [MovEspEbp, PopEbp, PopEdi, PopEsi, Ret]

  function FindLabel(code: seq<Instr>, l: nat, from: nat): Option<nat>
    requires from <= |code|
    decreases |code| - from
  {
    if from == |code| then None
    else if code[from] == Label(l) then Some(from)
    else FindLabel(code, l, from + 1)
  }

  function Reversed(ws: seq<Word>): seq<Word> {
    seq(|ws|, i requires 0 <= i < |ws| => ws[|ws| - 1 - i])
  }

  function Jumped(s: State, l: nat): Option<State> {
    match FindLabel(s.code, l, 0)
    case None => None
    case Some(i) => Some(s.(pc := i))
  }

  /** `[ebp + 4k]` as a position in the stack. */
  function Mem(s: State, k: int): int { s.ebp - 1 - k }

  /** The memory that deep_copy works on. */
  function Memory(s: State): Store {
    Store(s.cells, seq(|s.clos|, k requires 0 <= k < |s.clos| => Kid(k, Some(s.clos[k].data))))
  }

  /** The closures after deep_copy made more of them: a copy has the code and the
      argument record of the original. */
  function WithCopies(clos: seq<Closure>, kids: seq<Kid>): seq<Closure> {
    clos + seq(if |clos| <= |kids| then |kids| - |clos| else 0,
               i requires 0 <= i < |kids| - |clos| => CopiedClosure(clos, kids[|clos| + i]))
  }

  function CopiedClosure(clos: seq<Closure>, kid: Kid): Closure {
    if kid.origin < |clos| && kid.data.Some? then clos[kid.origin].(data := kid.data.value)
    else Closure([], Args(0, [], false), [])
  }

  /** `call_extern l_apply`: func is on top, the argument list under it. */
  function StepApply(s: State): Option<State>
    requires |s.stack| >= 2
  {
    var func, list := s.stack[|s.stack| - 1], s.stack[|s.stack| - 2];
    var next := s.(pc := s.pc + 1, eax := Nil);
    if !func.Clo? then Some(next)
    else if Walk(s.cells, list, |s.cells|).None? || func.k >= |s.clos| then None
    else if !ProperList(s.cells, list) then Some(next)
    else match CallListArgs(Memory(s), s.clos[func.k].args, list)
      case None => None
      case Some((list', m)) =>
        var ws := ElementsOf(m.cells, list');
        var frame := s.stack + [RetAddr(s.code, s.pc + 1), Junk, s.edi, Frame(s.ebp)];
        var area := LaidOut(ws, seq(|ws|, _ => Junk));
        Some(s.(code := s.clos[func.k].code, pc := 0, edi := func, cells := m.cells, clos := WithCopies(s.clos, m.kids),
                ebp := |frame|, stack := frame + Reversed(area) + [RetAddr(CALL_LIST_EXIT, 0)]))
  }

  function Step(b: Builtins, s: State): Option<State> {
    if s.pc >= |s.code| then None else
    var n := |s.stack|;
    var next := s.(pc := s.pc + 1);
    match s.code[s.pc]
    case MovEaxImm(w) => Some(next.(eax := w))
    case MovEaxMem(k) => if 0 <= Mem(s, k) < n then Some(next.(eax := s.stack[Mem(s, k)])) else None
    case MovMemEax(k) => if 0 <= Mem(s, k) < n then Some(next.(stack := s.stack[Mem(s, k) := s.eax])) else None
    case MovEaxEdi(i) =>
      if s.edi.Clo? && s.edi.k < |s.clos| && i < |s.clos[s.edi.k].data|
      then Some(next.(eax := s.clos[s.edi.k].data[i])) else None
    case PushEax => Some(next.(stack := s.stack + [s.eax]))
    case PushImm(w) => Some(next.(stack := s.stack + [w]))
    case PopEax => if n >= 1 then Some(next.(eax := s.stack[n - 1], stack := s.stack[..n - 1])) else None
    case AddEsp(k) => if k <= n then Some(next.(stack := s.stack[..n - k])) else None
    case SubEsp(k) => Some(next.(stack := s.stack + seq(k, _ => Junk)))
    case PushEbp => Some(next.(stack := s.stack + [Frame(s.ebp)]))
    case PopEbp => if n >= 1 && s.stack[n - 1].Frame? then Some(next.(ebp := s.stack[n - 1].ebp,
        stack := s.stack[..n - 1])) else None
    case PopEdi => if n >= 1 then Some(next.(edi := s.stack[n - 1], stack := s.stack[..n - 1])) else None
    case PopEsi => if n >= 1 then Some(next.(stack := s.stack[..n - 1])) else None
    case MovEbpEsp => Some(next.(ebp := n))
    case MovEspEbp => if s.ebp <= n then Some(next.(stack := s.stack[..s.ebp])) else None
    case CmpEax(w) => Some(next.(zf := s.eax == w))
    case Je(l) => if s.zf then Jumped(s, l) else Some(next)
    case Jne(l) => if s.zf then Some(next) else Jumped(s, l)
    case Jmp(l) => Jumped(s, l)
    case Label(_) => Some(next)
    case JmpEntry => Some(s.(pc := 0))
    case CallEntry => Some(s.(pc := 0, stack := s.stack + [RetAddr(s.code, s.pc + 1)]))
    case CallCode(code) => Some(s.(code := code, pc := 0, stack := s.stack + [RetAddr(s.code, s.pc + 1)]))
    case CallBuiltin(name, k) =>
      if k > n then None
      else (match b(name, Reversed(s.stack[n - k..]), s.cells)
            case None => None
            case Some((w, cells')) => Some(next.(eax := w, cells := cells')))
    case CallApply => if n >= 2 then StepApply(s) else None
    case CallCons =>
      if n >= 2 then Some(next.(eax := Cons(|s.cells|), cells := s.cells + [Cell(s.stack[n - 1], s.stack[n - 2])]))
        else None
    case CallMerge2 =>
      if n < 2 then None
      else (match Merge2(s.cells, s.stack[n - 1], s.stack[n - 2])
            case None => None
            case Some((w, cells')) => Some(next.(eax := w, cells := cells')))
    case CallCreateClosure =>
      if n >= 3 && s.stack[n - 1].CodePtr? && s.stack[n - 2].ArgsPtr? && s.stack[n - 3].Num?
      then Some(next.(eax := Clo(|s.clos|),
                      clos := s.clos + [Closure(s.stack[n - 1].code, s.stack[n - 2].args,
                                                seq(s.stack[n - 3].n, _ => Junk))]))
      else None
    case CallSetCapture =>
      if n < 3 || !s.stack[n - 1].Num? then None
      else if !s.stack[n - 3].Clo? then Some(next.(eax := Junk))
      else
        var i, w, k := s.stack[n - 1].n, s.stack[n - 2], s.stack[n - 3].k;
        if k < |s.clos| && i < |s.clos[k].data|
        then Some(next.(eax := Junk, clos := s.clos[k := s.clos[k].(data := s.clos[k].data[i := w])]))
        else None
    case Ret =>
      if n >= 1 && s.stack[n - 1].RetAddr?
      then Some(s.(code := s.stack[n - 1].code, pc := s.stack[n - 1].pc, stack := s.stack[..n - 1])) else None
  }

  function Stepper(b: Builtins): State -> Option<State> {
    s => Step(b, s)
  }

  /** `s` runs to `s'`.  The machine is deterministic, so this is "every run". */
  ghost predicate Reaches(b: Builtins, s: State, s': State) {
    forall x: State {:trigger Opened(x)} :: x == s' ==> Leads(Stepper(b), s, x)
  }

  lemma ReachesTrans(b: Builtins, s: State, s1: State, s2: State)
    requires Reaches(b, s, s1) && Reaches(b, s1, s2)
    ensures Reaches(b, s, s2)
  {
    assert Opened(s1) && Opened(s2);
    LeadsTrans(Stepper(b), s, s1, s2);
  }

  lemma ReachesSelf(b: Builtins, s: State)
    ensures Reaches(b, s, s)
  {
    LeadsSelf(Stepper(b), s);
  }

  lemma ReachesStep(b: Builtins, s: State, s1: State)
    requires Step(b, s) == Some(s1)
    ensures Reaches(b, s, s1)
  {
    assert Stepper(b)(s) == Some(s1);
    LeadsStep(Stepper(b), s, s1);
  }

  lemma ReachesThenStep(b: Builtins, s: State, s1: State, s2: State)
    requires Reaches(b, s, s1) && Step(b, s1) == Some(s2)
    ensures Reaches(b, s, s2)
  {
    ReachesStep(b, s1, s2);
    ReachesTrans(b, s, s1, s2);
  }
}

/** Runs of a deterministic, possibly stuck transition function. */
module Runs {
  import opened Wrappers

  function Run<S>(step: S -> Option<S>, s: S, n: nat): Option<S>
    decreases n
  {
    if n == 0 then Some(s)
    else match step(s)
      case None => None
      case Some(s') => Run(step, s', n - 1)
  }

  ghost predicate Leads<S>(step: S -> Option<S>, s: S, s': S) {
    exists n: nat :: Run(step, s, n) == Some(s')
  }

  lemma {:induction false} RunAdd<S>(step: S -> Option<S>, s: S, n: nat, m: nat)
    requires Run(step, s, n).Some?
    ensures Run(step, s, n + m) == Run(step, Run(step, s, n).value, m)
    decreases n
  {
    if n > 0 {
      RunAdd(step, step(s).value, n - 1, m);
    }
  }

  lemma LeadsTrans<S>(step: S -> Option<S>, s: S, s1: S, s2: S)
    requires Leads(step, s, s1) && Leads(step, s1, s2)
    ensures Leads(step, s, s2)
  {
    var n: nat :| Run(step, s, n) == Some(s1);
    var m: nat :| Run(step, s1, m) == Some(s2);
    RunAdd(step, s, n, m);
  }

  lemma LeadsSelf<S>(step: S -> Option<S>, s: S)
    ensures Leads(step, s, s)
  {
    assert Run(step, s, 0) == Some(s);
  }

  lemma LeadsStep<S>(step: S -> Option<S>, s: S, s1: S)
    requires step(s) == Some(s1)
    ensures Leads(step, s, s1)
  {
    assert Run(step, s1, 0) == Some(s1);
    assert Run(step, s, 1) == Some(s1);
  }
}
