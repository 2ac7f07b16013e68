/** One lemma per instruction: from a state reached from `s0`, the next one. */
module Steps {
  import opened Wrappers
  import opened Words
  import opened Cells
  import opened CallList
  import opened Machine

  predicate At(s: State, i: Instr) {
    s.pc < |s.code| && s.code[s.pc] == i
  }

  lemma DoImm(b: Builtins, s0: State, s: State, w: Word) returns (s': State)
    requires Reaches(b, s0, s) && At(s, MovEaxImm(w))
    ensures s' == s.(pc := s.pc + 1, eax := w)
    ensures Reaches(b, s0, s')
  {
    s' := s.(pc := s.pc + 1, eax := w);
    ReachesThenStep(b, s0, s, s');
  }

  lemma DoLoad(b: Builtins, s0: State, s: State, k: int) returns (s': State)
    requires Reaches(b, s0, s) && At(s, MovEaxMem(k))
    requires 0 <= Mem(s, k) < |s.stack|
    ensures s' == s.(pc := s.pc + 1, eax := s.stack[Mem(s, k)])
    ensures Reaches(b, s0, s')
  {
    s' := s.(pc := s.pc + 1, eax := s.stack[Mem(s, k)]);
    ReachesThenStep(b, s0, s, s');
  }

  lemma DoStore(b: Builtins, s0: State, s: State, k: int) returns (s': State)
    requires Reaches(b, s0, s) && At(s, MovMemEax(k))
    requires 0 <= Mem(s, k) < |s.stack|
    ensures s' == s.(pc := s.pc + 1, stack := s.stack[Mem(s, k) := s.eax])
    ensures Reaches(b, s0, s')
  {
    s' := s.(pc := s.pc + 1, stack := s.stack[Mem(s, k) := s.eax]);
    ReachesThenStep(b, s0, s, s');
  }

  lemma DoLoadEdi(b: Builtins, s0: State, s: State, i: nat) returns (s': State)
    requires Reaches(b, s0, s) && At(s, MovEaxEdi(i))
    requires s.edi.Clo? && s.edi.k < |s.clos| && i < |s.clos[s.edi.k].data|
    ensures s' == s.(pc := s.pc + 1, eax := s.clos[s.edi.k].data[i])
    ensures Reaches(b, s0, s')
  {
    s' := s.(pc := s.pc + 1, eax := s.clos[s.edi.k].data[i]);
    ReachesThenStep(b, s0, s, s');
  }

  lemma DoPush(b: Builtins, s0: State, s: State) returns (s': State)
    requires Reaches(b, s0, s) && At(s, PushEax)
    ensures s' == s.(pc := s.pc + 1, stack := s.stack + [s.eax])
    ensures Reaches(b, s0, s')
  {
    s' := s.(pc := s.pc + 1, stack := s.stack + [s.eax]);
    ReachesThenStep(b, s0, s, s');
  }

  lemma DoPushImm(b: Builtins, s0: State, s: State, w: Word) returns (s': State)
    requires Reaches(b, s0, s) && At(s, PushImm(w))
    ensures s' == s.(pc := s.pc + 1, stack := s.stack + [w])
    ensures Reaches(b, s0, s')
  {
    s' := s.(pc := s.pc + 1, stack := s.stack + [w]);
    ReachesThenStep(b, s0, s, s');
  }

  lemma DoPop(b: Builtins, s0: State, s: State) returns (s': State)
    requires Reaches(b, s0, s) && At(s, PopEax)
    requires |s.stack| >= 1
    ensures s' == s.(pc := s.pc + 1, eax := s.stack[|s.stack| - 1], stack := s.stack[..|s.stack| - 1])
    ensures Reaches(b, s0, s')
  {
    s' := s.(pc := s.pc + 1, eax := s.stack[|s.stack| - 1], stack := s.stack[..|s.stack| - 1]);
    ReachesThenStep(b, s0, s, s');
  }

  lemma DoAddEsp(b: Builtins, s0: State, s: State, k: nat) returns (s': State)
    requires Reaches(b, s0, s) && At(s, AddEsp(k))
    requires k <= |s.stack|
    ensures s' == s.(pc := s.pc + 1, stack := s.stack[..|s.stack| - k])
    ensures Reaches(b, s0, s')
  {
    s' := s.(pc := s.pc + 1, stack := s.stack[..|s.stack| - k]);
    ReachesThenStep(b, s0, s, s');
  }

  lemma DoPushEbp(b: Builtins, s0: State, s: State) returns (s': State)
    requires Reaches(b, s0, s) && At(s, PushEbp)
    ensures s' == s.(pc := s.pc + 1, stack := s.stack + [Frame(s.ebp)])
    ensures Reaches(b, s0, s')
  {
    s' := s.(pc := s.pc + 1, stack := s.stack + [Frame(s.ebp)]);
    ReachesThenStep(b, s0, s, s');
  }

  lemma DoMovEbpEsp(b: Builtins, s0: State, s: State) returns (s': State)
    requires Reaches(b, s0, s) && At(s, MovEbpEsp)
    ensures s' == s.(pc := s.pc + 1, ebp := |s.stack|)
    ensures Reaches(b, s0, s')
  {
    s' := s.(pc := s.pc + 1, ebp := |s.stack|);
    ReachesThenStep(b, s0, s, s');
  }

  lemma DoSubEsp(b: Builtins, s0: State, s: State, k: nat) returns (s': State)
    requires Reaches(b, s0, s) && At(s, SubEsp(k))
    ensures s' == s.(pc := s.pc + 1, stack := s.stack + seq(k, _ => Junk))
    ensures Reaches(b, s0, s')
  {
    s' := s.(pc := s.pc + 1, stack := s.stack + seq(k, _ => Junk));
    ReachesThenStep(b, s0, s, s');
  }

  lemma DoMovEspEbp(b: Builtins, s0: State, s: State) returns (s': State)
    requires Reaches(b, s0, s) && At(s, MovEspEbp)
    requires s.ebp <= |s.stack|
    ensures s' == s.(pc := s.pc + 1, stack := s.stack[..s.ebp])
    ensures Reaches(b, s0, s')
  {
    s' := s.(pc := s.pc + 1, stack := s.stack[..s.ebp]);
    ReachesThenStep(b, s0, s, s');
  }

  lemma DoPopEbp(b: Builtins, s0: State, s: State) returns (s': State)
    requires Reaches(b, s0, s) && At(s, PopEbp)
    requires |s.stack| >= 1 && s.stack[|s.stack| - 1].Frame?
    ensures s' == s.(pc := s.pc + 1, ebp := s.stack[|s.stack| - 1].ebp, stack := s.stack[..|s.stack| - 1])
    ensures Reaches(b, s0, s')
  {
    s' := s.(pc := s.pc + 1, ebp := s.stack[|s.stack| - 1].ebp, stack := s.stack[..|s.stack| - 1]);
    ReachesThenStep(b, s0, s, s');
  }

  lemma DoPopEdi(b: Builtins, s0: State, s: State) returns (s': State)
    requires Reaches(b, s0, s) && At(s, PopEdi)
    requires |s.stack| >= 1
    ensures s' == s.(pc := s.pc + 1, edi := s.stack[|s.stack| - 1], stack := s.stack[..|s.stack| - 1])
    ensures Reaches(b, s0, s')
  {
    s' := s.(pc := s.pc + 1, edi := s.stack[|s.stack| - 1], stack := s.stack[..|s.stack| - 1]);
    ReachesThenStep(b, s0, s, s');
  }

  lemma DoPopEsi(b: Builtins, s0: State, s: State) returns (s': State)
    requires Reaches(b, s0, s) && At(s, PopEsi)
    requires |s.stack| >= 1
    ensures s' == s.(pc := s.pc + 1, stack := s.stack[..|s.stack| - 1])
    ensures Reaches(b, s0, s')
  {
    s' := s.(pc := s.pc + 1, stack := s.stack[..|s.stack| - 1]);
    ReachesThenStep(b, s0, s, s');
  }

  lemma DoCmp(b: Builtins, s0: State, s: State, w: Word) returns (s': State)
    requires Reaches(b, s0, s) && At(s, CmpEax(w))
    ensures s' == s.(pc := s.pc + 1, zf := s.eax == w)
    ensures Reaches(b, s0, s')
  {
    s' := s.(pc := s.pc + 1, zf := s.eax == w);
    ReachesThenStep(b, s0, s, s');
  }

  lemma DoLabel(b: Builtins, s0: State, s: State, l: nat) returns (s': State)
    requires Reaches(b, s0, s) && At(s, Label(l))
    ensures s' == s.(pc := s.pc + 1)
    ensures Reaches(b, s0, s')
  {
    s' := s.(pc := s.pc + 1);
    ReachesThenStep(b, s0, s, s');
  }

  lemma DoJmpEntry(b: Builtins, s0: State, s: State) returns (s': State)
    requires Reaches(b, s0, s) && At(s, JmpEntry)
    ensures s' == s.(pc := 0)
    ensures Reaches(b, s0, s')
  {
    s' := s.(pc := 0);
    ReachesThenStep(b, s0, s, s');
  }

  lemma DoCallEntry(b: Builtins, s0: State, s: State) returns (s': State)
    requires Reaches(b, s0, s) && At(s, CallEntry)
    ensures s' == s.(pc := 0, stack := s.stack + [RetAddr(s.code, s.pc + 1)])
    ensures Reaches(b, s0, s')
  {
    s' := s.(pc := 0, stack := s.stack + [RetAddr(s.code, s.pc + 1)]);
    ReachesThenStep(b, s0, s, s');
  }

  lemma DoCallCode(b: Builtins, s0: State, s: State, code: seq<Instr>) returns (s': State)
    requires Reaches(b, s0, s) && At(s, CallCode(code))
    ensures s' == s.(code := code, pc := 0, stack := s.stack + [RetAddr(s.code, s.pc + 1)])
    ensures Reaches(b, s0, s')
  {
    s' := s.(code := code, pc := 0, stack := s.stack + [RetAddr(s.code, s.pc + 1)]);
    ReachesThenStep(b, s0, s, s');
  }

  lemma DoBuiltin(b: Builtins, s0: State, s: State, name: string, k: nat, w: Word, cells: seq<Cell>) returns (s': State)
    requires Reaches(b, s0, s) && At(s, CallBuiltin(name, k))
    requires k <= |s.stack| && b(name, Reversed(s.stack[|s.stack| - k..]), s.cells) == Some((w, cells))
    ensures s' == s.(pc := s.pc + 1, eax := w, cells := cells)
    ensures Reaches(b, s0, s')
  {
    s' := s.(pc := s.pc + 1, eax := w, cells := cells);
    ReachesThenStep(b, s0, s, s');
  }

  lemma DoCons(b: Builtins, s0: State, s: State) returns (s': State)
    requires Reaches(b, s0, s) && At(s, CallCons)
    requires |s.stack| >= 2
    ensures s' == s.(pc := s.pc + 1, eax := Cons(|s.cells|),
                     cells := s.cells + [Cell(s.stack[|s.stack| - 1], s.stack[|s.stack| - 2])])
    ensures Reaches(b, s0, s')
  {
    s' := s.(pc := s.pc + 1, eax := Cons(|s.cells|), cells := s.cells + [Cell(s.stack[|s.stack| - 1],
        s.stack[|s.stack| - 2])]);
    ReachesThenStep(b, s0, s, s');
  }

  lemma DoMerge(b: Builtins, s0: State, s: State, w: Word, cells: seq<Cell>) returns (s': State)
    requires Reaches(b, s0, s) && At(s, CallMerge2)
    requires |s.stack| >= 2 && Merge2(s.cells, s.stack[|s.stack| - 1], s.stack[|s.stack| - 2]) == Some((w, cells))
    ensures s' == s.(pc := s.pc + 1, eax := w, cells := cells)
    ensures Reaches(b, s0, s')
  {
    s' := s.(pc := s.pc + 1, eax := w, cells := cells);
    ReachesThenStep(b, s0, s, s');
  }

  lemma DoCreate(b: Builtins, s0: State, s: State, code: seq<Instr>, args: Args, n: nat) returns (s': State)
    requires Reaches(b, s0, s) && At(s, CallCreateClosure)
    requires |s.stack| >= 3 && s.stack[|s.stack| - 1] == CodePtr(code) && s.stack[|s.stack| - 2] == ArgsPtr(args)
    requires s.stack[|s.stack| - 3] == Num(n)
    ensures s' == s.(pc := s.pc + 1, eax := Clo(|s.clos|), clos := s.clos + [Closure(code, args, seq(n, _ => Junk))])
    ensures Reaches(b, s0, s')
  {
    s' := s.(pc := s.pc + 1, eax := Clo(|s.clos|), clos := s.clos + [Closure(code, args, seq(n, _ => Junk))]);
    ReachesThenStep(b, s0, s, s');
  }

  lemma DoSetCapture(b: Builtins, s0: State, s: State, i: nat, k: nat) returns (s': State)
    requires Reaches(b, s0, s) && At(s, CallSetCapture)
    requires |s.stack| >= 3 && s.stack[|s.stack| - 1] == Num(i) && s.stack[|s.stack| - 3] == Clo(k)
    requires k < |s.clos| && i < |s.clos[k].data|
    ensures s' == s.(pc := s.pc + 1, eax := Junk,
                     clos := s.clos[k := s.clos[k].(data := s.clos[k].data[i := s.stack[|s.stack| - 2]])])
    ensures Reaches(b, s0, s')
  {
    s' := s.(pc := s.pc + 1, eax := Junk,
             clos := s.clos[k := s.clos[k].(data := s.clos[k].data[i := s.stack[|s.stack| - 2]])]);
    ReachesThenStep(b, s0, s, s');
  }

  lemma DoRet(b: Builtins, s0: State, s: State, code: seq<Instr>, pc: nat) returns (s': State)
    requires Reaches(b, s0, s) && At(s, Ret)
    requires |s.stack| >= 1 && s.stack[|s.stack| - 1] == RetAddr(code, pc)
    ensures s' == s.(code := code, pc := pc, stack := s.stack[..|s.stack| - 1])
    ensures Reaches(b, s0, s')
  {
    s' := s.(code := code, pc := pc, stack := s.stack[..|s.stack| - 1]);
    ReachesThenStep(b, s0, s, s');
  }

  lemma DoApply(b: Builtins, s0: State, s: State) returns (s': State)
    requires Reaches(b, s0, s) && At(s, CallApply) && |s.stack| >= 2 && StepApply(s).Some?
    ensures s' == StepApply(s).value
    ensures Reaches(b, s0, s')
  {
    s' := StepApply(s).value;
    ReachesThenStep(b, s0, s, s');
  }

  // ----- jumps -----

  /** Label `l` is placed once in `code`, at `i`. */
  ghost predicate Placed(code: seq<Instr>, l: nat, i: nat) {
    i < |code| && code[i] == Label(l) && forall j :: 0 <= j < i ==> code[j] != Label(l)
  }

  lemma {:induction false} LabelFound(code: seq<Instr>, l: nat, i: nat, from: nat)
    requires Placed(code, l, i) && from <= i
    ensures FindLabel(code, l, from) == Some(i)
    decreases i - from
  {
    if from < i { LabelFound(code, l, i, from + 1); }
  }

  lemma DoJmp(b: Builtins, s0: State, s: State, l: nat, i: nat) returns (s': State)
    requires Reaches(b, s0, s) && At(s, Jmp(l)) && Placed(s.code, l, i)
    ensures s' == s.(pc := i)
    ensures Reaches(b, s0, s')
  {
    s' := s.(pc := i);
    LabelFound(s.code, l, i, 0);
    ReachesThenStep(b, s0, s, s');
  }

  lemma DoJe(b: Builtins, s0: State, s: State, l: nat, i: nat) returns (s': State)
    requires Reaches(b, s0, s) && At(s, Je(l)) && Placed(s.code, l, i)
    ensures s' == s.(pc := if s.zf then i else s.pc + 1)
    ensures Reaches(b, s0, s')
  {
    s' := s.(pc := if s.zf then i else s.pc + 1);
    LabelFound(s.code, l, i, 0);
    ReachesThenStep(b, s0, s, s');
  }

  lemma DoJne(b: Builtins, s0: State, s: State, l: nat, i: nat) returns (s': State)
    requires Reaches(b, s0, s) && At(s, Jne(l)) && Placed(s.code, l, i)
    ensures s' == s.(pc := if s.zf then s.pc + 1 else i)
    ensures Reaches(b, s0, s')
  {
    s' := s.(pc := if s.zf then s.pc + 1 else i);
    LabelFound(s.code, l, i, 0);
    ReachesThenStep(b, s0, s, s');
  }
}
