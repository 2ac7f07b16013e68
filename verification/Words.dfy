/** Values shared by the compiler model: optional results, s-expressions as the
    compiler sees them, machine words, and the target instructions. */

module Wrappers {
  datatype Option<T> = None | Some(value: T)

  /** The error codes that THROW raises in the compiler.  `Unmodelled` marks the
      forms this model does not follow (see README, "Left out"). */
  datatype Error = EExpected | EInvalid | EMalformed | EArgs | EUnimpl | Unmodelled

  datatype Result<T> = Ok(value: T) | Err(error: Error)

  /** Always true.  Some large definitions are guarded by a quantifier that mentions
      `Opened`, so that only a proof that asserts it looks inside them. */
  predicate Opened<T>(x: T) { true }
}

module Sets {
  lemma {:induction false} SubsetSize<T>(a: set<T>, b: set<T>)
    requires a <= b
    ensures |a| <= |b|
    decreases a
  {
    if a != {} {
      var x :| x in a;
      SubsetSize(a - {x}, b - {x});
    }
  }
}

module Sexps {
  /** A source form, as read.  A cons carries the address of its cell, because
      `quote` and `backquote` emit that address as an immediate operand. */
  datatype Sexp =
    | SNil
    | SInt(i: int)
    | SSym(name: string)
    | SStr(text: string)
    | SCons(addr: nat, car: Sexp, cdr: Sexp)

  /** The number of conses in a form. */
  function Size(v: Sexp): nat {
    if v.SCons? then 1 + Size(v.car) + Size(v.cdr) else 0
  }

  function Car(v: Sexp): (r: Sexp)
    ensures Size(r) <= Size(v) && (v.SCons? ==> Size(r) < Size(v))
  {
    if v.SCons? then v.car else SNil
  }

  function Cdr(v: Sexp): (r: Sexp)
    ensures Size(r) <= Size(v) && (v.SCons? ==> Size(r) < Size(v))
  {
    if v.SCons? then v.cdr else SNil
  }

  predicate Listp(v: Sexp) {
    v.SNil? || (v.SCons? && Listp(v.cdr))
  }

  /** `length`: counts `cdr` steps until nil, so an atom other than nil has length 1. */
  function Length(v: Sexp): nat {
    if v.SNil? then 0 else if v.SCons? then 1 + Length(v.cdr) else 1
  }

  function Elt(v: Sexp, index: nat): Sexp
    decreases index
  {
    if index == 0 then Car(v) else Elt(Cdr(v), index - 1)
  }

  predicate SymStrEq(v: Sexp, s: string) {
    v.SSym? && v.name == s
  }
}

module Words {
  import opened Sexps

  /** How many arguments a function takes, with the values of its optional ones. */
  datatype Args = Args(required: nat, optional: seq<Word>, variadic: bool) {
    function Total(): nat { required + |optional| }

    /** Words on the stack for one call: the rest list counts as one. */
    function Real(): nat { Total() + if variadic then 1 else 0 }
  }

  /** A 32-bit stack word or register.  Code and argument-record pointers, saved
      frame pointers and return addresses are kept apart from Lisp values. */
  datatype Word =
    | Nil
    | Int(i: int)
    | Sym(name: string)
    | Str(text: string)
    | Cons(c: nat)
    | Clo(k: nat)
    | CodePtr(code: seq<Instr>)
    | ArgsPtr(args: Args)
    | Num(n: nat)
    | RetAddr(code: seq<Instr>, pc: nat)
    | Frame(ebp: nat)
    | Junk

  /** `t` is the word 1 << 3, which is also the integer 2. */
  const T: Word := Int(2)

  /** The emitted instructions.  Memory operands are in words: `MovEaxMem(k)` reads
      [ebp + 4k] and `MovMemEax(k)` writes it. */
  datatype Instr =
    | MovEaxImm(w: Word)
    | MovEaxMem(k: int)
    | MovMemEax(k: int)
    | MovEaxEdi(n: nat)
    | PushEax
    | PushImm(w: Word)
    | PopEax
    | AddEsp(n: nat)
    | SubEsp(n: nat)
    | PushEbp
    | PopEbp
    | PopEdi
    | PopEsi
    | MovEbpEsp
    | MovEspEbp
    | CmpEax(w: Word)
    | Je(l: nat)
    | Jne(l: nat)
    | Jmp(l: nat)
    | Label(l: nat)
    | JmpEntry
    | CallEntry
    | CallCode(code: seq<Instr>)
    | CallBuiltin(name: string, nargs: nat)
    | CallApply
    | CallCons
    | CallMerge2
    | CallCreateClosure
    | CallSetCapture
    | Ret

  /** The word the compiler embeds for a constant form. */
  function WordOf(v: Sexp): Word {
    match v
    case SNil => Nil
    case SInt(i) => Int(i)
    case SSym(s) => Sym(s)
    case SStr(s) => Str(s)
    case SCons(a, _, _) => Cons(a)
  }
}
