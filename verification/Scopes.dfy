/** The compile-time record of one function body (`struct local`): its variables,
    stack slots, closure slots and label counter. */
module Scopes {
  import opened Wrappers
  import opened Sexps
  import opened Words

  datatype VarKind = Bound | Argument | Free

  datatype Variable = Variable(name: string, kind: VarKind, number: nat)

  /** `vars` has the most recently added variable first, as the linked list does. */
  datatype Scope = Scope(vars: seq<Variable>, slots: seq<bool>, entries: nat, closureSlots: nat,
                         nextpc: nat, fname: string, args: Args, parent: Option<Scope>)

  function Find(vars: seq<Variable>, name: string): (r: Option<Variable>)
    ensures r.Some? ==> r.value in vars && r.value.name == name
    ensures r.None? <==> forall v :: v in vars ==> v.name != name
  {
    if vars == [] then None
    else if vars[0].name == name then Some(vars[0])
    else Find(vars[1..], name)
  }

  function AddVariable(s: Scope, v: Variable): Scope {
    s.(vars := [v] + s.vars)
  }

  /** `find_variable`: a name found only in an enclosing scope becomes a V_FREE
      variable of every scope in between. */
  function FindVariable(s: Scope, name: string): (Scope, Option<Variable>)
    decreases s
  {
    if Find(s.vars, name).Some? then (s, Find(s.vars, name))
    else if s.parent.None? then (s, None)
    else
      var (p, found) := FindVariable(s.parent.value, name);
      var s' := s.(parent := Some(p));
      if found.None? then (s', None)
      else
        var v := Variable(name, Free, s.closureSlots);
        (AddVariable(s', v).(closureSlots := s.closureSlots + 1), Some(v))
  }

  // ----- stack slots -----

  /** The first unused slot, or the number of slots if all are in use. */
  function FirstUnused(slots: seq<bool>): (i: nat)
    ensures i <= |slots|
    ensures i < |slots| ==> !slots[i]
    ensures forall j :: 0 <= j < i ==> slots[j]
  {
    if slots == [] || !slots[0] then 0 else 1 + FirstUnused(slots[1..])
  }

  /** `local_alloc`.  Growing the slot map does not count the new entry. */
  function LocalAlloc(s: Scope): (Scope, nat) {
    var i := FirstUnused(s.slots);
    if i < |s.slots| then
      (s.(slots := s.slots[i := true], entries := if i >= s.entries then s.entries + 1 else s.entries), i)
    else
      (s.(slots := s.slots + [true, false, false, false]), i)
  }

  function LocalFree(s: Scope, slot: nat): Scope {
    if slot < |s.slots| then s.(slots := s.slots[slot := false]) else s
  }

  function NextPc(s: Scope): (Scope, nat) {
    (s.(nextpc := s.nextpc + 1), s.nextpc)
  }

  // ----- walk_and_alloc -----

  /** `walk_and_alloc` without macros: counts the frame entries of a body. */
  function WalkAndAlloc(s: Scope, body: Sexp, quoted: bool): Scope
    decreases body, 1
  {
    if !Listp(body) || body.SNil? then s
    else if !quoted && SymStrEq(body.car, "let1") then
      var (s1, slot) := LocalAlloc(s);
      var s2 := if body.cdr.SCons? then WalkEach(s1, body.cdr.cdr, false) else s1;
      LocalFree(s2, slot)
    else if !quoted && SymStrEq(body.car, "lambda") then s
    else if quoted then
      if SymStrEq(body.car, "unquote") || SymStrEq(body.car, "unquote-splice") then WalkEach(s, body.cdr, false) else s
    else
      var s1 := if body.car.SCons? then WalkAndAlloc(s, body.car, false) else s;
      WalkEach(s1, body.cdr, SymStrEq(body.car, "quote") || SymStrEq(body.car, "backquote"))
  }

  function WalkEach(s: Scope, items: Sexp, quoted: bool): Scope
    decreases items, 0
  {
    if items.SCons? then WalkEach(WalkAndAlloc(s, items.car, quoted), items.cdr, quoted) else s
  }

  // ----- list_to_args -----

  /** The loop of `list_to_args`.  The original runs each default expression when the
      function is compiled; its value is looked up in `defaults` here. */
  function ListToArgs(defaults: map<Sexp, Word>, i: Sexp, s: Scope, a: Args, inOptional: bool): Result<Scope>
    decreases i
  {
    if i.SNil? then Ok(s.(args := a))
    else
      var val := Car(i);
      if val.SSym? then
        if !a.variadic && val.name == "&" then
          if !Car(Cdr(i)).SSym? then Err(EExpected)
          else ListToArgs(defaults, Cdr(Cdr(i)),
                          AddVariable(s, Variable(Car(Cdr(i)).name, Argument, a.Total())),
                          a.(variadic := true), inOptional)
        else if inOptional then Err(EInvalid)
        else ListToArgs(defaults, Cdr(i), AddVariable(s, Variable(val.name, Argument, a.required)),
                        a.(required := a.required + 1), inOptional)
      else if Listp(val) then
        if Length(val) != 2 then Err(EInvalid)
        else if !Car(val).SSym? || Elt(val, 1) !in defaults then Err(Unmodelled)
        else ListToArgs(defaults, Cdr(i), AddVariable(s, Variable(Car(val).name, Argument, a.Total())),
                        a.(optional := a.optional + [defaults[Elt(val, 1)]]), true)
      else ListToArgs(defaults, Cdr(i), s, a, inOptional)
  }

  predicate AreArgsAcceptable(a: Args, number: nat) {
    if a.variadic then number >= a.required
    else a.required <= number <= a.Total()
  }
}
