/** How scopes change during code generation: captures are numbered without repeats,
    visible variables keep their locations, and slots are used as a stack. */
module ScopeFacts {
  import opened Wrappers
  import opened Sexps
  import opened Words
  import opened Scopes

  /** The captured names of a scope, by capture number. */
  function Frees(vars: seq<Variable>): seq<string> {
    if vars == [] then []
    else Frees(vars[1..]) + if vars[0].kind == Free then [vars[0].name] else []
  }

  /** Captures carry the numbers 0, 1, ... in the order they were added, and no name is
      captured that the scope already knew. */
  ghost predicate Numbered(vars: seq<Variable>) {
    vars != [] ==>
      && Numbered(vars[1..])
      && (vars[0].kind == Free ==> vars[0].number == |Frees(vars[1..])| && Find(vars[1..], vars[0].name).None?)
  }

  ghost predicate WellNumbered(s: Scope)
    decreases s
  {
    && s.closureSlots == |Frees(s.vars)| && Numbered(s.vars) && Resolved(Frees(s.vars), s.parent)
    && (s.parent.Some? ==> WellNumbered(s.parent.value))
  }

  /** Every captured name is known to the enclosing scope. */
  ghost predicate Resolved(names: seq<string>, parent: Option<Scope>) {
    forall x :: x in names ==> parent.Some? && Find(parent.value.vars, x).Some?
  }

  lemma {:induction false} FindStays(vars: seq<Variable>, vars': seq<Variable>, x: string)
    requires CapturesAdded(vars, vars') && Find(vars, x).Some?
    ensures Find(vars', x) == Find(vars, x)
    decreases |vars'|
  {
    if vars' != vars { FindStays(vars, vars'[1..], x); }
  }

  lemma ResolvedStays(names: seq<string>, p: Scope, p': Scope)
    requires Resolved(names, Some(p)) && Grown(p, p')
    ensures Resolved(names, Some(p'))
  {
    forall x | x in names ensures Find(p'.vars, x).Some? {
      FindStays(p.vars, p'.vars, x);
    }
  }

  /** `vars'` is `vars` with captures added. */
  ghost predicate CapturesAdded(vars: seq<Variable>, vars': seq<Variable>)
    decreases |vars'|
  {
    vars' == vars || (vars' != [] && vars'[0].kind == Free && Find(vars'[1..], vars'[0].name).None?
      && CapturesAdded(vars, vars'[1..]))
  }

  /** `s'` is `s` with captures added to it and to its ancestors, and nothing else. */
  ghost predicate Grown(s: Scope, s': Scope)
    decreases s
  {
    && s' == s.(vars := s'.vars, closureSlots := s'.closureSlots, parent := s'.parent)
    && CapturesAdded(s.vars, s'.vars)
    && ParentGrown(s.parent, s'.parent)
  }

  ghost predicate ParentGrown(p: Option<Scope>, p': Option<Scope>)
    decreases p
  {
    if p.None? then p'.None? else p'.Some? && Grown(p.value, p'.value)
  }

  lemma {:induction false} GrownSelf(s: Scope)
    ensures Grown(s, s)
    decreases s
  {
    if s.parent.Some? { GrownSelf(s.parent.value); }
  }

  lemma {:induction false} CapturesAddedTrans(a: seq<Variable>, b: seq<Variable>, c: seq<Variable>)
    requires CapturesAdded(a, b) && CapturesAdded(b, c)
    ensures CapturesAdded(a, c)
    decreases |c|
  {
    if c != b { CapturesAddedTrans(a, b, c[1..]); }
  }

  lemma {:induction false} GrownTrans(a: Scope, b: Scope, c: Scope)
    requires Grown(a, b) && Grown(b, c)
    ensures Grown(a, c)
    decreases a
  {
    CapturesAddedTrans(a.vars, b.vars, c.vars);
    if a.parent.Some? { GrownTrans(a.parent.value, b.parent.value, c.parent.value); }
  }

  lemma ParentGrownTrans(a: Option<Scope>, b: Option<Scope>, c: Option<Scope>)
    requires ParentGrown(a, b) && ParentGrown(b, c)
    ensures ParentGrown(a, c)
  {
    if a.Some? { GrownTrans(a.value, b.value, c.value); }
  }

  lemma ParentGrownSelf(p: Option<Scope>)
    ensures ParentGrown(p, p)
  {
    if p.Some? { GrownSelf(p.value); }
  }

  lemma {:induction false} FindVariableGrown(s: Scope, name: string)
    ensures var (s', v) := FindVariable(s, name); Grown(s, s') && (v.Some? ==> Find(s'.vars, name) == v)
    decreases s
  {
    if Find(s.vars, name).Some? {
      GrownSelf(s);
    } else if s.parent.Some? {
      FindVariableGrown(s.parent.value, name);
      var (s', v) := FindVariable(s, name);
      if v.Some? {
        assert s'.vars[1..] == s.vars;
        assert CapturesAdded(s.vars, s'.vars);
      }
    } else {
      GrownSelf(s);
    }
  }

  /** find_variable only adds captures, and afterwards the scope itself knows the name. */
  lemma {:induction false} FindVariableGrows(s: Scope, name: string)
    requires WellNumbered(s)
    ensures var (s', v) := FindVariable(s, name);
      && WellNumbered(s') && Grown(s, s')
      && (v.Some? ==> Find(s'.vars, name) == v)
    decreases s
  {
    FindVariableGrown(s, name);
    if Find(s.vars, name).None? && s.parent.Some? {
      FindVariableGrows(s.parent.value, name);
      var (s', v) := FindVariable(s, name);
      ResolvedStays(Frees(s.vars), s.parent.value, s'.parent.value);
      if v.Some? {
        assert s'.vars[1..] == s.vars;
      }
    }
  }

  // ----- what code generation keeps -----

  /** A capture's number is its place among the captured names. */
  lemma {:induction false} FreeNumber(vars: seq<Variable>, name: string)
    requires Numbered(vars) && Find(vars, name).Some? && Find(vars, name).value.kind == Free
    ensures Find(vars, name).value.number < |Frees(vars)|
    ensures Frees(vars)[Find(vars, name).value.number] == name
  {
    if vars[0].name != name {
      FreeNumber(vars[1..], name);
    }
  }

  /** No name is captured twice. */
  lemma {:induction false} FreesDistinct(vars: seq<Variable>)
    requires Numbered(vars)
    ensures forall x :: x in Frees(vars) ==> Find(vars, x).Some?
    ensures forall i, j :: 0 <= i < j < |Frees(vars)| ==> Frees(vars)[i] != Frees(vars)[j]
  {
    if vars != [] {
      FreesDistinct(vars[1..]);
      if vars[0].kind == Free {
        assert vars[0].name !in Frees(vars[1..]);
      }
      assert vars == [vars[0]] + vars[1..];
    }
  }

  /** Every name in `vis` is still found where it was, or has become a capture. */
  ghost predicate Kept(vars: seq<Variable>, vars': seq<Variable>, vis: set<string>) {
    forall x :: x in vis ==>
      || Find(vars', x) == Find(vars, x)
      || (Find(vars, x).None? && Find(vars', x).Some? && Find(vars', x).value.kind == Free)
  }

  lemma {:induction false} CapturesKept(vars: seq<Variable>, vars': seq<Variable>, vis: set<string>)
    requires CapturesAdded(vars, vars')
    ensures Kept(vars, vars', vis) && Frees(vars) <= Frees(vars')
    ensures forall v :: v in vars' ==> v in vars || v.kind == Free
    decreases |vars'|
  {
    if vars' != vars {
      CapturesKept(vars, vars'[1..], vis);
      assert vars' == [vars'[0]] + vars'[1..];
    }
  }

  /** The slots in use are exactly the first `d`. */
  ghost predicate Slotted(s: Scope, d: nat) {
    d <= |s.slots| && forall i :: 0 <= i < |s.slots| ==> (s.slots[i] <==> i < d)
  }

  lemma AllocSlot(s: Scope, d: nat)
    requires Slotted(s, d)
    ensures LocalAlloc(s).1 == d && Slotted(LocalAlloc(s).0, d + 1)
  {
    var i := FirstUnused(s.slots);
    assert i < |s.slots| ==> (s.slots[i] <==> i < d);
    assert d < |s.slots| ==> (s.slots[d] <==> d < d);
  }

  lemma FreeSlot(s: Scope, d: nat)
    requires Slotted(s, d + 1)
    ensures Slotted(LocalFree(s, d), d)
  {
  }

  /** Every stack slot named by a variable lies in a frame of `n` entries. */
  ghost predicate InFrame(vars: seq<Variable>, n: nat) {
    forall v :: v in vars && v.kind == Bound ==> v.number < n
  }

  ghost predicate InArgs(vars: seq<Variable>, n: nat) {
    forall v :: v in vars && v.kind == Argument ==> v.number < n
  }

  /** `s'` is reached from `s` by generating code whose visible variables are `vis`,
      with `d` slots in use, inside a frame of `n` entries. */
  ghost predicate Evolved(s: Scope, s': Scope, vis: set<string>, d: nat, n: nat) {
    && s'.fname == s.fname && s'.args == s.args && s.nextpc <= s'.nextpc
    && ParentGrown(s.parent, s'.parent)
    && WellNumbered(s') && Slotted(s', d) && InFrame(s'.vars, n)
    && InArgs(s'.vars, s.args.Real())
    && Frees(s.vars) <= Frees(s'.vars) && Kept(s.vars, s'.vars, vis)
  }

  ghost predicate Ready(s: Scope, d: nat, n: nat) {
    WellNumbered(s) && Slotted(s, d) && InFrame(s.vars, n) && InArgs(s.vars, s.args.Real())
  }

  lemma ReadyMoved(s: Scope, s': Scope, d: nat, n: nat)
    requires Ready(s, d, n) && s' == s.(nextpc := s'.nextpc)
    ensures Ready(s', d, n)
  {
  }

  lemma EvolvedSelf(s: Scope, vis: set<string>, d: nat, n: nat)
    requires Ready(s, d, n)
    ensures Evolved(s, s, vis, d, n)
  {
    ParentGrownSelf(s.parent);
  }

  lemma EvolvedTrans(a: Scope, b: Scope, c: Scope, vis: set<string>, d: nat, n: nat)
    requires Evolved(a, b, vis, d, n) && Evolved(b, c, vis, d, n)
    ensures Evolved(a, c, vis, d, n)
  {
    ParentGrownTrans(a.parent, b.parent, c.parent);
  }

  lemma GrownEvolves(s: Scope, s': Scope, vis: set<string>, d: nat, n: nat)
    requires Ready(s, d, n) && Grown(s, s') && WellNumbered(s')
    ensures Evolved(s, s', vis, d, n)
  {
    CapturesKept(s.vars, s'.vars, vis);
  }

  /** A `let1` around code that evolved from its inner scope: the name and the slot
      disappear from view, everything else is kept. */
  lemma LetEvolves(s: Scope, name: string, s': Scope, vis: set<string>, d: nat, n: nat)
    requires Ready(s, d, n) && name !in vis && d < n
    requires var s1 := AddVariable(LocalAlloc(s).0, Variable(name, Bound, LocalAlloc(s).1));
      Evolved(s1, s', vis + {name}, d + 1, n)
    ensures Evolved(s, LocalFree(s', LocalAlloc(s).1), vis, d, n)
  {
    AllocSlot(s, d);
    var s1 := AddVariable(LocalAlloc(s).0, Variable(name, Bound, d));
    assert s1.vars[1..] == s.vars;
    FreeSlot(s', d);
    forall x | x in vis
      ensures Find(s'.vars, x) == Find(s.vars, x)
           || (Find(s.vars, x).None? && Find(s'.vars, x).Some? && Find(s'.vars, x).value.kind == Free)
    {
      assert x in vis + {name};
      assert Find(s1.vars, x) == Find(s.vars, x);
    }
  }

  lemma LetReady(s: Scope, name: string, d: nat, n: nat)
    requires Ready(s, d, n) && d < n
    ensures Ready(AddVariable(LocalAlloc(s).0, Variable(name, Bound, LocalAlloc(s).1)), d + 1, n)
  {
    AllocSlot(s, d);
    var s1 := AddVariable(LocalAlloc(s).0, Variable(name, Bound, d));
    assert s1.vars[1..] == s.vars;
  }
}
