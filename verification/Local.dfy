/** The compiler's per-function record as an object: `struct local` and the operations
    that change it. */
module LocalState {
  import opened Wrappers
  import opened Sexps
  import opened Words
  import opened Scopes

  class Local {
    var vars: seq<Variable>
    var slots: seq<bool>
    var entries: nat
    var closureSlots: nat
    var nextpc: nat
    var args: Args
    const fname: string
    const parent: Local?
    ghost const Repr: set<Local>

    /** The chain of enclosing records ends, and no record is its own ancestor. */
    ghost predicate Valid()
      decreases Repr
    {
      && this in Repr
      && (if parent == null then Repr == {this}
          else Repr == {this} + parent.Repr && this !in parent.Repr && parent.Repr < Repr && parent.Valid())
    }

    ghost function View(): Scope
      requires Valid()
      reads Repr
      decreases Repr
    {
      Scope(vars, slots, entries, closureSlots, nextpc, fname, args, if parent == null then None
        else Some(parent.View()))
    }

    constructor (fname: string, parent: Local?)
      requires parent != null ==> parent.Valid()
      ensures Valid() && this.parent == parent && fresh(Repr - if parent == null then {} else parent.Repr)
      ensures View() == Scope([], [false, false, false, false], 0, 0, 0, fname, Args(0, [], false),
                              if parent == null then None else Some(parent.View()))
    {
      this.fname, this.parent := fname, parent;
      vars, slots, entries, closureSlots, nextpc := [], [false, false, false, false], 0, 0, 0;
      args := Args(0, [], false);
      Repr := {this} + if parent == null then {} else parent.Repr;
      new;
      assert parent != null ==> this !in parent.Repr;
    }

    /** `local_alloc`. */
    method Alloc() returns (slot: nat)
      requires Valid()
      modifies this
      ensures (View(), slot) == LocalAlloc(old(View()))
    {
      ghost var s := View();
      var i := 0;
      while i < |slots|
        invariant i <= |slots| && View() == s
        invariant FirstUnused(slots) == i + FirstUnused(slots[i..])
      {
        if slots[i] == false {
          slots := slots[i := true];
          if i >= entries {
            entries := entries + 1;
          }
          return i;
        }
        assert slots[i..][1..] == slots[i + 1..];
        i := i + 1;
      }
      slot := |slots|;
      slots := slots + [true, false, false, false];
    }

    /** `local_free`. */
    method Free(slot: nat)
      requires Valid()
      modifies this
      ensures View() == LocalFree(old(View()), slot)
    {
      if slot < |slots| {
        slots := slots[slot := false];
      }
    }

    /** `add_variable`. */
    method Add(v: Variable)
      requires Valid()
      modifies this
      ensures View() == AddVariable(old(View()), v)
    {
      vars := [v] + vars;
    }

    /** `nextpc`. */
    method NextLabel() returns (n: nat)
      requires Valid()
      modifies this
      ensures (View(), n) == NextPc(old(View()))
    {
      n := nextpc;
      nextpc := nextpc + 1;
    }

    /** `find_variable`: the list is searched, then the enclosing record; what is found
        there becomes a captured variable here. */
    method FindVar(name: string) returns (v: Option<Variable>)
      requires Valid()
      modifies Repr
      ensures (View(), v) == FindVariable(old(View()), name)
      decreases Repr
    {
      ghost var s := View();
      var i := 0;
      while i < |vars| && vars[i].name != name
        invariant i <= |vars| && Find(vars, name) == Find(vars[i..], name)
      {
        assert vars[i..][1..] == vars[i + 1..];
        i := i + 1;
      }
      if i < |vars| {
        return Some(vars[i]);
      }
      v := None;
      if parent != null {
        v := parent.FindVar(name);
        if v.Some? {
          v := Some(Variable(name, VarKind.Free, closureSlots));
          Add(v.value);
          closureSlots := closureSlots + 1;
        }
      }
    }

    /** `walk_and_alloc`. */
    method Walk(body: Sexp, quoted: bool)
      requires Valid()
      modifies this
      ensures View() == WalkAndAlloc(old(View()), body, quoted)
      decreases body, 1
    {
      if !Listp(body) || body.SNil? {
        return;
      }
      if !quoted && SymStrEq(body.car, "let1") {
        var slot := Alloc();
        if body.cdr.SCons? {
          WalkList(body.cdr.cdr, false);
        }
        Free(slot);
      } else if !quoted && SymStrEq(body.car, "lambda") {
      } else if quoted {
        if SymStrEq(body.car, "unquote") || SymStrEq(body.car, "unquote-splice") {
          WalkList(body.cdr, false);
        }
      } else {
        if body.car.SCons? {
          Walk(body.car, false);
        }
        WalkList(body.cdr, SymStrEq(body.car, "quote") || SymStrEq(body.car, "backquote"));
      }
    }

    /** The loops of walk_and_alloc. */
    method WalkList(list: Sexp, quoted: bool)
      requires Valid()
      modifies this
      ensures View() == WalkEach(old(View()), list, quoted)
      decreases list, 0
    {
      var items := list;
      while items.SCons?
        invariant WalkEach(old(View()), list, quoted) == WalkEach(View(), items, quoted)
        invariant items == list || items < list
        decreases items
      {
        Walk(items.car, quoted);
        items := items.cdr;
      }
    }

    /** `list_to_args`. */
    method DeclareArgs(defaults: map<Sexp, Word>, list: Sexp) returns (err: Option<Error>)
      requires Valid()
      modifies this
      ensures match ListToArgs(defaults, list, old(View()), Args(0, [], false), false)
              case Err(e) => err == Some(e)
              case Ok(s) => err == None && View() == s
    {
      var i, a, inOptional := list, Args(0, [], false), false;
      while !i.SNil?
        invariant ListToArgs(defaults, list, old(View()), Args(0, [], false), false) ==
          ListToArgs(defaults, i, View(), a, inOptional)
        decreases i
      {
        var val := Car(i);
        if val.SSym? {
          if !a.variadic && val.name == "&" {
            if !Car(Cdr(i)).SSym? {
              return Some(EExpected);
            }
            Add(Variable(Car(Cdr(i)).name, Argument, a.Total()));
            a := a.(variadic := true);
            i := Cdr(i);
          } else if inOptional {
            return Some(EInvalid);
          } else {
            Add(Variable(val.name, Argument, a.required));
            a := a.(required := a.required + 1);
          }
        } else if Listp(val) {
          if Length(val) != 2 {
            return Some(EInvalid);
          }
          if !Car(val).SSym? || Elt(val, 1) !in defaults {
            return Some(Unmodelled);
          }
          inOptional := true;
          Add(Variable(Car(val).name, Argument, a.Total()));
          a := a.(optional := a.optional + [defaults[Elt(val, 1)]]);
        }
        i := Cdr(i);
      }
      args := a;
      err := None;
    }
  }
}
