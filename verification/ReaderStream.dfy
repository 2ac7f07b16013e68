/** The reader as it is written: a stream with a position, advanced by loops. */
module ReaderStream {
  import opened Wrappers
  import opened Reader

  lemma SymbolMore(text: string, j: nat, i: nat)
    requires j <= i < |text| && IsSym(text[i])
    ensures text[j..i + 1] == text[j..i] + [text[i]] && SymEnd(text, i) == SymEnd(text, i + 1)
  {
  }

  class IStream {
    const text: string
    var i: nat

    ghost predicate Valid()
      reads this
    {
      i <= |text|
    }

    constructor (text: string)
      ensures Valid() && this.text == text && i == 0
    {
      this.text, i := text, 0;
    }

    /** The next character; `None` is the -1 at the end. */
    function Peek(): (c: Option<char>)
      requires Valid()
      reads this
      ensures c == if i < |text| then Some(text[i]) else None
    {
      if i < |text| then Some(text[i]) else None
    }

    method Get() returns (c: Option<char>)
      requires Valid()
      modifies this
      ensures Valid() && c == old(Peek()) && i == if c.Some? then old(i) + 1 else old(i)
    {
      c := Peek();
      if i < |text| {
        i := i + 1;
      }
    }

    /** skipws; `false` stands for the comment loop that never ends. */
    method SkipSpace() returns (ended: bool)
      requires Valid()
      modifies this
      ensures Valid() && ended == SkipWs(text, old(i)).Some?
      ensures i == if ended then SkipWs(text, old(i)).value else |text|
    {
      while true
        invariant Valid() && SkipWs(text, old(i)) == SkipWs(text, i)
        decreases |text| - i
      {
        while Peek().Some? && IsSpace(Peek().value)
          invariant Valid() && SkipWs(text, old(i)) == SkipWs(text, i) && old(i) <= i
          decreases |text| - i
        {
          var _ := Get();
        }
        if Peek() != Some(';') {
          return true;
        }
        ghost var start := i;
        var c := Get();
        while c.Some? && c.value != '\n'
          invariant Valid() && i > start && (c.Some? ==> c.value == text[i - 1]) && (c.None? ==> i == |text|)
          invariant LineEnd(text, start) == if c == Some('\n') then Some(i) else LineEnd(text, i)
          decreases |text| - i, c.Some?
        {
          c := Get();
        }
        if c.None? {
          return false;
        }
      }
    }

    method ReadSymbol() returns (o: Out)
      requires Valid()
      modifies this
      ensures Valid() && (o, i) == ReadSym(text, old(i))
    {
      hide IsSym, IsSymStart;
      var ended := SkipSpace();
      if !ended { return Forever; }
      if Peek().None? || !IsSymStart(Peek().value) { return Safe; }
      ghost var j := i;
      var c := Get();
      var s := [c.value];
      while Peek().Some? && IsSym(Peek().value)
        invariant Valid() && j < i && s == text[j..i] && SymEnd(text, j + 1) == SymEnd(text, i)
        decreases |text| - i
      {
        SymbolMore(text, j, i);
        c := Get();
        s := s + [c.value];
      }
      return Got(VSym(s));
    }

    method ReadString() returns (o: Out)
      requires Valid()
      modifies this
      ensures Valid() && (o, i) == ReadStr(text, old(i))
    {
      var ended := SkipSpace();
      if !ended { return Forever; }
      if Peek() != Some('"') { return Safe; }
      var c := Get();
      var escape, s := false, "";
      ghost var j := i;
      NoPrefix(StrBody(text, j, false));
      while Peek() != Some('"') && Peek().Some?
        invariant Valid() && j <= i && StrBody(text, j, false) == Prefixed(s, StrBody(text, i, escape))
        decreases |text| - i
      {
        c := Get();
        var x := c.value;
        if escape && x == 'n' {
          x := '\n';
        }
        if x == '\\' && !escape {
          escape := true;
        } else {
          escape := false;
          PrefixedMore(s, x, StrBody(text, i, false));
          s := s + [x];
        }
      }
      if Peek().None? { i := |text|; return Forever; }
      c := Get();
      assert s + "" == s;
      return Got(VStr(s));
    }

    method ReadInteger() returns (o: Out)
      requires Valid()
      modifies this
      ensures Valid() && (o, i) == ReadInt(text, old(i))
    {
      var ended := SkipSpace();
      if !ended { return Forever; }
      if Peek().None? || !IsDigit(Peek().value) { return Safe; }
      var number: nat := 0;
      ghost var j := i;
      while Peek().Some? && IsDigit(Peek().value)
        invariant Valid() && j <= i && Digits(text, j, 0) == Digits(text, i, number)
        decreases |text| - i
      {
        var c := Get();
        number := (number * 10 + DigitOf(c.value)) % WORD_LIMIT;
      }
      return Got(VInt(number % INT_LIMIT));
    }

    method ReadQuoted() returns (o: Out)
      requires Valid()
      modifies this
      ensures Valid() && (o, i) == ReadQuote(text, old(i))
      decreases |text| - i, 2
    {
      var ended := SkipSpace();
      if !ended { return Forever; }
      if Peek().None? || !IsQuoteChar(Peek().value) { return Safe; }
      ghost var j := i;
      var got := Get();
      var c := got.value;
      if c == ',' && Peek() == Some('@') {
        got := Get();
        c := '@';
      } else if c == '#' && Peek() == Some('\'') {
        got := Get();
      }
      assert (c, i) == Macro(text, j);
      o := ReadOne();
      if o.Got? {
        o := Got(Wrapped(c, o.value));
      }
    }

    method ReadParen() returns (o: Out)
      requires Valid()
      modifies this
      ensures Valid() && (o, i) == ReadList(text, old(i))
      decreases |text| - i, 2
    {
      var ended := SkipSpace();
      if !ended { return Forever; }
      if Peek() != Some('(') { return Safe; }
      var c := Get();
      var list := ReadForms();
      if list.None? { return Forever; }
      ended := SkipSpace();
      if !ended { return Forever; }
      if Peek() != Some(')') { return Unsafe; }
      c := Get();
      return Got(list.value);
    }

    /** readn: conses are added at the end of the list while forms can be read. */
    method ReadForms() returns (list: Option<Val>)
      requires Valid()
      modifies this
      ensures Valid() && (list, i) == ReadN(text, old(i))
      decreases |text| - i, 4
    {
      hide ReadQuote, ReadSym, ReadStr, ReadInt, ReadList, Read1;
      var read: seq<Val> := [];
      ghost var j := i;
      var o := ReadOne();
      ghost var from := j;
      assert Listed(read, ReadN(text, j)) == ReadN(text, j);
      while o.Got?
        invariant Valid() && from <= |text| && j <= from && (o, i) == Read1(text, from) && (o.Got? ==> from < i)
        invariant ReadN(text, j) == Listed(read, ReadN(text, from))
        decreases |text| - from
      {
        ListedMore(read, o.value, ReadN(text, i));
        read := read + [o.value];
        from := i;
        o := ReadOne();
      }
      list := if o.Forever? then None else Some(ListOf(read, VNil));
    }

    method ReadOne() returns (o: Out)
      requires Valid()
      modifies this
      ensures Valid() && (o, i) == Read1(text, old(i))
      decreases |text| - i, 3
    {
      o := ReadQuoted();
      if !o.Safe? { return; }
      o := ReadSymbol();
      if !o.Safe? { return; }
      o := ReadString();
      if !o.Safe? { return; }
      o := ReadInteger();
      if !o.Safe? { return; }
      o := ReadParen();
    }
  }

  function Prefixed(s: string, r: Option<(string, nat)>): Option<(string, nat)> {
    match r
    case None => None
    case Some((rest, k)) => Some((s + rest, k))
  }

  lemma NoPrefix(r: Option<(string, nat)>)
    ensures Prefixed("", r) == r
  {
    if r.Some? { assert "" + r.value.0 == r.value.0; }
  }

  lemma PrefixedMore(s: string, c: char, r: Option<(string, nat)>)
    ensures Prefixed(s + [c], r) == Prefixed(s, Prefixed([c], r))
  {
    if r.Some? { assert s + [c] + r.value.0 == s + ([c] + r.value.0); }
  }

  function ListOf(vs: seq<Val>, tail: Val): Val {
    if vs == [] then tail else VCons(vs[0], ListOf(vs[1..], tail))
  }

  function Listed(vs: seq<Val>, r: (Option<Val>, nat)): (Option<Val>, nat) {
    match r.0
    case None => r
    case Some(tail) => (Some(ListOf(vs, tail)), r.1)
  }

  lemma {:induction false} ListedMore(vs: seq<Val>, v: Val, r: (Option<Val>, nat))
    ensures Listed(vs + [v], r) == Listed(vs, (if r.0.None? then None else Some(VCons(v, r.0.value)), r.1))
    decreases |vs|
  {
    if vs == [] {
      assert vs + [v] == [v];
      if r.0.Some? { assert ListOf([v], r.0.value) == VCons(v, ListOf([], r.0.value)); }
    } else {
      ListedMore(vs[1..], v, r);
      assert (vs + [v])[1..] == vs[1..] + [v];
    }
  }
}
