/** The s-expression reader and printer. */
module Reader {
  import opened Wrappers

  /** What is read and printed, without addresses.  An integer is the 30 bits that a
      tagged word holds. */
  datatype Val = VNil | VInt(n: nat) | VSym(name: string) | VStr(text: string) | VCons(car: Val, cdr: Val)

  const INT_LIMIT: nat := 0x4000_0000
  const WORD_LIMIT: nat := 0x1_0000_0000

  /** The result of a reader: a value, an error after which another reader may be tried,
      an error after which none may, or a loop that never ends. */
  datatype Out = Got(value: Val) | Safe | Unsafe | Forever

  // ----- character classes (ASCII) -----

  predicate IsSpace(c: char) { c == ' ' || '\t' <= c <= '\r' }
  predicate IsDigit(c: char) { '0' <= c <= '9' }
  predicate IsAlpha(c: char) { 'a' <= c <= 'z' || 'A' <= c <= 'Z' }
  predicate IsAllowedChar(c: char) { '#' <= c <= '\'' || '*' <= c <= '/' || '<' <= c <= '@' }
  predicate IsSymStart(c: char) { IsAlpha(c) || IsAllowedChar(c) }
  predicate IsSym(c: char) { IsAlpha(c) || IsAllowedChar(c) || IsDigit(c) }
  predicate IsQuoteChar(c: char) { c == '\'' || c == '`' || c == ',' || c == '#' }

  // ----- the reader as a function of text and position -----

  /** Past white space and comments; `None` if a comment never ends. */
  function SkipWs(t: string, i: nat): (r: Option<nat>)
    requires i <= |t|
    ensures r.Some? ==> i <= r.value <= |t| && (r.value < |t| ==> !IsSpace(t[r.value]) && t[r.value] != ';')
    decreases |t| - i
  {
    if i < |t| && IsSpace(t[i]) then SkipWs(t, i + 1)
    else if i < |t| && t[i] == ';' then
      match LineEnd(t, i)
      case None => None
      case Some(j) => SkipWs(t, j)
    else Some(i)
  }

  /** The position behind the next newline. */
  function LineEnd(t: string, i: nat): (r: Option<nat>)
    requires i <= |t|
    ensures r.Some? ==> i < r.value <= |t|
    decreases |t| - i
  {
    if i == |t| then None else if t[i] == '\n' then Some(i + 1) else LineEnd(t, i + 1)
  }

  function SymEnd(t: string, i: nat): (r: nat)
    requires i <= |t|
    ensures i <= r <= |t|
    decreases |t| - i
  {
    if i < |t| && IsSym(t[i]) then SymEnd(t, i + 1) else i
  }

  function ReadSym(t: string, i: nat): (r: (Out, nat))
    requires i <= |t|
    ensures r.1 <= |t| && r.1 >= i && (r.0.Got? ==> r.1 > i)
  {
    match SkipWs(t, i)
    case None => (Forever, |t|)
    case Some(j) =>
      if j == |t| || !IsSymStart(t[j]) then (Safe, j)
      else (Got(VSym(t[j..SymEnd(t, j + 1)])), SymEnd(t, j + 1))
  }

  /** The characters up to the closing quote; a backslash takes the next character as it
      is, or as a newline if it is `n`.  `None` if there is no closing quote. */
  function StrBody(t: string, i: nat, escape: bool): (r: Option<(string, nat)>)
    requires i <= |t|
    ensures r.Some? ==> i < r.value.1 <= |t|
    decreases |t| - i
  {
    if i == |t| then None
    else if t[i] == '"' then Some(("", i + 1))
    else if t[i] == '\\' && !escape then StrBody(t, i + 1, true)
    else match StrBody(t, i + 1, false)
      case None => None
      case Some((s, k)) => Some(([if escape && t[i] == 'n' then '\n' else t[i]] + s, k))
  }

  function ReadStr(t: string, i: nat): (r: (Out, nat))
    requires i <= |t|
    ensures r.1 <= |t| && r.1 >= i && (r.0.Got? ==> r.1 > i)
  {
    match SkipWs(t, i)
    case None => (Forever, |t|)
    case Some(j) =>
      if j == |t| || t[j] != '"' then (Safe, j)
      else match StrBody(t, j + 1, false)
        case None => (Forever, |t|)
        case Some((s, k)) => (Got(VStr(s)), k)
  }

  function DigitOf(c: char): nat requires IsDigit(c) { (c as int) - ('0' as int) }

  /** The digits from `i` on, accumulated in 32 bits. */
  function Digits(t: string, i: nat, number: nat): (r: (nat, nat))
    requires i <= |t|
    ensures i <= r.1 <= |t|
    decreases |t| - i
  {
    if i < |t| && IsDigit(t[i]) then Digits(t, i + 1, (number * 10 + DigitOf(t[i])) % WORD_LIMIT) else (number, i)
  }

  function ReadInt(t: string, i: nat): (r: (Out, nat))
    requires i <= |t|
    ensures r.1 <= |t| && r.1 >= i && (r.0.Got? ==> r.1 > i)
  {
    match SkipWs(t, i)
    case None => (Forever, |t|)
    case Some(j) =>
      if j == |t| || !IsDigit(t[j]) then (Safe, j)
      else
        var (number, k) := Digits(t, j + 1, DigitOf(t[j]));
        (Got(VInt(number % INT_LIMIT)), k)
  }

  function QuoteName(c: char): string {
    match c
    case '\'' => "quote"
    case '`' => "backquote"
    case ',' => "unquote"
    case '@' => "unquote-splice"
    case _ => "function"
  }

  function Wrapped(c: char, v: Val): Val { VCons(VSym(QuoteName(c)), VCons(v, VNil)) }

  /** The reader macro at `j`: which one, and where its form begins. */
  function Macro(t: string, j: nat): (r: (char, nat))
    requires j < |t| && IsQuoteChar(t[j])
    ensures j < r.1 <= |t|
  {
    if t[j] == ',' && j + 1 < |t| && t[j + 1] == '@' then ('@', j + 2)
    else if t[j] == '#' && j + 1 < |t| && t[j + 1] == '\'' then ('#', j + 2)
    else (t[j], j + 1)
  }

  function ReadQuote(t: string, i: nat): (r: (Out, nat))
    requires i <= |t|
    ensures r.1 <= |t| && r.1 >= i && (r.0.Got? ==> r.1 > i)
    decreases |t| - i, 2
  {
    match SkipWs(t, i)
    case None => (Forever, |t|)
    case Some(j) =>
      if j == |t| || !IsQuoteChar(t[j]) then (Safe, j)
      else
        var (c, k) := Macro(t, j);
        var (o, e) := Read1(t, k);
        (match o
         case Got(v) => (Got(Wrapped(c, v)), e)
         case _ => (o, e))
  }

  function ReadList(t: string, i: nat): (r: (Out, nat))
    requires i <= |t|
    ensures r.1 <= |t| && r.1 >= i && (r.0.Got? ==> r.1 > i)
    decreases |t| - i, 2
  {
    match SkipWs(t, i)
    case None => (Forever, |t|)
    case Some(j) =>
      if j == |t| || t[j] != '(' then (Safe, j)
      else
        var (list, k) := ReadN(t, j + 1);
        if list.None? then (Forever, k) else
        match SkipWs(t, k)
        case None => (Forever, |t|)
        case Some(e) => if e < |t| && t[e] == ')' then (Got(list.value), e + 1) else (Unsafe, e)
  }

  /** Forms until one cannot be read, whatever the reason; `None` if it never ends. */
  function ReadN(t: string, i: nat): (r: (Option<Val>, nat))
    requires i <= |t|
    ensures r.1 <= |t| && r.1 >= i
    decreases |t| - i, 4
  {
    var (o, k) := Read1(t, i);
    match o
    case Got(v) =>
      var (rest, e) := ReadN(t, k);
      (if rest.None? then None else Some(VCons(v, rest.value)), e)
    case Forever => (None, k)
    case _ => (Some(VNil), k)
  }

  function Read1(t: string, i: nat): (r: (Out, nat))
    requires i <= |t|
    ensures r.1 <= |t| && r.1 >= i && (r.0.Got? ==> r.1 > i)
    decreases |t| - i, 3
  {
    var q := ReadQuote(t, i);
    if !q.0.Safe? then q else
    var s := ReadSym(t, q.1);
    if !s.0.Safe? then s else
    var x := ReadStr(t, s.1);
    if !x.0.Safe? then x else
    var n := ReadInt(t, x.1);
    if !n.0.Safe? then n else ReadList(t, n.1)
  }

  // ----- the printer -----

  function Dec(n: nat): string
    decreases n
  {
    if n < 10 then [('0' as int + n) as char] else Dec(n / 10) + [('0' as int + n % 10) as char]
  }

  predicate Proper(v: Val) { v.VNil? || (v.VCons? && Proper(v.cdr)) }

  /** `printval_ol`. */
  function Print(v: Val): string
    decreases v, 0
  {
    match v
    case VNil => "nil"
    case VInt(n) => Dec(n)
    case VSym(s) => s
    case VStr(s) => ['"'] + s + ['"']
    case VCons(a, d) =>
      if Proper(v) then ['('] + Print(a) + PrintRest(d) + [')']
      else ['('] + Print(a) + [' ', '.', ' '] + Print(d) + [')']
  }

  function PrintRest(v: Val): string
    requires Proper(v)
    decreases v, 1
  {
    if v.VNil? then [] else [' '] + Print(v.car) + PrintRest(v.cdr)
  }

  // ----- what reads back -----

  predicate CleanSym(s: string) {
    |s| > 0 && IsSymStart(s[0]) && !IsQuoteChar(s[0]) && forall k :: 0 <= k < |s| ==> IsSym(s[k])
  }

  predicate CleanStr(s: string) { '"' !in s && '\\' !in s }

  /** Values whose printed text reads back: no nil, no dots, no quote or backslash inside
      a string. */
  predicate Clean(v: Val)
    decreases v, 0
  {
    match v
    case VNil => false
    case VInt(n) => n < INT_LIMIT
    case VSym(s) => CleanSym(s)
    case VStr(s) => CleanStr(s)
    case VCons(a, d) => Clean(a) && CleanList(d)
  }

  predicate CleanList(v: Val)
    decreases v, 1
  {
    v.VNil? || (v.VCons? && Clean(v.car) && CleanList(v.cdr))
  }

  /** `s` stands at position `i`. */
  predicate At(t: string, i: nat, s: string) { i + |s| <= |t| && t[i..i + |s|] == s }

  /** Nothing more belongs to a symbol or number that ends at `i`. */
  predicate Ends(t: string, i: nat) { i <= |t| && (i < |t| ==> t[i] == ' ' || t[i] == ')') }

  // ----- reading back -----

  lemma AtParts(t: string, i: nat, a: string, b: string)
    requires At(t, i, a + b)
    ensures At(t, i, a) && At(t, i + |a|, b)
  {
    var s := t[i..i + |a + b|];
    assert s[..|a|] == a && s[|a|..] == b;
    assert t[i..i + |a|] == s[..|a|] && t[i + |a|..i + |a| + |b|] == s[|a|..];
  }

  lemma AtChar(t: string, i: nat, s: string, k: nat)
    requires At(t, i, s) && k < |s|
    ensures t[i + k] == s[k]
  {
    assert t[i..i + |s|][k] == t[i + k];
  }

  lemma DecStep(n: nat)
    requires 10 <= n < WORD_LIMIT
    ensures n / 10 < n && Dec(n) == Dec(n / 10) + [('0' as int + n % 10) as char]
    ensures IsDigit(('0' as int + n % 10) as char)
    ensures (n / 10 * 10 + DigitOf(('0' as int + n % 10) as char)) % WORD_LIMIT == n
  {
    assert n == n / 10 * 10 + n % 10;
  }

  /** The digits of a number read as that number. */
  lemma {:induction false} DecDigits(t: string, i: nat, n: nat)
    requires At(t, i, Dec(n)) && n < WORD_LIMIT
    ensures |Dec(n)| > 0 && IsDigit(t[i]) && Digits(t, i, 0) == Digits(t, i + |Dec(n)|, n)
    decreases n
  {
    hide Dec;
    if n < 10 {
      OneDigit(n);
      AtChar(t, i, Dec(n), 0);
    } else {
      var last := [('0' as int + n % 10) as char];
      DecStep(n);
      AtParts(t, i, Dec(n / 10), last);
      DecDigits(t, i, n / 10);
      AtChar(t, i + |Dec(n / 10)|, last, 0);
    }
  }

  lemma OneDigit(n: nat)
    requires n < 10
    ensures |Dec(n)| == 1 && IsDigit(Dec(n)[0]) && DigitOf(Dec(n)[0]) == n
  {
  }

  lemma {:induction false} SymEndAt(t: string, i: nat, k: nat)
    requires i <= k <= |t| && (forall j :: i <= j < k ==> IsSym(t[j])) && (k < |t| ==> !IsSym(t[k]))
    ensures SymEnd(t, i) == k
    decreases k - i
  {
    if i < k { SymEndAt(t, i + 1, k); }
  }

  lemma {:induction false} StrBodyBack(t: string, i: nat, s: string)
    requires At(t, i, s + ['"']) && CleanStr(s)
    ensures StrBody(t, i, false) == Some((s, i + |s| + 1))
    decreases |s|
  {
    AtChar(t, i, s + ['"'], 0);
    if s == [] {
      assert s + ['"'] == ['"'];
    } else {
      assert s + ['"'] == [s[0]] + (s[1..] + ['"']);
      AtParts(t, i, [s[0]], s[1..] + ['"']);
      StrBodyBack(t, i + 1, s[1..]);
      assert s == [s[0]] + s[1..];
    }
  }

  lemma SymBack(t: string, i: nat, s: string)
    requires CleanSym(s) && At(t, i, s) && Ends(t, i + |s|)
    ensures Read1(t, i) == (Got(VSym(s)), i + |s|)
  {
    forall j | i <= j < i + |s| ensures IsSym(t[j]) { AtChar(t, i, s, j - i); }
    AtChar(t, i, s, 0);
    SymEndAt(t, i + 1, i + |s|);
  }

  lemma IntBack(t: string, i: nat, n: nat)
    requires n < INT_LIMIT && At(t, i, Dec(n)) && Ends(t, i + |Dec(n)|)
    ensures Read1(t, i) == (Got(VInt(n)), i + |Dec(n)|)
  {
    hide Dec, Read1;
    DecDigits(t, i, n);
    assert Digits(t, i, 0) == Digits(t, i + 1, DigitOf(t[i]));
    assert Digits(t, i + |Dec(n)|, n) == (n, i + |Dec(n)|);
    IntAt(t, i, n, i + |Dec(n)|);
  }

  lemma IntAt(t: string, i: nat, n: nat, k: nat)
    requires i < |t| && IsDigit(t[i]) && Digits(t, i + 1, DigitOf(t[i])) == (n, k)
    ensures Read1(t, i) == (Got(VInt(n % INT_LIMIT)), k)
  {
    hide Digits, SymEnd, StrBody, ReadN, Macro;
    assert SkipWs(t, i) == Some(i);
  }

  lemma StrBack(t: string, i: nat, s: string)
    requires CleanStr(s) && At(t, i, ['"'] + s + ['"'])
    ensures Read1(t, i) == (Got(VStr(s)), i + |s| + 2)
  {
    assert ['"'] + s + ['"'] == ['"'] + (s + ['"']);
    AtParts(t, i, ['"'], s + ['"']);
    AtChar(t, i, ['"'], 0);
    StrBodyBack(t, i + 1, s);
  }

  /** The printed text of a clean value, wherever it stands, reads as that value and is
      consumed exactly. */
  lemma {:induction false} ReadBack(t: string, i: nat, v: Val)
    requires Clean(v) && At(t, i, Print(v)) && Ends(t, i + |Print(v)|)
    ensures Read1(t, i) == (Got(v), i + |Print(v)|)
    decreases v, 2
  {
    hide ReadN, Read1, Dec, Ends, At, CleanSym, CleanStr, CleanList;
    match v
    case VInt(n) => IntBack(t, i, n);
    case VSym(s) => SymBack(t, i, s);
    case VStr(s) => StrBack(t, i, s);
    case VCons(_, _) =>
      CleanIsList(v);
      ListBack(t, i, v);
  }

  lemma CleanIsList(v: Val)
    requires Clean(v) && v.VCons?
    ensures CleanList(v)
  {
  }

  lemma {:induction false} ListBack(t: string, i: nat, v: Val)
    requires v.VCons? && CleanList(v) && At(t, i, Print(v))
    ensures Read1(t, i) == (Got(v), i + |Print(v)|)
    decreases v, 1
  {
    hide ReadN, Read1, Ends, At, Clean, PrintRest, Dec;
    CleanProper(v.cdr);
    var inner := Print(v.car) + PrintRest(v.cdr);
    assert Print(v) == ['('] + (inner + [')']);
    AtParts(t, i, ['('], inner + [')']);
    AtParts(t, i + 1, inner, [')']);
    AtChar(t, i, ['('], 0);
    AtChar(t, i + 1 + |inner|, [')'], 0);
    ReadBackN(t, i + 1, v);
    ListAt(t, i, i + 1 + |inner|, v);
  }

  /** A parenthesis, forms, and a parenthesis. */
  lemma ListAt(t: string, i: nat, k: nat, v: Val)
    requires i < k < |t| && t[i] == '(' && t[k] == ')' && ReadN(t, i + 1) == (Some(v), k)
    ensures Read1(t, i) == (Got(v), k + 1)
  {
    hide ReadN, SymEnd, StrBody, Digits, Macro;
    assert SkipWs(t, i) == Some(i) && SkipWs(t, k) == Some(k);
  }

  lemma {:induction false} CleanProper(v: Val)
    requires CleanList(v)
    ensures Proper(v)
  {
    if v.VCons? { CleanProper(v.cdr); }
  }

  /** The elements of a list, up to the closing parenthesis. */
  lemma {:induction false} ReadBackN(t: string, i: nat, l: Val)
    requires l.VCons? && CleanList(l) && Proper(l.cdr)
    requires var s := Print(l.car) + PrintRest(l.cdr); At(t, i, s) && i + |s| < |t| && t[i + |s|] == ')'
    ensures ReadN(t, i) == (Some(l), i + |Print(l.car) + PrintRest(l.cdr)|)
    decreases l, 0
  {
    hide Read1, Dec, At, CleanSym, CleanStr, Clean;
    var k := i + |Print(l.car)|;
    AtParts(t, i, Print(l.car), PrintRest(l.cdr));
    if l.cdr.VCons? {
      var rest := Print(l.cdr.car) + PrintRest(l.cdr.cdr);
      assert PrintRest(l.cdr) == [' '] + rest;
      AtParts(t, k, [' '], rest);
      AtChar(t, k, [' '], 0);
      ReadBack(t, i, l.car);
      ReadBackN(t, k + 1, l.cdr);
      SpaceFirst(t, k);
    } else {
      ReadBack(t, i, l.car);
      NothingAt(t, k);
    }
  }

  lemma SpaceFirst(t: string, i: nat)
    requires i < |t| && t[i] == ' '
    ensures Read1(t, i) == Read1(t, i + 1) && ReadN(t, i) == ReadN(t, i + 1)
  {
    assert SkipWs(t, i) == SkipWs(t, i + 1);
    assert ReadQuote(t, i) == ReadQuote(t, i + 1);
  }

  lemma NothingAt(t: string, i: nat)
    requires i < |t| && t[i] == ')'
    ensures Read1(t, i) == (Safe, i) && ReadN(t, i) == (Some(VNil), i)
  {
    assert SkipWs(t, i) == Some(i);
  }

  /** Printing and reading undo each other. */
  lemma PrintRead(v: Val)
    requires Clean(v)
    ensures Read1(Print(v), 0) == (Got(v), |Print(v)|)
  {
    assert Print(v)[0..0 + |Print(v)|] == Print(v);
    ReadBack(Print(v), 0, v);
  }

  // ----- what the reader yields -----

  /** Everything that reading can produce. */
  predicate Shaped(v: Val)
    decreases v, 0
  {
    match v
    case VNil => true
    case VInt(n) => n < INT_LIMIT
    case VSym(s) => CleanSym(s)
    case VStr(s) => '"' !in s
    case VCons(a, d) => Shaped(a) && ShapedList(d)
  }

  predicate ShapedList(v: Val)
    decreases v, 1
  {
    v.VNil? || (v.VCons? && Shaped(v.car) && ShapedList(v.cdr))
  }

  /** No empty list anywhere and no backslash in a string. */
  predicate Plain(v: Val)
    decreases v, 0
  {
    match v
    case VNil => false
    case VInt(_) => true
    case VSym(_) => true
    case VStr(s) => '\\' !in s
    case VCons(a, d) => Plain(a) && PlainList(d)
  }

  predicate PlainList(v: Val)
    decreases v, 1
  {
    v.VCons? ==> Plain(v.car) && PlainList(v.cdr)
  }

  lemma {:induction false} CleanIs(v: Val)
    ensures Clean(v) <==> Shaped(v) && Plain(v)
    decreases v, 0
  {
    if v.VCons? {
      CleanIs(v.car);
      CleanListIs(v.cdr);
    }
  }

  lemma {:induction false} CleanListIs(v: Val)
    ensures CleanList(v) <==> ShapedList(v) && PlainList(v)
    decreases v, 1
  {
    if v.VCons? {
      CleanIs(v.car);
      CleanListIs(v.cdr);
    }
  }

  lemma {:induction false} SymEndSyms(t: string, i: nat)
    requires i <= |t|
    ensures forall k :: i <= k < SymEnd(t, i) ==> IsSym(t[k])
    decreases |t| - i
  {
    if i < |t| && IsSym(t[i]) { SymEndSyms(t, i + 1); }
  }

  /** The body of a string: no quote in it; as many characters as were consumed exactly if
      no backslash was. */
  lemma {:induction false} StrBodyFacts(t: string, i: nat, escape: bool)
    requires i <= |t| && StrBody(t, i, escape).Some?
    ensures var (s, k) := StrBody(t, i, escape).value;
      && '"' !in s && |s| <= k - 1 - i && (forall j :: i <= j < k - 1 ==> t[j] != '"')
      && (!escape && |s| == k - 1 - i ==> forall j :: i <= j < k - 1 ==> t[j] != '\\')
    decreases |t| - i
  {
    if t[i] != '"' {
      StrBodyFacts(t, i + 1, t[i] == '\\' && !escape);
    }
  }

  /** Where reading stops safely no other form begins. */
  lemma SafeStops(t: string, i: nat)
    requires i <= |t| && Read1(t, i).0.Safe?
    ensures var e := Read1(t, i).1;
      SkipWs(t, e) == Some(e) && (e < |t| ==> !IsSymStart(t[e]) && !IsDigit(t[e]) && t[e] != '"' && t[e] != '(')
  {
    hide ReadQuote, ReadN, SymEnd, StrBody, Digits;
  }

  /** A symbol is only read where no reader macro begins. */
  lemma SymbolClean(t: string, i: nat)
    requires i <= |t| && ReadQuote(t, i).0.Safe?
    ensures var s := ReadSym(t, ReadQuote(t, i).1); s.0.Got? ==> s.0.value.VSym? && CleanSym(s.0.value.name)
  {
    hide Read1;
    var j := SkipWs(t, i).value;
    if j < |t| && IsQuoteChar(t[j]) {
      SafeStops(t, Macro(t, j).1);
    } else if j < |t| {
      SymEndSyms(t, j + 1);
    }
  }

  lemma StringShaped(t: string, i: nat)
    requires i <= |t| && ReadStr(t, i).0.Got?
    ensures ReadStr(t, i).0.value.VStr? && '"' !in ReadStr(t, i).0.value.text
  {
    StrBodyFacts(t, SkipWs(t, i).value + 1, false);
  }

  lemma NamesClean(c: char)
    ensures CleanSym(QuoteName(c))
  {
  }

  lemma {:induction false} Read1Shaped(t: string, i: nat)
    requires i <= |t|
    ensures Read1(t, i).0.Got? ==> Shaped(Read1(t, i).0.value)
    decreases |t| - i, 3
  {
    hide ReadSym, ReadStr, ReadInt, ReadList, ReadQuote, CleanSym;
    var q := ReadQuote(t, i);
    QuoteShaped(t, i);
    if q.0.Safe? {
      SymbolClean(t, i);
      var s := ReadSym(t, q.1);
      if s.0.Safe? {
        var x := ReadStr(t, s.1);
        if x.0.Got? { StringShaped(t, s.1); }
        if x.0.Safe? {
          IntShaped(t, x.1);
          ListShaped(t, ReadInt(t, x.1).1);
        }
      }
    }
  }

  lemma IntShaped(t: string, i: nat)
    requires i <= |t|
    ensures ReadInt(t, i).0.Got? ==> Shaped(ReadInt(t, i).0.value)
  {
    hide Digits;
  }

  lemma {:induction false} QuoteShaped(t: string, i: nat)
    requires i <= |t|
    ensures ReadQuote(t, i).0.Got? ==> Shaped(ReadQuote(t, i).0.value)
    decreases |t| - i, 2
  {
    hide CleanSym, Read1, QuoteName;
    if ReadQuote(t, i).0.Got? {
      var (c, k) := Macro(t, SkipWs(t, i).value);
      Read1Shaped(t, k);
      NamesClean(c);
      var v := Read1(t, k).0.value;
      assert ShapedList(VCons(v, VNil));
      assert Shaped(Wrapped(c, v));
    }
  }

  lemma {:induction false} ListShaped(t: string, i: nat)
    requires i <= |t|
    ensures ReadList(t, i).0.Got? ==> Shaped(ReadList(t, i).0.value)
    decreases |t| - i, 2
  {
    hide ReadN;
    if ReadList(t, i).0.Got? {
      ReadNShaped(t, SkipWs(t, i).value + 1);
    }
  }

  lemma {:induction false} ReadNShaped(t: string, i: nat)
    requires i <= |t|
    ensures ReadN(t, i).0.Some? ==> ShapedList(ReadN(t, i).0.value)
    decreases |t| - i, 4
  {
    hide Read1;
    Read1Shaped(t, i);
    if Read1(t, i).0.Got? { ReadNShaped(t, Read1(t, i).1); }
  }

  /** Read, print, read: whatever the text was, its printed value reads as that value if
      it has no empty list and no backslash in a string.  In particular this covers the
      reader macros, which the printer spells out. */
  lemma ReadPrintRead(t: string)
    ensures Read1(t, 0).0.Got? ==> Shaped(Read1(t, 0).0.value)
    ensures Read1(t, 0).0.Got? && Plain(Read1(t, 0).0.value) ==>
      Read1(Print(Read1(t, 0).0.value), 0) == (Got(Read1(t, 0).0.value), |Print(Read1(t, 0).0.value)|)
  {
    hide Read1, Print;
    Read1Shaped(t, 0);
    if Read1(t, 0).0.Got? && Plain(Read1(t, 0).0.value) {
      CleanIs(Read1(t, 0).0.value);
      PrintRead(Read1(t, 0).0.value);
    }
  }

  // ----- exactly what reads back -----

  /** The number of backslashes. */
  function Count(s: string): nat {
    if s == [] then 0 else (if s[0] == '\\' then 1 else 0) + Count(s[1..])
  }

  /** The number of backslashes in the strings of a value. */
  function Backslashes(v: Val): nat {
    match v
    case VStr(s) => Count(s)
    case VCons(a, d) => Backslashes(a) + Backslashes(d)
    case _ => 0
  }

  lemma {:induction false} CountConcat(a: string, b: string)
    ensures Count(a + b) == Count(a) + Count(b)
  {
    if a == [] {
      assert a + b == b;
    } else {
      CountConcat(a[1..], b);
      assert (a + b)[1..] == a[1..] + b;
    }
  }

  lemma {:induction false} CountNone(s: string)
    requires '\\' !in s
    ensures Count(s) == 0
  {
    if s != [] { CountNone(s[1..]); }
  }

  function CountIn(t: string, i: nat, k: nat): nat
    requires i <= k <= |t|
  {
    Count(t[i..k])
  }

  lemma CountSplit(t: string, i: nat, j: nat, k: nat)
    requires i <= j <= k <= |t|
    ensures CountIn(t, i, k) == CountIn(t, i, j) + CountIn(t, j, k)
  {
    CountConcat(t[i..j], t[j..k]);
    assert t[i..j] + t[j..k] == t[i..k];
  }

  /** `n` backslashes came out of the text between `i` and `k`, and not all of those that
      went in, if there were any. */
  predicate Lost(n: nat, t: string, i: nat, k: nat)
    requires i <= k <= |t|
  {
    n == 0 || n < CountIn(t, i, k)
  }

  lemma LostWider(n: nat, t: string, i: nat, j: nat, k: nat, e: nat)
    requires i <= j <= k <= e <= |t| && Lost(n, t, j, k)
    ensures Lost(n, t, i, e)
  {
    CountSplit(t, i, j, e);
    CountSplit(t, j, k, e);
  }

  /** A backslash in a string costs another one in the text. */
  lemma {:induction false} StrBodyLoses(t: string, i: nat, escape: bool)
    requires i <= |t| && StrBody(t, i, escape).Some?
    ensures var (s, k) := StrBody(t, i, escape).value;
      Count(s) <= CountIn(t, i, k) && (!escape ==> Lost(Count(s), t, i, k))
    decreases |t| - i
  {
    var (s, k) := StrBody(t, i, escape).value;
    if t[i] != '"' {
      var quoted := t[i] == '\\' && !escape;
      StrBodyLoses(t, i + 1, quoted);
      CountSplit(t, i, i + 1, k);
      assert t[i..i + 1] == [t[i]];
      if !quoted { assert s[1..] == StrBody(t, i + 1, false).value.0; }
    }
  }

  lemma {:induction false} Read1Loses(t: string, i: nat)
    requires i <= |t|
    ensures Read1(t, i).0.Got? ==> Lost(Backslashes(Read1(t, i).0.value), t, i, Read1(t, i).1)
    decreases |t| - i, 3
  {
    hide ReadSym, ReadStr, ReadInt, ReadList, ReadQuote, Lost;
    var q := ReadQuote(t, i);
    QuoteLoses(t, i);
    if q.0.Safe? {
      var s := ReadSym(t, q.1);
      SymLoses(t, q.1);
      if s.0.Got? { LostWider(0, t, i, q.1, s.1, s.1); }
      if s.0.Safe? { OthersLose(t, i, s.1); }
    }
  }

  /** The readers that come after the one for symbols. */
  lemma {:induction false} OthersLose(t: string, i: nat, j: nat)
    requires i <= j <= |t|
    ensures var x := ReadStr(t, j); x.0.Got? ==> Lost(Backslashes(x.0.value), t, i, x.1)
    ensures var n := ReadInt(t, ReadStr(t, j).1); n.0.Got? ==> Lost(Backslashes(n.0.value), t, i, n.1)
    ensures var l := ReadList(t, ReadInt(t, ReadStr(t, j).1).1); l.0.Got? ==> Lost(Backslashes(l.0.value), t, i, l.1)
    decreases |t| - i, 2, 1
  {
    hide StrBody, Digits, ReadList, Lost, SkipWs;
    var x := ReadStr(t, j);
    if x.0.Got? {
      var p := SkipWs(t, j).value + 1;
      StrBodyLoses(t, p, false);
      LostWider(Backslashes(x.0.value), t, i, p, x.1, x.1);
    }
    var n := ReadInt(t, x.1);
    if n.0.Got? {
      assert Backslashes(n.0.value) == 0;
      NoneLost(t, i, n.1);
    }
    ListLoses(t, i, n.1);
  }

  lemma NoneLost(t: string, i: nat, k: nat)
    requires i <= k <= |t|
    ensures Lost(0, t, i, k)
  {
  }

  lemma SymLoses(t: string, i: nat)
    requires i <= |t|
    ensures ReadSym(t, i).0.Got? ==> Backslashes(ReadSym(t, i).0.value) == 0 && Lost(0, t, i, ReadSym(t, i).1)
  {
    hide SymEnd;
  }

  lemma {:induction false} QuoteLoses(t: string, i: nat)
    requires i <= |t|
    ensures ReadQuote(t, i).0.Got? ==> Lost(Backslashes(ReadQuote(t, i).0.value), t, i, ReadQuote(t, i).1)
    decreases |t| - i, 2
  {
    hide Read1, QuoteName, Lost, Macro;
    if ReadQuote(t, i).0.Got? {
      var (c, k) := Macro(t, SkipWs(t, i).value);
      Read1Loses(t, k);
      var (o, e) := Read1(t, k);
      assert Backslashes(VCons(o.value, VNil)) == Backslashes(o.value);
      LostWider(Backslashes(o.value), t, i, k, e, e);
    }
  }

  lemma {:induction false} ListLoses(t: string, i: nat, j: nat)
    requires i <= j <= |t|
    ensures ReadList(t, j).0.Got? ==> Lost(Backslashes(ReadList(t, j).0.value), t, i, ReadList(t, j).1)
    decreases |t| - i, 2, 0
  {
    hide ReadN, Lost;
    if ReadList(t, j).0.Got? {
      var p := SkipWs(t, j).value + 1;
      ReadNLoses(t, p);
      var (list, k) := ReadN(t, p);
      LostWider(Backslashes(list.value), t, i, p, k, ReadList(t, j).1);
    }
  }

  lemma {:induction false} ReadNLoses(t: string, i: nat)
    requires i <= |t|
    ensures ReadN(t, i).0.Some? ==> Lost(Backslashes(ReadN(t, i).0.value), t, i, ReadN(t, i).1)
    decreases |t| - i, 4
  {
    hide Read1;
    var (o, k) := Read1(t, i);
    Read1Loses(t, i);
    if o.Got? {
      ReadNLoses(t, k);
      CountSplit(t, i, k, ReadN(t, k).1);
    }
  }

  /** Printing keeps the backslashes as they are. */
  lemma {:induction false} PrintCount(v: Val)
    requires Shaped(v)
    ensures Count(Print(v)) == Backslashes(v)
    decreases v, 0
  {
    hide CleanSym, Dec;
    match v
    case VNil => CountNone("nil");
    case VInt(n) =>
      DecPlain(n);
      CountNone(Dec(n));
    case VSym(s) =>
      SymPlain(s);
      CountNone(s);
    case VStr(s) =>
      CountConcat(['"'] + s, ['"']);
      CountConcat(['"'], s);
    case VCons(a, d) =>
      ShapedProper(d);
      PrintCount(a);
      PrintRestCount(d);
      CountConcat(['('] + Print(a) + PrintRest(d), [')']);
      CountConcat(['('] + Print(a), PrintRest(d));
      CountConcat(['('], Print(a));
  }

  lemma {:induction false} PrintRestCount(v: Val)
    requires ShapedList(v) && Proper(v)
    ensures Count(PrintRest(v)) == Backslashes(v)
    decreases v, 1
  {
    hide Shaped, Print;
    if v.VCons? {
      PrintCount(v.car);
      PrintRestCount(v.cdr);
      CountConcat([' '] + Print(v.car), PrintRest(v.cdr));
      CountConcat([' '], Print(v.car));
    }
  }

  lemma {:induction false} DecPlain(n: nat)
    ensures '\\' !in Dec(n)
  {
    if n >= 10 { DecPlain(n / 10); }
  }

  lemma SymPlain(s: string)
    requires CleanSym(s)
    ensures '\\' !in s
  {
  }

  lemma {:induction false} ShapedProper(v: Val)
    requires ShapedList(v)
    ensures Proper(v)
  {
    if v.VCons? { ShapedProper(v.cdr); }
  }

  /** The value with the symbol `nil` in the place of every empty list that is printed. */
  function Named(v: Val): Val
    decreases v, 0
  {
    match v
    case VNil => VSym("nil")
    case VCons(a, d) => VCons(Named(a), NamedList(d))
    case _ => v
  }

  function NamedList(v: Val): Val
    decreases v, 1
  {
    if v.VCons? then VCons(Named(v.car), NamedList(v.cdr)) else v
  }

  /** It prints the same, and is clean if there are no backslashes: so it is what the
      printed text reads as.  It is the value itself only if that one is clean. */
  lemma {:induction false} NamedPrints(v: Val)
    requires Shaped(v) && Backslashes(v) == 0
    ensures Clean(Named(v)) && Print(Named(v)) == Print(v) && (Named(v) == v ==> Clean(v))
    decreases v, 0
  {
    hide CleanSym, Dec;
    match v
    case VNil => NilClean();
    case VStr(s) => CountsNone(s);
    case VCons(a, d) =>
      NamedPrints(a);
      NamedListPrints(d);
    case _ =>
  }

  lemma {:induction false} NamedListPrints(v: Val)
    requires ShapedList(v) && Backslashes(v) == 0
    ensures Proper(v) && CleanList(NamedList(v)) && Proper(NamedList(v)) && PrintRest(NamedList(v)) == PrintRest(v)
    ensures NamedList(v) == v ==> CleanList(v)
    decreases v, 1
  {
    hide Print, Clean, Shaped;
    if v.VCons? {
      NamedPrints(v.car);
      NamedListPrints(v.cdr);
    }
  }

  lemma NilClean()
    ensures CleanSym("nil")
  {
  }

  lemma {:induction false} CountsNone(s: string)
    requires Count(s) == 0
    ensures '\\' !in s
  {
    if s != [] { CountsNone(s[1..]); }
  }

  /** Reading the printed text gives the value back if and only if the value is clean; and
      it is consumed exactly then. */
  lemma ReadsBackIff(v: Val)
    ensures Read1(Print(v), 0).0 == Got(v) <==> Clean(v)
    ensures Read1(Print(v), 0) == (Got(v), |Print(v)|) <==> Clean(v)
  {
    hide Read1, Print, Clean, Shaped, Named;
    var t := Print(v);
    if Clean(v) { PrintRead(v); }
    if Read1(t, 0).0 == Got(v) {
      Read1Shaped(t, 0);
      Read1Loses(t, 0);
      PrintCount(v);
      CountSplit(t, 0, Read1(t, 0).1, |t|);
      assert t[0..|t|] == t;
      NamedPrints(v);
      PrintRead(Named(v));
    }
  }

  /** For strings it is exactly these two characters: printing escapes neither. */
  lemma StringReadsBack(s: string)
    ensures Read1(Print(VStr(s)), 0) == (Got(VStr(s)), |Print(VStr(s))|) <==> CleanStr(s)
  {
    hide Read1;
    var t := Print(VStr(s));
    if CleanStr(s) {
      PrintRead(VStr(s));
    } else {
      assert t[0] == '"' && forall j :: 0 <= j < |s| ==> t[1 + j] == s[j];
      StrAt(t, 0);
      if StrBody(t, 1, false).Some? {
        StrBodyFacts(t, 1, false);
        NotClean(t, s);
      }
    }
  }

  lemma StrAt(t: string, i: nat)
    requires i < |t| && t[i] == '"'
    ensures Read1(t, i) == match StrBody(t, i + 1, false)
                           case None => (Forever, |t|)
                           case Some((s, k)) => (Got(VStr(s)), k)
  {
    hide Digits, SymEnd, StrBody, ReadN, Macro;
    assert SkipWs(t, i) == Some(i);
  }

  lemma NotClean(t: string, s: string)
    requires !CleanStr(s) && |t| == |s| + 2 && forall j :: 0 <= j < |s| ==> t[1 + j] == s[j]
    ensures exists j :: 1 <= j < |t| - 1 && (t[j] == '"' || t[j] == '\\')
  {
    var j :| 0 <= j < |s| && (s[j] == '"' || s[j] == '\\');
    assert t[1 + j] == s[j];
  }

  /** nil prints as a symbol. */
  lemma NilReadsAsSymbol()
    ensures Read1(Print(VNil), 0) == (Got(VSym("nil")), 3)
  {
    hide Read1;
    PrintRead(VSym("nil"));
  }

  /** A dotted pair prints as a list of three: the dot is a symbol to the reader. */
  lemma PairReadsAsList()
    ensures Read1(Print(VCons(VInt(1), VInt(2))), 0) == (Got(VCons(VInt(1), VCons(VSym("."), VCons(VInt(2), VNil)))), 7)
  {
    hide Read1;
    var l := VCons(VInt(1), VCons(VSym("."), VCons(VInt(2), VNil)));
    PairText();
    assert Clean(l) by { assert CleanList(VCons(VInt(2), VNil)); assert CleanList(l.cdr); }
    PrintRead(l);
  }

  lemma PairText()
    ensures Print(VCons(VInt(1), VCons(VSym("."), VCons(VInt(2), VNil)))) == "(1 . 2)" == Print(VCons(VInt(1), VInt(2)))
  {
    hide Read1;
    var l := VCons(VInt(1), VCons(VSym("."), VCons(VInt(2), VNil)));
    assert Print(VInt(1)) == "1" && Print(VInt(2)) == "2";
    assert PrintRest(VCons(VInt(2), VNil)) == " 2" by { assert PrintRest(VNil) == ""; }
    assert PrintRest(l.cdr) == " . 2";
  }

  // ----- how values can be written -----

  lemma {:induction false} CleanFirst(v: Val)
    requires Clean(v)
    ensures |Print(v)| > 0 && !IsQuoteChar(Print(v)[0]) && !IsSpace(Print(v)[0]) && Print(v)[0] != ';'
    decreases v
  {
    hide PrintRest;
    if v.VInt? { DecFirst(v.n); }
  }

  lemma {:induction false} DecFirst(n: nat)
    ensures |Dec(n)| > 0 && IsDigit(Dec(n)[0])
  {
    if n >= 10 { DecFirst(n / 10); }
  }

  /** A reader macro in front of a form that can be read. */
  lemma MacroRead(t: string, i: nat, c: char, k: nat, v: Val, e: nat)
    requires i < |t| && IsQuoteChar(t[i]) && Macro(t, i) == (c, k) && Read1(t, k) == (Got(v), e)
    ensures Read1(t, i) == (Got(Wrapped(c, v)), e)
  {
    hide Macro, ReadSym, ReadStr, ReadInt, ReadList;
    assert SkipWs(t, i) == Some(i);
    assert ReadQuote(t, i) == (Got(Wrapped(c, v)), e) by { hide Read1; }
  }

  /** What stands behind a reader macro is read as a list of two: the symbol that belongs to
      the macro, and the form. */
  lemma MacroForms(t: string, i: nat, m: string, name: string, v: Val)
    requires || (m == "'" && name == "quote") || (m == "`" && name == "backquote") || (m == "," && name == "unquote")
             || (m == ",@" && name == "unquote-splice") || (m == "#'" && name == "function")
               || (m == "#" && name == "function")
    requires Clean(v) && At(t, i, m + Print(v)) && Ends(t, i + |m + Print(v)|)
    requires m == "," ==> Print(v)[..1] != "@"
    ensures Read1(t, i) == (Got(VCons(VSym(name), VCons(v, VNil))), i + |m + Print(v)|)
  {
    hide Read1, Print, Clean;
    var k := i + |m|;
    AtParts(t, i, m, Print(v));
    CleanFirst(v);
    AtChar(t, k, Print(v), 0);
    AtChar(t, i, m, 0);
    if |m| == 2 { AtChar(t, i, m, 1); }
    ReadBack(t, k, v);
    MacroRead(t, i, Macro(t, i).0, k, v, k + |Print(v)|);
  }

  /** A comma in front of a symbol that begins with an at sign is read as a splice. */
  lemma CommaForm(v: Val)
    requires Clean(v)
    ensures var t := "," + Print(v);
      Read1(t, 0) == (Got(VCons(VSym("unquote"), VCons(v, VNil))), |t|) <==> Print(v)[..1] != "@"
  {
    hide Print, Clean, ReadSym, ReadStr, ReadInt, ReadList;
    var t := "," + Print(v);
    assert t[0..|t|] == t;
    CleanFirst(v);
    if Print(v)[..1] == "@" {
      assert Print(v)[0] == '@' && t[1] == '@';
      assert SkipWs(t, 0) == Some(0) && Macro(t, 0) == ('@', 2);
      hide Read1;
      SpliceRead(t);
    } else {
      MacroForms(t, 0, ",", "unquote", v);
    }
  }

  lemma SpliceRead(t: string)
    requires |t| >= 2 && t[0] == ',' && t[1] == '@'
    ensures forall w :: Read1(t, 0).0 == Got(w) ==> w.VCons? && w.car != VSym("unquote")
  {
    hide ReadSym, ReadStr, ReadInt, ReadList;
    assert SkipWs(t, 0) == Some(0) && Macro(t, 0) == ('@', 2);
    var q := Read1(t, 2);
    assert ReadQuote(t, 0) == (match q.0 { case Got(v) => (Got(Wrapped('@', v)), q.1) case _ => q });
    if q.0.Safe? {
      SafeStops(t, 2);
      OthersSafe(t, q.1);
    }
  }

  lemma OthersSafe(t: string, e: nat)
    requires e <= |t| && SkipWs(t, e) == Some(e)
    requires e < |t| ==> !IsSymStart(t[e]) && !IsDigit(t[e]) && t[e] != '"' && t[e] != '('
    ensures ReadSym(t, e) == (Safe, e) && ReadStr(t, e) == (Safe, e) && ReadInt(t, e) == (Safe, e)
    ensures ReadList(t, e) == (Safe, e)
  {
    hide ReadN, SymEnd, StrBody, Digits;
  }

  /** Any letters, digits and these signs make a symbol, except that a digit or the sign of
      a reader macro in front begins something else. */
  lemma SymbolRead(t: string, i: nat, s: string)
    requires s != "" && s[0] !in "'`,#" && !('0' <= s[0] <= '9')
    requires forall k :: 0 <= k < |s| ==>
      'a' <= s[k] <= 'z' || 'A' <= s[k] <= 'Z' || '0' <= s[k] <= '9' || s[k] in "#$%&'*+,-./<=>?@"
    requires At(t, i, s) && Ends(t, i + |s|)
    ensures Read1(t, i) == (Got(VSym(s)), i + |s|)
  {
    hide Read1, At, Ends;
    forall k | 0 <= k < |s| ensures IsSym(s[k]) {
      if s[k] in "#$%&'*+,-./<=>?@" { SignChar(s[k]); }
    }
    if IsQuoteChar(s[0]) { QuoteChar(s[0]); }
    SymBack(t, i, s);
  }

  lemma SignChar(c: char)
    requires c in "#$%&'*+,-./<=>?@"
    ensures IsSym(c)
  {
  }

  lemma QuoteChar(c: char)
    requires IsQuoteChar(c)
    ensures c in "'`,#"
  {
    var s := "'`,#";
    assert s[0] == '\'' && s[1] == '`' && s[2] == ',' && s[3] == '#';
  }

  /** A number is read as its lowest 30 bits. */
  lemma NumberRead(t: string, i: nat, n: nat)
    requires n < 0x1_0000_0000 && At(t, i, Dec(n)) && Ends(t, i + |Dec(n)|)
    ensures Read1(t, i) == (Got(VInt(n % 0x4000_0000)), i + |Dec(n)|)
  {
    hide Dec, Read1;
    DecDigits(t, i, n);
    assert Digits(t, i, 0) == Digits(t, i + 1, DigitOf(t[i]));
    assert Digits(t, i + |Dec(n)|, n) == (n, i + |Dec(n)|);
    IntAt(t, i, n, i + |Dec(n)|);
  }

  /** A string as it can be written: a backslash in front of a backslash, and a newline as a
      backslash and `n`. */
  function Escaped(s: string): string {
    if s == "" then "" else EscapedChar(s[0]) + Escaped(s[1..])
  }

  function EscapedChar(c: char): string {
    if c == '\\' then ['\\', c] else if c == '\n' then ['\\', 'n'] else [c]
  }

  lemma {:induction false} EscapedBody(t: string, i: nat, s: string)
    requires '"' !in s && At(t, i, Escaped(s) + ['"'])
    ensures StrBody(t, i, false) == Some((s, i + |Escaped(s)| + 1))
    decreases |s|
  {
    if s == "" {
      assert Escaped(s) + ['"'] == ['"'];
      AtChar(t, i, ['"'], 0);
    } else {
      var first := EscapedChar(s[0]);
      assert Escaped(s) + ['"'] == first + (Escaped(s[1..]) + ['"']);
      AtParts(t, i, first, Escaped(s[1..]) + ['"']);
      AtChar(t, i, first, 0);
      if |first| == 2 { AtChar(t, i, first, 1); }
      EscapedBody(t, i + |first|, s[1..]);
      assert s == [s[0]] + s[1..];
      CharBack(t, i, s[0]);
    }
  }

  lemma CharBack(t: string, i: nat, c: char)
    requires c != '"' && At(t, i, EscapedChar(c)) && StrBody(t, i + |EscapedChar(c)|, false).Some?
    ensures var (s, k) := StrBody(t, i + |EscapedChar(c)|, false).value;
      StrBody(t, i, false) == Some(([c] + s, k))
  {
    AtChar(t, i, EscapedChar(c), 0);
    if |EscapedChar(c)| == 2 { AtChar(t, i, EscapedChar(c), 1); }
  }

  lemma StringRead(t: string, i: nat, s: string)
    requires '"' !in s && At(t, i, ['"'] + Escaped(s) + ['"'])
    ensures Read1(t, i) == (Got(VStr(s)), i + |Escaped(s)| + 2)
  {
    hide Escaped;
    assert ['"'] + Escaped(s) + ['"'] == ['"'] + (Escaped(s) + ['"']);
    AtParts(t, i, ['"'], Escaped(s) + ['"']);
    AtChar(t, i, ['"'], 0);
    EscapedBody(t, i + 1, s);
  }

  /** A quote ends a string even behind a backslash, so a string can be written if and only
      if it has no quote. */
  lemma StringWritable(s: string)
    ensures (exists t: string :: Read1(t, 0).0 == Got(VStr(s))) <==> '"' !in s
  {
    hide Read1;
    if '"' !in s {
      var t := ['"'] + Escaped(s) + ['"'];
      assert t[0..|t|] == t;
      StringRead(t, 0, s);
    }
    forall t: string | Read1(t, 0).0 == Got(VStr(s)) ensures '"' !in s { Read1Shaped(t, 0); }
  }

  /** A comment in front of a form is passed over. */
  lemma CommentRead(t: string, i: nat, c: string, v: Val)
    requires '\n' !in c && Clean(v)
    requires At(t, i, ";" + c + "\n" + Print(v)) && Ends(t, i + |";" + c + "\n" + Print(v)|)
    ensures Read1(t, i) == (Got(v), i + |";" + c + "\n" + Print(v)|)
  {
    hide Print, Clean, Read1;
    var k := i + |c| + 2;
    AtParts(t, i, ";" + c + "\n", Print(v));
    AtParts(t, i, ";" + c, "\n");
    AtParts(t, i, ";", c);
    AtChar(t, i, ";", 0);
    AtChar(t, k - 1, "\n", 0);
    LineRead(t, i + 1, c);
    assert LineEnd(t, i) == Some(k) && SkipWs(t, i) == SkipWs(t, k);
    CleanFirst(v);
    AtChar(t, k, Print(v), 0);
    assert SkipWs(t, k) == Some(k);
    ReadBack(t, k, v);
    SameStart(t, i, k);
  }

  /** So are spaces, tabs, and the four characters for line and page ends. */
  lemma SpaceRead(t: string, i: nat)
    requires i < |t|
    requires t[i] == ' ' || t[i] == '\t' || t[i] == '\n' || t[i] == '\r' || t[i] == 11 as char || t[i] == 12 as char
    ensures Read1(t, i) == Read1(t, i + 1)
  {
    hide Read1;
    var j := SkipWs(t, i + 1);
    assert SkipWs(t, i) == j;
    if j.Some? {
      SameStart(t, i, j.value);
      SameStart(t, i + 1, j.value);
    } else {
      NoStart(t, i);
      NoStart(t, i + 1);
    }
  }

  lemma NoStart(t: string, i: nat)
    requires i <= |t| && SkipWs(t, i).None?
    ensures Read1(t, i) == (Forever, |t|)
  {
  }

  lemma {:induction false} LineRead(t: string, i: nat, c: string)
    requires At(t, i, c) && '\n' !in c && i + |c| < |t| && t[i + |c|] == '\n'
    ensures LineEnd(t, i) == Some(i + |c| + 1)
    decreases |c|
  {
    if c != "" {
      AtChar(t, i, c, 0);
      assert c == [c[0]] + c[1..];
      AtParts(t, i, [c[0]], c[1..]);
      LineRead(t, i + 1, c[1..]);
    }
  }

  /** Reading begins where white space and comments end. */
  lemma SameStart(t: string, i: nat, j: nat)
    requires i <= |t| && SkipWs(t, i) == Some(j)
    ensures Read1(t, i) == Read1(t, j)
  {
    hide SymEnd, StrBody, Digits, Macro, ReadN;
    assert SkipWs(t, j) == Some(j);
  }
}
