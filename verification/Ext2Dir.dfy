/** Whole directories: listing, lookup by name, insertion, hard links. */
module Ext2Dir {
  import opened Wrappers
  import opened Bytes
  import opened Ext2Blocks
  import opened Ext2Disk

  // ----- a directory as the contents of its blocks -----

  ghost predicate AllTiled(bs: seq<seq<byte>>) {
    forall i :: 0 <= i < |bs| ==> Tiled(bs[i], 0)
  }

  ghost function Listing(bs: seq<seq<byte>>): seq<Dirent>
    requires AllTiled(bs)
  {
    if bs == [] then [] else Listing(bs[..|bs| - 1]) + Entries(bs[|bs| - 1], 0)
  }

  /** The first block with room, and the spot in it. */
  ghost function DirRoom(bs: seq<seq<byte>>, need: nat): (r: Option<(nat, Spot)>)
    requires AllTiled(bs)
    ensures r.Some? ==> r.value.0 < |bs| && Room(bs[r.value.0], 0, need) == Some(r.value.1)
    ensures r.None? ==> forall i :: 0 <= i < |bs| ==> Room(bs[i], 0, need).None?
  {
    if bs == [] then None
    else match DirRoom(bs[..|bs| - 1], need)
      case Some(r) => Some(r)
      case None =>
        match Room(bs[|bs| - 1], 0, need)
        case None => None
        case Some(s) => Some((|bs| - 1, s))
  }

  /** How many entries come before the one that makes room, in the whole listing. */
  ghost function DirIndex(bs: seq<seq<byte>>, need: nat): nat
    requires AllTiled(bs) && DirRoom(bs, need).Some?
  {
    var (i, spot) := DirRoom(bs, need).value;
    |Listing(bs[..i])| + spot.index
  }

  predicate Nameable(e: Dirent) { 0 < e.inode < 0x1_0000_0000 && |e.name| < 256 }

  ghost function Inserted(bs: seq<seq<byte>>, e: Dirent): seq<seq<byte>>
    requires AllTiled(bs) && Nameable(e) && DirRoom(bs, Pad(|e.name| + HEADER)).Some?
  {
    var (i, spot) := DirRoom(bs, Pad(|e.name| + HEADER)).value;
    bs[i := Spliced(bs[i], spot.at, e)]
  }

  /** `list` with `e` right behind entry number `k`. */
  ghost function After(list: seq<Dirent>, k: nat, e: Dirent): seq<Dirent>
    requires k < |list|
  {
    list[..k + 1] + [e] + list[k + 1..]
  }

  ghost predicate ListsInserted(bs: seq<seq<byte>>, e: Dirent)
    requires AllTiled(bs) && Nameable(e) && DirRoom(bs, Pad(|e.name| + HEADER)).Some?
  {
    var (bs', k) := (Inserted(bs, e), DirIndex(bs, Pad(|e.name| + HEADER)));
    && AllTiled(bs') && |bs'| == |bs| && k < |Listing(bs)|
    && Listing(bs') == After(Listing(bs), k, e)
  }

  /** Insertion keeps every block tiled and lists the new entry right behind the one it
      was split from; nothing else about the listing changes. */
  lemma {:induction false} InsertedLists(bs: seq<seq<byte>>, e: Dirent)
    requires AllTiled(bs) && Nameable(e) && DirRoom(bs, Pad(|e.name| + HEADER)).Some?
    ensures ListsInserted(bs, e)
    decreases |bs|
  {
    hide Spliced, Entries, Tiled, Room, Listing, Pad, DirRoom, ListsInserted;
    var need, last := Pad(|e.name| + HEADER), |bs| - 1;
    DirRoomStep(bs, need);
    if DirRoom(bs[..last], need).Some? {
      InsertedLists(bs[..last], e);
      InsertedBefore(bs, e);
    } else {
      InsertedLast(bs, e);
    }
  }

  lemma DirRoomStep(bs: seq<seq<byte>>, need: nat)
    requires AllTiled(bs) && DirRoom(bs, need).Some?
    ensures bs != [] && AllTiled(bs[..|bs| - 1])
    ensures var front := DirRoom(bs[..|bs| - 1], need);
      if front.Some? then DirRoom(bs, need) == front && front.value.0 < |bs| - 1
      else DirRoom(bs, need).value.0 == |bs| - 1
  {
    hide Room, Tiled;
  }

  /** The block that the entry went into. */
  lemma InsertedBlock(bs: seq<seq<byte>>, e: Dirent)
    requires AllTiled(bs) && Nameable(e) && DirRoom(bs, Pad(|e.name| + HEADER)).Some?
    ensures var (i, spot) := DirRoom(bs, Pad(|e.name| + HEADER)).value; var bs' := Inserted(bs, e);
      && |bs'| == |bs| && AllTiled(bs') && (forall j :: 0 <= j < |bs| && j != i ==> bs'[j] == bs[j])
      && spot.index < |Entries(bs[i], 0)| && Entries(bs'[i], 0) == After(Entries(bs[i], 0), spot.index, e)
  {
    hide Spliced, Entries, Tiled, Room, Pad, DirRoom;
    SpliceLists(bs[DirRoom(bs, Pad(|e.name| + HEADER)).value.0], 0, e);
  }

  /** The room is not in the last block. */
  lemma InsertedBefore(bs: seq<seq<byte>>, e: Dirent)
    requires bs != [] && AllTiled(bs) && Nameable(e) && DirRoom(bs, Pad(|e.name| + HEADER)).Some?
    requires DirRoom(bs[..|bs| - 1], Pad(|e.name| + HEADER)) == DirRoom(bs, Pad(|e.name| + HEADER))
    requires ListsInserted(bs[..|bs| - 1], e)
    ensures ListsInserted(bs, e)
  {
    hide Entries, Tiled, Room, Listing, Pad, DirRoom, After, Inserted, DirIndex;
    var last := |bs| - 1;
    InsertedBlock(bs, e);
    FrontSame(bs, e);
    ListingStep(bs);
    ListingStep(Inserted(bs, e));
    InsertLeft(Listing(bs[..last]), Entries(bs[last], 0), DirIndex(bs, Pad(|e.name| + HEADER)), e);
  }

  lemma FrontSame(bs: seq<seq<byte>>, e: Dirent)
    requires bs != [] && AllTiled(bs) && Nameable(e) && DirRoom(bs, Pad(|e.name| + HEADER)).Some?
    requires DirRoom(bs[..|bs| - 1], Pad(|e.name| + HEADER)) == DirRoom(bs, Pad(|e.name| + HEADER))
    ensures var (front, bs', need) := (bs[..|bs| - 1], Inserted(bs, e), Pad(|e.name| + HEADER));
      && |bs'| == |bs| && bs'[..|bs| - 1] == Inserted(front, e) && bs'[|bs| - 1] == bs[|bs| - 1]
      && DirIndex(front, need) == DirIndex(bs, need)
  {
    hide Inserted, Listing, Tiled, Room, Pad, DirRoom;
    FrontInserted(bs, e);
    var i := DirRoom(bs, Pad(|e.name| + HEADER)).value.0;
    assert bs[..|bs| - 1][..i] == bs[..i];
  }

  lemma FrontInserted(bs: seq<seq<byte>>, e: Dirent)
    requires bs != [] && AllTiled(bs) && Nameable(e) && DirRoom(bs, Pad(|e.name| + HEADER)).Some?
    requires DirRoom(bs[..|bs| - 1], Pad(|e.name| + HEADER)) == DirRoom(bs, Pad(|e.name| + HEADER))
    ensures var (front, bs') := (bs[..|bs| - 1], Inserted(bs, e));
      |bs'| == |bs| && bs'[..|bs| - 1] == Inserted(front, e) && bs'[|bs| - 1] == bs[|bs| - 1]
  {
    hide Spliced, Tiled, Room, Pad, DirRoom;
    var (i, spot) := DirRoom(bs, Pad(|e.name| + HEADER)).value;
    assert i < |bs[..|bs| - 1]|;
    SliceUpdate(bs, i, |bs| - 1, Spliced(bs[i], spot.at, e));
  }

  lemma SliceUpdate<T>(s: seq<T>, i: nat, n: nat, x: T)
    requires i < n <= |s|
    ensures s[..n][i] == s[i] && s[i := x][..n] == s[..n][i := x]
  {
  }

  lemma InsertedLast(bs: seq<seq<byte>>, e: Dirent)
    requires bs != [] && AllTiled(bs) && Nameable(e) && DirRoom(bs, Pad(|e.name| + HEADER)).Some?
    requires DirRoom(bs, Pad(|e.name| + HEADER)).value.0 == |bs| - 1
    ensures ListsInserted(bs, e)
  {
    hide Spliced, Entries, Tiled, Room, Listing, Pad, DirRoom, After;
    var last := |bs| - 1;
    var front, bs' := bs[..last], Inserted(bs, e);
    InsertedBlock(bs, e);
    assert bs'[..last] == front;
    ListingStep(bs);
    ListingStep(bs');
    InsertRight(Listing(front), Entries(bs[last], 0), DirRoom(bs, Pad(|e.name| + HEADER)).value.1.index, e);
  }

  lemma ListingStep(bs: seq<seq<byte>>)
    requires bs != [] && AllTiled(bs)
    ensures Listing(bs) == Listing(bs[..|bs| - 1]) + Entries(bs[|bs| - 1], 0)
  {
  }

  lemma InsertLeft(a: seq<Dirent>, b: seq<Dirent>, k: nat, e: Dirent)
    requires k < |a|
    ensures After(a, k, e) + b == After(a + b, k, e)
  {
  }

  lemma InsertRight(a: seq<Dirent>, b: seq<Dirent>, k: nat, e: Dirent)
    requires k < |b|
    ensures a + After(b, k, e) == After(a + b, |a| + k, e)
  {
  }

  // ----- names -----

  /** Up to the first NUL: what strnlen counts. */
  function CStr(s: seq<byte>): (r: seq<byte>)
    ensures r <= s
  {
    if s == [] || s[0] == 0 then [] else [s[0]] + CStr(s[1..])
  }

  function MinLen(a: seq<byte>, b: seq<byte>): nat { if |a| > |b| then |b| else |a| }

  /** `strncmp(a, b, MIN(length, length)) == 0`: the comparison that both the lookup and
      the containment test make.  A name matches every name it is a prefix of. */
  predicate Matches(a: seq<byte>, b: seq<byte>) {
    CStr(a[..MinLen(a, b)]) == CStr(b[..MinLen(a, b)])
  }

  method Strnlen(s: seq<byte>, len: nat) returns (i: nat)
    requires len <= |s|
    ensures i == |CStr(s[..len])| <= len
  {
    i := 0;
    while i < len && s[i] != 0
      invariant i <= len && |CStr(s[..len])| == i + |CStr(s[..len][i..])|
    {
      assert s[..len][i..][0] == s[i] && s[..len][i..][1..] == s[..len][i + 1..];
      i := i + 1;
    }
    assert i < len ==> s[..len][i..][0] == s[i];
  }

  /** io.c's strncmp, which tells only equal from different. */
  method Strncmp(a: seq<byte>, b: seq<byte>, len: nat) returns (r: int)
    requires len <= |a| && len <= |b|
    ensures r == 0 <==> CStr(a[..len]) == CStr(b[..len])
  {
    var al := Strnlen(a, len);
    var bl := Strnlen(b, len);
    if al != bl {
      return (bl as int) - (al as int);
    }
    assert CStr(a[..len]) == a[..al] && CStr(b[..len]) == b[..al] by {
      assert CStr(a[..len]) <= a[..len] && CStr(b[..len]) <= b[..len];
      assert a[..len][..al] == a[..al] && b[..len][..al] == b[..al];
    }
    for i := 0 to al
      invariant a[..i] == b[..i]
    {
      if a[i] != b[i] {
        assert a[..al][i] != b[..al][i];
        return -1;
      }
    }
    return 0;
  }

  /** The first entry of a listing that matches. */
  function FirstMatch(list: seq<Dirent>, name: seq<byte>): (r: Option<Dirent>)
    ensures r.Some? ==> r.value in list && Matches(r.value.name, name)
    ensures r.None? ==> forall e :: e in list ==> !Matches(e.name, name)
  {
    if list == [] then None
    else if Matches(list[0].name, name) then Some(list[0])
    else FirstMatch(list[1..], name)
  }

  /** What a lookup returns: 0 stands for not found. */
  function Lookup(list: seq<Dirent>, name: seq<byte>): nat {
    match FirstMatch(list, name)
    case None => 0
    case Some(e) => e.inode
  }

  lemma {:induction false} FirstMatchConcat(a: seq<Dirent>, b: seq<Dirent>, name: seq<byte>)
    ensures FirstMatch(a + b, name) == if FirstMatch(a, name).Some? then FirstMatch(a, name) else FirstMatch(b, name)
    decreases |a|
  {
    if a == [] {
      assert a + b == b;
    } else {
      FirstMatchConcat(a[1..], b, name);
      assert (a + b)[1..] == a[1..] + b;
    }
  }

  /** The exact effect of an insertion on every lookup. */
  lemma LookupInserted(list: seq<Dirent>, k: nat, e: Dirent, name: seq<byte>)
    requires k < |list|
    ensures Lookup(After(list, k, e), name) ==
      if Matches(e.name, name) && FirstMatch(list[..k + 1], name).None? then e.inode else Lookup(list, name)
  {
    var (a, b) := (list[..k + 1], list[k + 1..]);
    FirstMatchConcat(a, b, name);
    assert a + b == list;
    FirstMatchConcat(a + [e], b, name);
    FirstMatchConcat(a, [e], name);
    assert FirstMatch([e], name) == if Matches(e.name, name) then Some(e) else FirstMatch([], name);
  }

  /** A name cut to 255 bytes compares with entry names as the whole name does. */
  lemma CutMatches(name: seq<byte>, other: seq<byte>)
    requires |other| < 256
    ensures var cut := if |name| > 255 then name[..255] else name;
      (Matches(cut, other) <==> Matches(other, name)) && Matches(cut, name)
  {
    var cut := if |name| > 255 then name[..255] else name;
    assert cut[..MinLen(cut, other)] == name[..MinLen(other, name)];
    assert cut[..MinLen(cut, name)] == name[..MinLen(cut, name)];
  }

  /** Inserting a name that no entry matches: it is found afterwards, and every listed
      name is found where it was. */
  lemma NewNameFound(list: seq<Dirent>, k: nat, e: Dirent, name: seq<byte>)
    requires k < |list| && FirstMatch(list, name).None? && e.name == if |name| > 255 then name[..255] else name
    requires forall d :: d in list ==> |d.name| < 256
    ensures var list' := After(list, k, e);
      && Lookup(list', name) == e.inode
      && forall d :: d in list ==> Lookup(list', d.name) == Lookup(list, d.name)
  {
    CutMatches(name, []);
    LookupInserted(list, k, e, name);
    assert forall d :: d in list[..k + 1] ==> d in list;
    forall d | d in list ensures Lookup(After(list, k, e), d.name) == Lookup(list, d.name) {
      LookupInserted(list, k, e, d.name);
      CutMatches(name, d.name);
    }
  }

  // ----- prefixes -----

  predicate NulFree(s: seq<byte>) { 0 !in s }

  predicate Prefixes(a: seq<byte>, b: seq<byte>) { a <= b || b <= a }

  lemma {:induction false} CStrWhole(s: seq<byte>)
    requires NulFree(s)
    ensures CStr(s) == s
  {
    if s != [] {
      assert s[0] in s;
      CStrWhole(s[1..]);
    }
  }

  /** Two names compare equal if and only if one is a prefix of the other. */
  lemma MatchesPrefix(a: seq<byte>, b: seq<byte>)
    requires NulFree(a) && NulFree(b)
    ensures Matches(a, b) <==> Prefixes(a, b)
  {
    var n := MinLen(a, b);
    CStrWhole(a[..n]);
    CStrWhole(b[..n]);
  }

  /** The number of the first entry that matches; the number of entries if none does. */
  function FirstIndex(list: seq<Dirent>, name: seq<byte>): (i: nat)
    ensures i <= |list|
    ensures forall j :: 0 <= j < i ==> !Matches(list[j].name, name)
    ensures FirstMatch(list, name) == if i < |list| then Some(list[i]) else None
  {
    if list == [] || Matches(list[0].name, name) then 0 else 1 + FirstIndex(list[1..], name)
  }

  ghost predicate AllNulFree(list: seq<Dirent>) {
    forall i :: 0 <= i < |list| ==> NulFree(list[i].name)
  }

  /** Looking a listed name up finds its own entry if and only if no earlier name is a
      prefix of it or continues it. */
  lemma FindsItself(list: seq<Dirent>, k: nat)
    requires k < |list| && AllNulFree(list)
    ensures FirstIndex(list, list[k].name) == k <==> forall j :: 0 <= j < k ==> !Prefixes(list[j].name, list[k].name)
  {
    var i := FirstIndex(list, list[k].name);
    forall j | 0 <= j < |list| ensures Matches(list[j].name, list[k].name) <==> Prefixes(list[j].name, list[k].name) {
      MatchesPrefix(list[j].name, list[k].name);
    }
    assert Matches(list[k].name, list[k].name) && i <= k;
    if i < k { assert Matches(list[i].name, list[k].name); }
  }

  /** So a name is free if and only if no listed name is a prefix of it or continues it. */
  lemma FreeName(list: seq<Dirent>, name: seq<byte>)
    requires AllNulFree(list) && NulFree(name)
    ensures FirstMatch(list, name).None? <==> forall j :: 0 <= j < |list| ==> !Prefixes(list[j].name, name)
  {
    var i := FirstIndex(list, name);
    forall j | 0 <= j < |list| ensures Matches(list[j].name, name) <==> Prefixes(list[j].name, name) {
      MatchesPrefix(list[j].name, name);
    }
    if i < |list| { assert Matches(list[i].name, name); }
  }

  /** `a` hides `ab`: it is found in its place, and with `a` alone `ab` is not free. */
  lemma PrefixHides(x: nat, y: nat, fileType: byte)
    ensures var (a, ab) := (Dirent(x, [97], fileType), Dirent(y, [97, 98], fileType));
      Lookup([a, ab], ab.name) == x && FirstMatch([a], ab.name).Some?
  {
    var (a, ab) := (Dirent(x, [97], fileType), Dirent(y, [97, 98], fileType));
    MatchesPrefix(a.name, ab.name);
  }
}
