/** Little-endian fields in byte strings. */
module Bytes {
  type byte = b: int | 0 <= b < 256

  function U16(s: seq<byte>, i: nat): (r: nat)
    requires i + 2 <= |s|
    ensures r < 0x1_0000
  {
    (s[i] as int) + 256 * (s[i + 1] as int)
  }

  function U32(s: seq<byte>, i: nat): (r: nat)
    requires i + 4 <= |s|
    ensures r < 0x1_0000_0000
  {
    U16(s, i) + 0x1_0000 * U16(s, i + 2)
  }

  function Le16(v: nat): (r: seq<byte>)
    requires v < 0x1_0000
    ensures |r| == 2 && U16(r, 0) == v
  {
    [v % 256, v / 256]
  }

  function Le32(v: nat): (r: seq<byte>)
    requires v < 0x1_0000_0000
    ensures |r| == 4 && U32(r, 0) == v
  {
    var (lo, hi) := (Le16(v % 0x1_0000), Le16(v / 0x1_0000));
    lo + hi
  }

  /** `src` copied to offset `at`. */
  function Put(s: seq<byte>, at: nat, src: seq<byte>): (r: seq<byte>)
    requires at + |src| <= |s|
    ensures |r| == |s|
  {
    s[..at] + src + s[at + |src|..]
  }

  lemma PutAt(s: seq<byte>, at: nat, src: seq<byte>)
    requires at + |src| <= |s|
    ensures forall j :: 0 <= j < |s| ==> Put(s, at, src)[j] == if at <= j < at + |src| then src[j - at] else s[j]
  {
  }

  method CopyInto(a: array<byte>, at: nat, src: seq<byte>)
    requires at + |src| <= a.Length
    modifies a
    ensures a[..] == Put(old(a[..]), at, src)
  {
    for i := 0 to |src|
      invariant forall j :: 0 <= j < a.Length ==> a[j] == if at <= j < at + i then src[j - at] else old(a[j])
    {
      a[at + i] := src[i];
    }
    PutAt(old(a[..]), at, src);
  }
}

/** Directory entries in one block: the linked directory of "The Second Extended
    Filesystem". */
module Ext2Blocks {
  import opened Wrappers
  import opened Bytes

  /** sizeof(struct ext2_dirent): inode, rec_len, name_len, file_type. */
  const HEADER: nat := 8

  /** PAD(num): up to a multiple of four. */
  function Pad(num: nat): (r: nat)
    ensures r % 4 == 0 && num <= r < num + 4
  {
    (num + 3) / 4 * 4
  }

  datatype Dirent = Dirent(inode: nat, name: seq<byte>, fileType: byte)

  function Inode(b: seq<byte>, at: nat): nat requires at + HEADER <= |b| { U32(b, at) }
  function RecLen(b: seq<byte>, at: nat): nat requires at + HEADER <= |b| { U16(b, at + 4) }
  function NameLen(b: seq<byte>, at: nat): nat requires at + HEADER <= |b| { b[at + 6] }

  /** What an entry needs for itself. */
  function MinSize(b: seq<byte>, at: nat): nat
    requires at + HEADER <= |b|
  {
    Pad(NameLen(b, at) + HEADER)
  }

  /** A well-formed entry: in use, aligned, and with room for its own name. */
  predicate Entry(b: seq<byte>, at: nat) {
    && at + HEADER <= |b| && Inode(b, at) != 0
    && RecLen(b, at) % 4 == 0 && MinSize(b, at) <= RecLen(b, at) && at + RecLen(b, at) <= |b|
  }

  /** From offset `at` to its end the block is exactly covered by entries. */
  ghost predicate Tiled(b: seq<byte>, at: nat)
    decreases |b| - at
  {
    at == |b| || (at < |b| && Entry(b, at) && Tiled(b, at + RecLen(b, at)))
  }

  function DirentAt(b: seq<byte>, at: nat): Dirent
    requires Entry(b, at)
  {
    Dirent(Inode(b, at), b[at + HEADER..at + HEADER + NameLen(b, at)], b[at + 7])
  }

  /** The entries from offset `at` on: what ext2_dir_ls reports. */
  ghost function Entries(b: seq<byte>, at: nat): seq<Dirent>
    requires Tiled(b, at)
    decreases |b| - at
  {
    if at == |b| then [] else [DirentAt(b, at)] + Entries(b, at + RecLen(b, at))
  }

  /** The first entry with `need` bytes to spare: its offset, and its number. */
  datatype Spot = Spot(at: nat, index: nat)

  ghost function Room(b: seq<byte>, at: nat, need: nat): (r: Option<Spot>)
    requires Tiled(b, at)
    ensures r.Some? ==>
      Entry(b, r.value.at) && RecLen(b, r.value.at) - MinSize(b, r.value.at) >= need && at <= r.value.at
    decreases |b| - at
  {
    if at == |b| then None
    else if RecLen(b, at) - MinSize(b, at) >= need then Some(Spot(at, 0))
    else match Room(b, at + RecLen(b, at), need)
      case None => None
      case Some(s) => Some(s.(index := s.index + 1))
  }

  /** The bytes of a new entry, without what lies behind its name. */
  function Record(e: Dirent, recLen: nat): (r: seq<byte>)
    requires e.inode < 0x1_0000_0000 && |e.name| < 256 && recLen < 0x1_0000
    ensures |r| == HEADER + |e.name|
  {
    Le32(e.inode) + Le16(recLen) + [|e.name|, e.fileType] + e.name
  }

  /** The entry at `at` shrunk to what it needs, and `e` put behind it. */
  function Spliced(b: seq<byte>, at: nat, e: Dirent): (r: seq<byte>)
    requires Entry(b, at) && e.inode < 0x1_0000_0000 && |e.name| < 256
    requires RecLen(b, at) - MinSize(b, at) >= Pad(|e.name| + HEADER)
    ensures |r| == |b|
  {
    var m := MinSize(b, at);
    Put(Put(b, at + 4, Le16(m)), at + m, Record(e, RecLen(b, at) - m))
  }

  // ----- splicing keeps a block well formed -----

  lemma Same32(b: seq<byte>, b': seq<byte>, at: nat, at': nat)
    requires at + 4 <= |b| && at' + 4 <= |b'|
    requires b'[at'] == b[at] && b'[at' + 1] == b[at + 1] && b'[at' + 2] == b[at + 2] && b'[at' + 3] == b[at + 3]
    ensures U32(b', at') == U32(b, at)
  {
  }

  /** An entry is read from its own bytes only. */
  lemma SameEntry(b: seq<byte>, b': seq<byte>, at: nat)
    requires |b'| == |b| && Entry(b, at) && forall j :: at <= j < at + RecLen(b, at) ==> b'[j] == b[j]
    ensures Entry(b', at) && RecLen(b', at) == RecLen(b, at) && MinSize(b', at) == MinSize(b, at)
    ensures DirentAt(b', at) == DirentAt(b, at)
  {
    assert b'[at + 0] == b[at + 0] && b'[at + 4] == b[at + 4] && b'[at + 5] == b[at + 5] && b'[at + 6] == b[at + 6]
      && b'[at + 7] == b[at + 7];
    Same32(b, b', at, at);
    assert b'[at + HEADER..at + HEADER + NameLen(b', at)] == b[at + HEADER..at + HEADER + NameLen(b, at)];
  }

  lemma {:induction false} SameTail(b: seq<byte>, b': seq<byte>, at: nat)
    requires |b'| == |b| && Tiled(b, at) && forall j :: at <= j < |b| ==> b'[j] == b[j]
    ensures Tiled(b', at) && Entries(b', at) == Entries(b, at)
    decreases |b| - at
  {
    if at < |b| {
      SameEntry(b, b', at);
      SameTail(b, b', at + RecLen(b, at));
    }
  }

  lemma RecordFields(e: Dirent, recLen: nat)
    requires e.inode < 0x1_0000_0000 && |e.name| < 256 && recLen < 0x1_0000
    ensures var r := Record(e, recLen);
      Inode(r, 0) == e.inode && RecLen(r, 0) == recLen && NameLen(r, 0) == |e.name| && r[7] == e.fileType
        && r[HEADER..] == e.name
  {
    var r := Record(e, recLen);
    var (i, l) := (Le32(e.inode), Le16(recLen));
    assert r[0] == i[0] && r[1] == i[1] && r[2] == i[2] && r[3] == i[3] && r[4] == l[0] && r[5] == l[1];
  }

  /** Where the entry was split there are now two, which together are as long. */
  lemma SplitEntry(b: seq<byte>, at: nat, e: Dirent)
    requires Entry(b, at) && 0 < e.inode < 0x1_0000_0000 && |e.name| < 256
    requires RecLen(b, at) - MinSize(b, at) >= Pad(|e.name| + HEADER)
    ensures var (b', m) := (Spliced(b, at, e), MinSize(b, at));
      && Entry(b', at) && RecLen(b', at) == m && DirentAt(b', at) == DirentAt(b, at)
      && Entry(b', at + m) && at + m + RecLen(b', at + m) == at + RecLen(b, at) && DirentAt(b', at + m) == e
  {
    var (b', m) := (Spliced(b, at, e), MinSize(b, at));
    FirstHalf(b, at, e);
    SecondHalf(b, at, e);
  }

  lemma SplicedAt(b: seq<byte>, at: nat, e: Dirent)
    requires Entry(b, at) && e.inode < 0x1_0000_0000 && |e.name| < 256
    requires RecLen(b, at) - MinSize(b, at) >= Pad(|e.name| + HEADER)
    ensures var (b', m) := (Spliced(b, at, e), MinSize(b, at));
      var r := Record(e, RecLen(b, at) - m);
      && (forall j :: 0 <= j < |b| && !(at + 4 <= j < at + 6) && !(at + m <= j < at + m + |r|) ==> b'[j] == b[j])
      && (forall j :: 0 <= j < |r| ==> b'[at + m + j] == r[j])
      && b'[at + 4] == Le16(m)[0] && b'[at + 5] == Le16(m)[1]
  {
    hide Put, Record, Le16, Pad, U16, U32;
    var m := MinSize(b, at);
    PutTwice(b, at + 4, Le16(m), at + m, Record(e, RecLen(b, at) - m));
  }

  lemma PutTwice(b: seq<byte>, x: nat, p: seq<byte>, y: nat, q: seq<byte>)
    requires x + |p| <= y && y + |q| <= |b|
    ensures var b' := Put(Put(b, x, p), y, q);
      && (forall j :: 0 <= j < |b| && !(x <= j < x + |p|) && !(y <= j < y + |q|) ==> b'[j] == b[j])
      && (forall j :: 0 <= j < |q| ==> b'[y + j] == q[j]) && (forall j :: 0 <= j < |p| ==> b'[x + j] == p[j])
  {
    hide Put;
    PutAt(b, x, p);
    PutAt(Put(b, x, p), y, q);
    var b' := Put(Put(b, x, p), y, q);
    forall j | 0 <= j < |q| ensures b'[y + j] == q[j] { assert y + j - y == j; }
    forall j | 0 <= j < |p| ensures b'[x + j] == p[j] { assert x + j - x == j; }
  }

  lemma FirstHalf(b: seq<byte>, at: nat, e: Dirent)
    requires Entry(b, at) && e.inode < 0x1_0000_0000 && |e.name| < 256
    requires RecLen(b, at) - MinSize(b, at) >= Pad(|e.name| + HEADER)
    ensures var (b', m) := (Spliced(b, at, e), MinSize(b, at));
      Entry(b', at) && RecLen(b', at) == m && DirentAt(b', at) == DirentAt(b, at)
  {
    hide Spliced, Record;
    var (b', m) := (Spliced(b, at, e), MinSize(b, at));
    SplicedAt(b, at, e);
    Same32(b, b', at, at);
    assert b'[at + 6] == b[at + 6] && b'[at + 7] == b[at + 7];
    assert RecLen(b', at) == U16(Le16(m), 0);
    assert b'[at + HEADER..at + HEADER + NameLen(b', at)] == b[at + HEADER..at + HEADER + NameLen(b, at)];
  }

  lemma SameSlice(b: seq<byte>, at: nat, r: seq<byte>, from: nat, n: nat)
    requires at == n + from && n + |r| <= |b| && from <= |r| && forall j :: 0 <= j < |r| ==> b[n + j] == r[j]
    ensures b[at..n + |r|] == r[from..]
  {
    forall k | 0 <= k < |r| - from ensures b[at..n + |r|][k] == r[from..][k] {
      assert b[n + (from + k)] == r[from + k];
    }
  }

  lemma SecondHalf(b: seq<byte>, at: nat, e: Dirent)
    requires Entry(b, at) && 0 < e.inode < 0x1_0000_0000 && |e.name| < 256
    requires RecLen(b, at) - MinSize(b, at) >= Pad(|e.name| + HEADER)
    ensures var (b', m) := (Spliced(b, at, e), MinSize(b, at));
      Entry(b', at + m) && RecLen(b', at + m) == RecLen(b, at) - m && DirentAt(b', at + m) == e
  {
    hide Spliced, Record, Inode, RecLen, NameLen, Pad, Le16, U16;
    var (b', m) := (Spliced(b, at, e), MinSize(b, at));
    var len := RecLen(b, at) - m;
    assert RecLen(b, at) < 0x1_0000 by { RecLenFits(b, at); }
    SplicedAt(b, at, e);
    RecordFields(e, len);
    RecordEntry(b', at + m, e, len);
    MultipleOfFour(RecLen(b, at), m);
  }

  lemma RecLenFits(b: seq<byte>, at: nat)
    requires at + HEADER <= |b|
    ensures RecLen(b, at) < 0x1_0000
  {
  }

  lemma MultipleOfFour(a: nat, b: nat)
    requires a % 4 == 0 && b % 4 == 0 && b <= a
    ensures (a - b) % 4 == 0
  {
  }

  /** A record with room for its name is an entry that says what it was made from. */
  lemma RecordEntry(b: seq<byte>, n: nat, e: Dirent, len: nat)
    requires 0 < e.inode < 0x1_0000_0000 && |e.name| < 256 && len < 0x1_0000
    requires n + HEADER + |e.name| <= |b|
    requires forall j :: 0 <= j < HEADER + |e.name| ==> b[n + j] == Record(e, len)[j]
    ensures Inode(b, n) == e.inode && RecLen(b, n) == len && MinSize(b, n) == Pad(|e.name| + HEADER)
    ensures Pad(|e.name| + HEADER) <= len && len % 4 == 0 && n + len <= |b| ==> Entry(b, n) && DirentAt(b, n) == e
  {
    hide Record, Inode, RecLen, Pad, U16;
    RecordFields(e, len);
    FieldsAt(b, n, Record(e, len));
  }

  /** A record reads the same wherever it stands. */
  lemma FieldsAt(b: seq<byte>, n: nat, r: seq<byte>)
    requires HEADER <= |r| && n + |r| <= |b| && forall j :: 0 <= j < |r| ==> b[n + j] == r[j]
    ensures Inode(b, n) == Inode(r, 0) && RecLen(b, n) == RecLen(r, 0) && NameLen(b, n) == NameLen(r, 0)
    ensures b[n + 7] == r[7]
    ensures b[n + HEADER..n + |r|] == r[HEADER..]
  {
    assert b[n + 0] == r[0] && b[n + 1] == r[1] && b[n + 2] == r[2] && b[n + 3] == r[3];
    assert b[n + 4] == r[4] && b[n + 5] == r[5] && b[n + 6] == r[6] && b[n + 7] == r[7];
    Same32(r, b, 0, n);
    SameSlice(b, n + HEADER, r, HEADER, n);
  }

  lemma EntryFacts(b: seq<byte>, at: nat)
    requires Tiled(b, at) && at < |b|
    ensures Entry(b, at) && at + HEADER <= |b| && HEADER <= MinSize(b, at) <= RecLen(b, at) < 0x1_0000
    ensures at + RecLen(b, at) <= |b| && Tiled(b, at + RecLen(b, at))
  {
  }

  lemma EntriesStep(b: seq<byte>, at: nat)
    requires at < |b| && Entry(b, at) && Tiled(b, at + RecLen(b, at))
    ensures Tiled(b, at) && Entries(b, at) == [DirentAt(b, at)] + Entries(b, at + RecLen(b, at))
  {
  }

  /** Splicing at the first entry with room keeps the block tiled, and lists the new
      entry right behind the one that was split. */
  lemma {:induction false} SpliceLists(b: seq<byte>, at: nat, e: Dirent)
    requires Tiled(b, at) && 0 < e.inode < 0x1_0000_0000 && |e.name| < 256 && Room(b, at, Pad(|e.name| + HEADER)).Some?
    ensures var spot := Room(b, at, Pad(|e.name| + HEADER)).value; var was := Entries(b, at);
      && Tiled(Spliced(b, spot.at, e), at) && spot.index < |was|
      && Entries(Spliced(b, spot.at, e), at) == was[..spot.index + 1] + [e] + was[spot.index + 1..]
    decreases |b| - at
  {
    hide Spliced, DirentAt, Entry, RecLen, MinSize, Pad;
    EntryFacts(b, at);
    var spot := Room(b, at, Pad(|e.name| + HEADER)).value;
    if spot.at == at {
      SpliceHere(b, at, e);
    } else {
      var next := at + RecLen(b, at);
      SpliceLists(b, next, e);
      SplicedAt(b, spot.at, e);
      SpliceLater(b, Spliced(b, spot.at, e), at, e, spot.index - 1);
    }
  }

  lemma SpliceLater(b: seq<byte>, b': seq<byte>, at: nat, e: Dirent, k: nat)
    requires Tiled(b, at) && at < |b| && |b'| == |b| && forall j :: at <= j < at + RecLen(b, at) ==> b'[j] == b[j]
    requires var next := at + RecLen(b, at); var rest := Entries(b, next);
      Tiled(b', next) && k < |rest| && Entries(b', next) == rest[..k + 1] + [e] + rest[k + 1..]
    ensures var was := Entries(b, at);
      Tiled(b', at) && k + 1 < |was| && Entries(b', at) == was[..k + 2] + [e] + was[k + 2..]
  {
    hide DirentAt, Entry, Tiled, Entries, RecLen, MinSize;
    EntryFacts(b, at);
    SameEntry(b, b', at);
    EntriesStep(b, at);
    EntriesStep(b', at);
    var d, was, rest := [DirentAt(b, at)], Entries(b, at), Entries(b, at + RecLen(b, at));
    assert was[..k + 2] == d + rest[..k + 1] && was[k + 2..] == rest[k + 1..];
  }

  lemma SpliceHere(b: seq<byte>, at: nat, e: Dirent)
    requires Tiled(b, at) && at < |b| && 0 < e.inode < 0x1_0000_0000 && |e.name| < 256
    requires RecLen(b, at) - MinSize(b, at) >= Pad(|e.name| + HEADER)
    ensures var b' := Spliced(b, at, e);
      && Tiled(b', at) && Entries(b, at) != []
      && Entries(b', at) == Entries(b, at)[..1] + [e] + Entries(b, at)[1..]
  {
    hide Spliced, DirentAt, Entry, Pad, Tiled, Entries, MinSize, RecLen;
    EntryFacts(b, at);
    var b', m, tail := Spliced(b, at, e), MinSize(b, at), at + RecLen(b, at);
    SplicedAt(b, at, e);
    SplitEntry(b, at, e);
    SameTail(b, b', tail);
    EntriesStep(b', at + m);
    EntriesStep(b', at);
    EntriesStep(b, at);
    assert Entries(b, at)[..1] == [DirentAt(b, at)] && Entries(b, at)[1..] == Entries(b, tail);
  }

  lemma RoomStep(b: seq<byte>, at: nat, need: nat)
    requires Tiled(b, at)
    ensures Room(b, at, need) ==
      if at == |b| then None
      else if RecLen(b, at) - MinSize(b, at) >= need then Some(Spot(at, 0))
      else Later(Room(b, at + RecLen(b, at), need), 1)
  {
    hide RecLen, MinSize;
  }

  /** Where the entries of a block begin. */
  ghost function Starts(b: seq<byte>, at: nat): seq<nat>
    requires Tiled(b, at)
    decreases |b| - at
  {
    if at == |b| then [] else [at] + Starts(b, at + RecLen(b, at))
  }

  /** An entry has `need` bytes more than its header and its name, filled up to a multiple
      of four. */
  ghost predicate Spare(b: seq<byte>, at: nat, need: nat) {
    at + 8 <= |b| && (b[at + 6] as int + 8 + 3) / 4 * 4 + need <= b[at + 4] as int + 256 * (b[at + 5] as int)
  }

  /** `r` is the first of the `starts` with enough to spare, or none if none has. */
  ghost predicate FirstSpare(b: seq<byte>, starts: seq<nat>, r: Option<Spot>, need: nat) {
    match r
    case None => forall k :: 0 <= k < |starts| ==> !Spare(b, starts[k], need)
    case Some(s) =>
      && s.index < |starts| && starts[s.index] == s.at && Spare(b, s.at, need)
      && forall k :: 0 <= k < s.index ==> !Spare(b, starts[k], need)
  }

  lemma {:induction false} RoomFirst(b: seq<byte>, at: nat, need: nat)
    requires Tiled(b, at)
    ensures FirstSpare(b, Starts(b, at), Room(b, at, need), need)
    decreases |b| - at
  {
    hide Spare, Tiled, Room, FirstSpare, RecLen, MinSize;
    TiledWithin(b, at);
    RoomStep(b, at, need);
    if at < |b| {
      EntryFacts(b, at);
      SpareIs(b, at, need);
      RoomFirst(b, at + RecLen(b, at), need);
      FirstStep(b, at, Starts(b, at + RecLen(b, at)), Room(b, at + RecLen(b, at), need), need);
    } else {
      NoStarts(b);
      NoSpare(b, need);
    }
  }

  lemma FirstStep(b: seq<byte>, at: nat, rest: seq<nat>, r: Option<Spot>, need: nat)
    requires FirstSpare(b, rest, r, need)
    ensures FirstSpare(b, [at] + rest, if Spare(b, at, need) then Some(Spot(at, 0)) else Later(r, 1), need)
  {
    hide Spare;
    assert forall k :: 1 <= k < 1 + |rest| ==> ([at] + rest)[k] == rest[k - 1];
  }

  lemma NoSpare(b: seq<byte>, need: nat)
    ensures FirstSpare(b, [], None, need)
  {
  }

  lemma SpareIs(b: seq<byte>, at: nat, need: nat)
    requires at + HEADER <= |b|
    ensures Spare(b, at, need) <==> RecLen(b, at) - MinSize(b, at) >= need
  {
  }

  lemma TiledWithin(b: seq<byte>, at: nat)
    requires Tiled(b, at)
    ensures at <= |b|
  {
  }

  lemma NoStarts(b: seq<byte>)
    ensures Tiled(b, |b|) && Starts(b, |b|) == []
  {
  }

  // ----- the loop over a block -----

  method ReadSizes(buffer: array<byte>, ent: nat) returns (recLen: nat, thisMin: nat)
    requires ent + HEADER <= buffer.Length
    ensures recLen == RecLen(buffer[..], ent) && thisMin == MinSize(buffer[..], ent)
  {
    recLen := (buffer[ent + 4] as int) + 256 * (buffer[ent + 5] as int);
    thisMin := Pad((buffer[ent + 6] as int) + HEADER);
  }

  /** One block of ext2_insert_into_dir: `buffer` is searched and spliced in place. */
  method InsertIntoBlock(buffer: array<byte>, e: Dirent) returns (found: bool, ghost spot: Option<Spot>)
    requires Tiled(buffer[..], 0) && 0 < e.inode < 0x1_0000_0000 && |e.name| < 256
    modifies buffer
    ensures spot == Room(old(buffer[..]), 0, Pad(|e.name| + HEADER)) && found == spot.Some?
    ensures buffer[..] == if found then Spliced(old(buffer[..]), spot.value.at, e) else old(buffer[..])
  {
    hide Entry, Pad, Record, Put, RecLen, MinSize, Le16, Tiled, Room;
    var minSize := Pad(|e.name| + HEADER);
    ghost var b := buffer[..];
    var ent: nat := 0;
    ghost var seen := 0;
    while ent < buffer.Length
      invariant ent <= buffer.Length && buffer[..] == b && Tiled(b, ent)
      invariant Room(b, 0, minSize) == Later(Room(b, ent, minSize), seen)
      decreases buffer.Length - ent
    {
      EntryFacts(b, ent);
      RoomStep(b, ent, minSize);
      var recLen, thisMin := ReadSizes(buffer, ent);
      if recLen - thisMin >= minSize {
        CopyInto(buffer, ent + 4, Le16(thisMin));
        CopyInto(buffer, ent + thisMin, Record(e, recLen - thisMin));
        found, spot := true, Room(b, 0, minSize);
        return;
      }
      ent := ent + recLen;
      seen := seen + 1;
    }
    RoomStep(b, ent, minSize);
    found, spot := false, None;
  }

  ghost function Later(r: Option<Spot>, n: nat): Option<Spot> {
    match r
    case None => None
    case Some(s) => Some(s.(index := s.index + n))
  }
}
