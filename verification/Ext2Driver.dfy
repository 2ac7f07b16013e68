/** The driver's operations on the disk, and what a hard link does. */
module Ext2Driver {
  import opened Wrappers
  import opened Bytes
  import opened Ext2Blocks
  import opened Ext2Disk
  import opened Ext2Dir

  ghost function DirBlocks(blocks: seq<seq<byte>>, dir: Raw): seq<seq<byte>>
    requires NumBlocks(dir) <= 12 && forall i :: 0 <= i < NumBlocks(dir) ==> BlockNo(dir, i) < |blocks|
  {
    seq(NumBlocks(dir), i requires 0 <= i < NumBlocks(dir) => blocks[BlockNo(dir, i)])
  }

  /** A directory all of whose blocks the driver can reach, and which are well formed. */
  ghost predicate DirOk(sb: Super, blocks: seq<seq<byte>>, dir: Raw) {
    && IsDir(dir) && 1 <= NumBlocks(dir) <= 12
    && (forall i :: 0 <= i < NumBlocks(dir) ==> BlockNo(dir, i) < |blocks| && |blocks[BlockNo(dir, i)]| == sb.blockSize)
    && (forall i, j :: 0 <= i < j < NumBlocks(dir) ==> BlockNo(dir, i) != BlockNo(dir, j))
    && AllTiled(DirBlocks(blocks, dir))
  }

  ghost function List(sb: Super, blocks: seq<seq<byte>>, dir: Raw): seq<Dirent>
    requires DirOk(sb, blocks, dir)
  {
    Listing(DirBlocks(blocks, dir))
  }

  /** The directory shares no block with the inode tables and the descriptors. */
  ghost predicate Apart(sb: Super, blocks: seq<seq<byte>>, groups: nat, dir: Raw)
    requires sb.Ok() && NumBlocks(dir) <= 12
  {
    forall i, g :: 0 <= i < NumBlocks(dir) && 0 <= g < groups ==>
      !InTable(sb, blocks, g, BlockNo(dir, i)) && !HoldsDescriptor(sb, g, BlockNo(dir, i))
  }

  /** The disk after ext2_insert_into_dir.  Without room the loop ends past the last
      block, and the last buffer is written to the block number that follows. */
  ghost function AfterInsert(sb: Super, blocks: seq<seq<byte>>, dir: Raw, e: Dirent): seq<seq<byte>>
    requires DirOk(sb, blocks, dir) && Nameable(e)
  {
    var (bs, n) := (DirBlocks(blocks, dir), NumBlocks(dir));
    match DirRoom(bs, Pad(|e.name| + HEADER))
    case Some((i, spot)) => blocks[BlockNo(dir, i) := Spliced(bs[i], spot.at, e)]
    case None => if n < 12 && BlockNo(dir, n) < |blocks| then blocks[BlockNo(dir, n) := bs[n - 1]] else blocks
  }

  function Cut(name: seq<byte>): seq<byte> { if |name| > 255 then name[..255] else name }

  /** The new entry of a hard link to inode `number`. */
  ghost function NewEntry(sb: Super, blocks: seq<seq<byte>>, groups: nat, name: seq<byte>, number: nat): Dirent
    requires sb.Ok() && Layout(sb, blocks, groups) && Numbered(sb, groups, number)
  {
    Dirent(number, Cut(name), FileTypeOf(Mode(Find(sb, blocks, groups, number))))
  }

  // ----- what writes leave alone -----

  lemma DirWrite(sb: Super, blocks: seq<seq<byte>>, dir: Raw, i: nat, content: seq<byte>)
    requires DirOk(sb, blocks, dir) && i < NumBlocks(dir) && |content| == sb.blockSize && Tiled(content, 0)
    ensures var blocks' := blocks[BlockNo(dir, i) := content];
      DirOk(sb, blocks', dir) && DirBlocks(blocks', dir) == DirBlocks(blocks, dir)[i := content]
  {
    hide Tiled;
    var blocks' := blocks[BlockNo(dir, i) := content];
    assert DirBlocks(blocks', dir) == DirBlocks(blocks, dir)[i := content];
  }

  /** Storing an inode leaves the directory as it is. */
  lemma StoredApart(sb: Super, blocks: seq<seq<byte>>, groups: nat, dir: Raw, number: nat, in_: Raw)
    requires sb.Ok() && Layout(sb, blocks, groups) && Numbered(sb, groups, number)
    requires DirOk(sb, blocks, dir) && Apart(sb, blocks, groups, dir)
    ensures var blocks' := Stored(sb, blocks, groups, number, in_);
      && |blocks'| == |blocks| && DirOk(sb, blocks', dir) && DirBlocks(blocks', dir) == DirBlocks(blocks, dir)
      && Layout(sb, blocks', groups) && Apart(sb, blocks', groups, dir)
  {
    hide Tiled, Layout, InodeTable, HoldsDescriptor, PlaceOf;
    PlaceInTable(sb, blocks, groups, number);
    OutsideDescriptors(sb, blocks, groups, number);
    var p := PlaceOf(sb, blocks, number).value;
    var content := Put(blocks[p.block], 128 * p.index, in_);
    LayoutStays(sb, blocks, groups, p.block, content);
    var blocks' := Stored(sb, blocks, groups, number, in_);
    forall i | 0 <= i < NumBlocks(dir) ensures blocks'[BlockNo(dir, i)] == blocks[BlockNo(dir, i)] {
      assert !InTable(sb, blocks, Group(sb, number), BlockNo(dir, i));
    }
    assert DirBlocks(blocks', dir) == DirBlocks(blocks, dir);
    assert forall g, b: nat :: 0 <= g < groups ==> InTable(sb, blocks', g, b) == InTable(sb, blocks, g, b);
  }

  // ----- hard links -----

  ghost predicate Linkable(sb: Super, blocks: seq<seq<byte>>, groups: nat, dir: Raw, number: nat) {
    && sb.Ok() && Layout(sb, blocks, groups) && Numbered(sb, groups, number) && number < 0x1_0000_0000
    && DirOk(sb, blocks, dir) && Apart(sb, blocks, groups, dir)
  }

  /** The disk after a hard link was made. */
  ghost function Linked(sb: Super, blocks: seq<seq<byte>>, groups: nat, dir: Raw, name: seq<byte>,
                        number: nat): seq<seq<byte>>
    requires Linkable(sb, blocks, groups, dir, number)
  {
    var in_ := OneMoreLink(Find(sb, blocks, groups, number));
    StoredApart(sb, blocks, groups, dir, number, in_);
    AfterInsert(sb, Stored(sb, blocks, groups, number, in_), dir, NewEntry(sb, blocks, groups, name, number))
  }

  ghost predicate HasRoom(sb: Super, blocks: seq<seq<byte>>, dir: Raw, name: seq<byte>)
    requires DirOk(sb, blocks, dir)
  {
    DirRoom(DirBlocks(blocks, dir), Pad(|Cut(name)| + HEADER)).Some?
  }

  lemma NamesFit(b: seq<byte>, at: nat)
    requires Tiled(b, at)
    ensures forall e :: e in Entries(b, at) ==> |e.name| < 256
    decreases |b| - at
  {
    if at < |b| { NamesFit(b, at + RecLen(b, at)); }
  }

  lemma {:induction false} ListedNamesFit(bs: seq<seq<byte>>)
    requires AllTiled(bs)
    ensures forall e :: e in Listing(bs) ==> |e.name| < 256
  {
    if bs != [] {
      ListedNamesFit(bs[..|bs| - 1]);
      NamesFit(bs[|bs| - 1], 0);
    }
  }

  lemma ListNamesFit(sb: Super, blocks: seq<seq<byte>>, dir: Raw)
    requires DirOk(sb, blocks, dir)
    ensures NumBlocks(dir) <= 12 && (forall i :: 0 <= i < NumBlocks(dir) ==> BlockNo(dir, i) < |blocks|)
    ensures AllTiled(DirBlocks(blocks, dir))
    ensures forall e :: e in List(sb, blocks, dir) ==> |e.name| < 256
  {
    hide Tiled, Listing;
    ListedNamesFit(DirBlocks(blocks, dir));
  }

  /** What a hard link under a new name does to the directory, when there is room. */
  lemma LinkedList(sb: Super, blocks: seq<seq<byte>>, groups: nat, dir: Raw, name: seq<byte>, number: nat)
    requires Linkable(sb, blocks, groups, dir, number) && HasRoom(sb, blocks, dir, name)
    ensures var (blocks', k) := (Linked(sb, blocks, groups, dir, name, number),
                                 DirIndex(DirBlocks(blocks, dir), Pad(|Cut(name)| + HEADER)));
      && DirOk(sb, blocks', dir) && k < |List(sb, blocks, dir)|
      && List(sb, blocks', dir) == List(sb, blocks, dir)[..k + 1] + [NewEntry(sb, blocks, groups, name,
          number)] + List(sb, blocks, dir)[k + 1..]
  {
    hide Layout, Apart, Find, Stored, Tiled, Spliced, Listing, Entries, Pad, Room, DirIndex;
    var in_, e := OneMoreLink(Find(sb, blocks, groups, number)), NewEntry(sb, blocks, groups, name, number);
    StoredApart(sb, blocks, groups, dir, number, in_);
    var stored, bs := Stored(sb, blocks, groups, number, in_), DirBlocks(blocks, dir);
    var (i, spot) := DirRoom(bs, Pad(|e.name| + HEADER)).value;
    InsertedLists(bs, e);
    assert Inserted(bs, e)[i] == Spliced(bs[i], spot.at, e);
    DirWrite(sb, stored, dir, i, Spliced(bs[i], spot.at, e));
  }

  /** Link, then find: the new name gives the linked inode, every listed name still gives
      what it gave, the target counts one link more, and no other inode changed. */
  lemma LinkThenFind(sb: Super, blocks: seq<seq<byte>>, groups: nat, dir: Raw, name: seq<byte>, number: nat, m: nat)
    requires Linkable(sb, blocks, groups, dir, number) && HasRoom(sb, blocks, dir, name) && Numbered(sb, groups, m)
    requires FirstMatch(List(sb, blocks, dir), name).None?
    ensures var blocks' := Linked(sb, blocks, groups, dir, name, number);
      && DirOk(sb, blocks', dir) && Layout(sb, blocks', groups)
      && Lookup(List(sb, blocks', dir), name) == number
      && (forall d :: d in List(sb, blocks, dir) ==>
            Lookup(List(sb, blocks', dir), d.name) == Lookup(List(sb, blocks, dir), d.name))
      && Links(Find(sb, blocks', groups, number)) == (Links(Find(sb, blocks, groups, number)) + 1) % 0x1_0000
      && (m != number ==> Find(sb, blocks', groups, m) == Find(sb, blocks, groups, m))
  {
    hide Layout, Apart, Find, Stored, Tiled, Spliced, Listing, Entries, Pad, Room, DirIndex, Linked, DirOk, DirRoom,
         FirstMatch, Lookup, Links;
    LinkedList(sb, blocks, groups, dir, name, number);
    ListNamesFit(sb, blocks, dir);
    NewNameFound(List(sb, blocks, dir), DirIndex(DirBlocks(blocks, dir), Pad(|Cut(name)| + HEADER)),
                 NewEntry(sb, blocks, groups, name, number), name);
    LinkedInodes(sb, blocks, groups, dir, name, number, number);
    LinkedInodes(sb, blocks, groups, dir, name, number, m);
  }

  lemma LinkedInodes(sb: Super, blocks: seq<seq<byte>>, groups: nat, dir: Raw, name: seq<byte>, number: nat, m: nat)
    requires Linkable(sb, blocks, groups, dir, number) && HasRoom(sb, blocks, dir, name) && Numbered(sb, groups, m)
    ensures var blocks' := Linked(sb, blocks, groups, dir, name, number);
      && Layout(sb, blocks', groups)
      && Find(sb, blocks', groups, m) == if m == number then OneMoreLink(Find(sb, blocks, groups, number))
        else Find(sb, blocks, groups, m)
  {
    hide Layout, Stored, Tiled, Spliced, Pad, Room, Find;
    var in_ := OneMoreLink(Find(sb, blocks, groups, number));
    StoredApart(sb, blocks, groups, dir, number, in_);
    StoreFind(sb, blocks, groups, number, in_, m);
    var stored, e := Stored(sb, blocks, groups, number, in_), NewEntry(sb, blocks, groups, name, number);
    var (i, spot) := DirRoom(DirBlocks(stored, dir), Pad(|e.name| + HEADER)).value;
    DirWriteKeeps(sb, stored, groups, dir, i, Spliced(DirBlocks(stored, dir)[i], spot.at, e), m);
  }

  /** Writing a directory block changes no inode. */
  lemma DirWriteKeeps(sb: Super, blocks: seq<seq<byte>>, groups: nat, dir: Raw, i: nat, content: seq<byte>, m: nat)
    requires sb.Ok() && Layout(sb, blocks, groups) && NumBlocks(dir) <= 12 && Apart(sb, blocks, groups, dir)
    requires i < NumBlocks(dir) && BlockNo(dir, i) < |blocks| && |content| == sb.blockSize && Numbered(sb, groups, m)
    ensures Layout(sb, blocks[BlockNo(dir, i) := content], groups)
    ensures Find(sb, blocks[BlockNo(dir, i) := content], groups, m) == Find(sb, blocks, groups, m)
  {
    hide Layout, InodeTable, HoldsDescriptor, PlaceOf, InTable;
    var b := BlockNo(dir, i);
    LayoutStays(sb, blocks, groups, b, content);
    SamePlace(sb, blocks, blocks[b := content], groups, m);
    PlaceInTable(sb, blocks, groups, m);
    assert !InTable(sb, blocks, Group(sb, m), b);
  }

  lemma NoneMatches(name: seq<byte>)
    ensures FirstMatch([], name).None?
  {
  }

  /** Nothing matches in a listing exactly if nothing matches in any block. */
  lemma {:induction false} NoMatchInBlocks(bs: seq<seq<byte>>, name: seq<byte>)
    requires AllTiled(bs)
    ensures FirstMatch(Listing(bs), name).None? <==> forall i :: 0 <= i < |bs| ==>
      FirstMatch(Entries(bs[i], 0), name).None?
  {
    hide Tiled, Entries, Matches, FirstMatch;
    if bs == [] {
      assert Listing(bs) == [] && FirstMatch([], name).None? by { NoneMatches(name); }
    } else {
      var front := bs[..|bs| - 1];
      NoMatchInBlocks(front, name);
      ListingStep(bs);
      FirstMatchConcat(Listing(front), Entries(bs[|bs| - 1], 0), name);
      assert forall i :: 0 <= i < |front| ==> front[i] == bs[i];
      assert forall i :: 0 <= i < |bs| ==> i == |bs| - 1 || bs[i] == front[i];
    }
  }

  /** The disk after the inode of a hard link was stored, and before the insertion. */
  ghost function Counted(sb: Super, blocks: seq<seq<byte>>, groups: nat, number: nat): seq<seq<byte>>
    requires sb.Ok() && Layout(sb, blocks, groups) && Numbered(sb, groups, number)
  {
    Stored(sb, blocks, groups, number, OneMoreLink(Find(sb, blocks, groups, number)))
  }

  /** Without room the link is reported as made, but the name is not in the directory, and
      the block whose number follows those of the directory, usually block 0, is
      overwritten with the last directory block. */
  lemma LinkWithoutRoom(sb: Super, blocks: seq<seq<byte>>, groups: nat, dir: Raw, name: seq<byte>, number: nat)
    requires Linkable(sb, blocks, groups, dir, number) && !HasRoom(sb, blocks, dir, name)
    requires FirstMatch(List(sb, blocks, dir), name).None?
    ensures var blocks' := Linked(sb, blocks, groups, dir, name, number);
      DirOk(sb, blocks', dir) && Lookup(List(sb, blocks', dir), name) == 0
    ensures var (stored, n) := (Counted(sb, blocks, groups, number), NumBlocks(dir));
      Linked(sb, blocks, groups, dir, name, number) ==
        if n < 12 && BlockNo(dir, n) < |stored| then stored[BlockNo(dir, n) := DirBlocks(blocks, dir)[n - 1]]
          else stored
  {
    hide Layout, Apart, Find, Stored, Tiled, Entries, Listing, Pad, Room, BlockNo, DirRoom, FirstMatch;
    var in_ := OneMoreLink(Find(sb, blocks, groups, number));
    StoredApart(sb, blocks, groups, dir, number, in_);
    var stored, bs, n := Stored(sb, blocks, groups, number, in_), DirBlocks(blocks, dir), NumBlocks(dir);
    var blocks' := Linked(sb, blocks, groups, dir, name, number);
    assert blocks' == if n < 12 && BlockNo(dir, n) < |stored| then stored[BlockNo(dir, n) := bs[n - 1]] else stored;
    CopiedBlock(sb, stored, blocks', dir, bs[n - 1]);
    NoMatchInBlocks(bs, name);
    NoMatchInBlocks(DirBlocks(blocks', dir), name);
  }

  /** What that does to the inodes: nothing exactly if the directory block repeats the
      inodes and table numbers of the block it overwrites. */
  lemma WithoutRoomSpares(sb: Super, blocks: seq<seq<byte>>, groups: nat, dir: Raw, name: seq<byte>, number: nat)
    requires Linkable(sb, blocks, groups, dir, number) && !HasRoom(sb, blocks, dir, name)
    requires FirstMatch(List(sb, blocks, dir), name).None?
    requires NumBlocks(dir) < 12 && BlockNo(dir, NumBlocks(dir)) < |blocks|
    ensures var (stored, n) := (Counted(sb, blocks, groups, number), NumBlocks(dir));
      && Layout(sb, stored, groups)
      && (SameInodes(sb, stored, Linked(sb, blocks, groups, dir, name, number), groups)
          <==> Spared(sb, stored, groups, BlockNo(dir, n), DirBlocks(blocks, dir)[n - 1]))
  {
    hide Layout, Find, Stored, Tiled, Spared, SameInodes, BlockNo, Linked;
    LinkWithoutRoom(sb, blocks, groups, dir, name, number);
    StoredApart(sb, blocks, groups, dir, number, OneMoreLink(Find(sb, blocks, groups, number)));
    var n := NumBlocks(dir);
    OverwriteSpares(sb, Counted(sb, blocks, groups, number), groups, BlockNo(dir, n), DirBlocks(blocks, dir)[n - 1]);
  }

  lemma CopiedBlock(sb: Super, blocks: seq<seq<byte>>, blocks': seq<seq<byte>>, dir: Raw, last: seq<byte>)
    requires DirOk(sb, blocks, dir) && last in DirBlocks(blocks, dir)
    requires var n := NumBlocks(dir);
      blocks' == if n < 12 && BlockNo(dir, n) < |blocks| then blocks[BlockNo(dir, n) := last] else blocks
    ensures DirOk(sb, blocks', dir)
    ensures forall i :: 0 <= i < NumBlocks(dir) ==> DirBlocks(blocks', dir)[i] in DirBlocks(blocks, dir)
  {
    hide Tiled, BlockNo;
    var bs := DirBlocks(blocks, dir);
    forall i | 0 <= i < NumBlocks(dir) ensures blocks'[BlockNo(dir, i)] in bs {
      assert bs[i] == blocks[BlockNo(dir, i)] && bs[i] in bs;
    }
    assert forall i :: 0 <= i < NumBlocks(dir) ==> DirBlocks(blocks', dir)[i] in bs;
  }

  // ----- loops over blocks -----

  lemma MatchStep(b: seq<byte>, at: nat, name: seq<byte>)
    requires Tiled(b, at) && at < |b|
    ensures Entry(b, at) && Tiled(b, at + RecLen(b, at))
    ensures FirstMatch(Entries(b, at), name) ==
      if Matches(DirentAt(b, at).name, name) then Some(DirentAt(b, at))
        else FirstMatch(Entries(b, at + RecLen(b, at)), name)
  {
    hide Matches, DirentAt, RecLen, FirstMatch;
    EntryFacts(b, at);
    EntriesStep(b, at);
    FirstMatchConcat([DirentAt(b, at)], Entries(b, at + RecLen(b, at)), name);
    FirstOfOne(DirentAt(b, at), name);
  }

  lemma NoEntries(b: seq<byte>, name: seq<byte>)
    ensures FirstMatch(Entries(b, |b|), name).None?
  {
  }

  lemma FirstOfOne(e: Dirent, name: seq<byte>)
    ensures FirstMatch([e], name) == if Matches(e.name, name) then Some(e) else None
  {
    assert FirstMatch([], name).None?;
  }

  lemma {:induction false} ListingPrefix(bs: seq<seq<byte>>, k: nat, name: seq<byte>)
    requires AllTiled(bs) && k <= |bs| && FirstMatch(Listing(bs[..k]), name).Some?
    ensures FirstMatch(Listing(bs), name) == FirstMatch(Listing(bs[..k]), name)
    decreases |bs|
  {
    if k == |bs| {
      assert bs[..k] == bs;
    } else {
      var front := bs[..|bs| - 1];
      assert front[..k] == bs[..k];
      ListingPrefix(front, k, name);
      FirstMatchConcat(Listing(front), Entries(bs[|bs| - 1], 0), name);
    }
  }

  lemma {:induction false} FirstRoom(bs: seq<seq<byte>>, need: nat, i: nat, spot: Option<Spot>)
    requires AllTiled(bs) && i <= |bs| && DirRoom(bs[..i], need).None?
    requires i < |bs| ==> Room(bs[i], 0, need) == spot && spot.Some?
    ensures DirRoom(bs, need) == if i < |bs| then Some((i, spot.value)) else None
    decreases |bs|
  {
    hide Tiled, Room;
    if i == |bs| {
      assert bs[..i] == bs;
    } else {
      var front := bs[..|bs| - 1];
      assert front[..i] == bs[..i];
      if i < |front| {
        FirstRoom(front, need, i, spot);
      } else {
        assert front == bs[..i];
      }
    }
  }

  lemma BlocksTiled(sb: Super, blocks: seq<seq<byte>>, dir: Raw, need: nat)
    requires DirOk(sb, blocks, dir)
    ensures NumBlocks(dir) <= 12 && forall i :: 0 <= i < NumBlocks(dir) ==> BlockNo(dir, i) < |blocks|
    ensures var bs := DirBlocks(blocks, dir);
      && |bs| == NumBlocks(dir) && (forall i :: 0 <= i < |bs| ==> bs[i] == blocks[BlockNo(dir, i)] && Tiled(bs[i], 0))
      && AllTiled(bs) && AllTiled(bs[..0]) && DirRoom(bs[..0], need).None?
  {
    hide Tiled;
  }

  lemma NoRoomStep(bs: seq<seq<byte>>, i: nat, need: nat)
    requires i < |bs| && AllTiled(bs[..i]) && DirRoom(bs[..i], need).None? && Tiled(bs[i], 0)
    requires Room(bs[i], 0, need).None?
    ensures AllTiled(bs[..i + 1]) && DirRoom(bs[..i + 1], need).None?
  {
    hide Tiled, Room;
    assert bs[..i + 1][..i] == bs[..i] && bs[..i + 1][i] == bs[i];
  }

  /** What the loop over the blocks ends with is what is written. */
  lemma InsertDone(sb: Super, blocks: seq<seq<byte>>, dir: Raw, e: Dirent, i: nat, spot: Option<Spot>,
                   buffer: seq<byte>)
    requires DirOk(sb, blocks, dir) && Nameable(e) && i <= NumBlocks(dir)
    requires var (bs, need) := (DirBlocks(blocks, dir), Pad(|e.name| + HEADER));
      && AllTiled(bs[..i]) && DirRoom(bs[..i], need).None?
      && (i < |bs| ==> spot == Room(bs[i], 0, need) && spot.Some? && buffer == Spliced(bs[i], spot.value.at, e))
      && (i == |bs| ==> buffer == bs[i - 1])
    ensures AfterInsert(sb, blocks, dir, e) == if i < 12 && BlockNo(dir, i) < |blocks| then
      blocks[BlockNo(dir, i) := buffer] else blocks
    ensures i >= 12 <==> NumBlocks(dir) == 12 && DirRoom(DirBlocks(blocks, dir), Pad(|e.name| + HEADER)).None?
  {
    hide Tiled, Room, Spliced, Pad, BlockNo;
    FirstRoom(DirBlocks(blocks, dir), Pad(|e.name| + HEADER), i, spot);
  }

  class Disk {
    const sb: Super
    var blocks: seq<seq<byte>>

    ghost predicate Valid()
      reads this
    {
      sb.Ok() && forall b :: 0 <= b < |blocks| ==> |blocks[b]| == sb.blockSize
    }

    constructor (sb: Super, blocks: seq<seq<byte>>)
      ensures this.sb == sb && this.blocks == blocks
    {
      this.sb, this.blocks := sb, blocks;
    }

    method ReadBlock(buffer: array<byte>, block: nat)
      requires Valid() && block < |blocks| && buffer.Length == sb.blockSize
      modifies buffer
      ensures buffer[..] == blocks[block]
    {
      CopyInto(buffer, 0, blocks[block]);
    }

    /** A write outside the disk has no effect in this model. */
    method WriteBlock(buffer: array<byte>, block: nat)
      requires Valid() && buffer.Length == sb.blockSize
      modifies this
      ensures Valid() && blocks == if block < |old(blocks)| then old(blocks)[block := buffer[..]] else old(blocks)
    {
      if block < |blocks| {
        blocks := blocks[block := buffer[..]];
      }
    }

    // ----- inodes -----

    /** ext2_load_bgd, down to the one field that is used. */
    method LoadInodeTable(group: nat) returns (table: nat)
      requires Valid() && InodeTable(sb, blocks, group).Some?
      ensures InodeTable(sb, blocks, group) == Some(table)
    {
      var bgdtBlock := 1;
      if sb.blockSize == 1024 {
        bgdtBlock := 2;
      }
      var hdPage := group / (512 / 32);
      var bgdOffset := group % (512 / 32);
      var lba := sb.blockSize / 512 * bgdtBlock + hdPage;
      var perBlock := sb.blockSize / 512;
      table := U32(blocks[lba / perBlock], lba % perBlock * 512 + bgdOffset * 32 + 8);
    }

    /** ext2_get_or_set_inode. */
    method GetOrSetInode(number: nat, in_: Raw, set_: bool, ghost groups: nat) returns (ok: bool, found: Raw)
      requires Valid() && Layout(sb, blocks, groups) && (number > 0 ==> Numbered(sb, groups, number))
      modifies this
      ensures Valid() && ok == (number > 0)
      ensures blocks == if ok && set_ then Stored(sb, old(blocks), groups, number, in_) else old(blocks)
      ensures ok && !set_ ==> found == Find(sb, blocks, groups, number)
    {
      found := in_;
      if number == 0 {
        return false, found;
      }
      var blockGroup := (number - 1) / sb.inodesPerGroup;
      var localIndex := (number - 1) % sb.inodesPerGroup;
      PlaceInTable(sb, blocks, groups, number);
      var table := LoadInodeTable(blockGroup);
      var inodeBlock := localIndex / sb.InodesPerBlock();
      var inodeIndex := localIndex % sb.InodesPerBlock();
      var buffer := new byte[sb.blockSize];
      ReadBlock(buffer, table + inodeBlock);
      if set_ {
        CopyInto(buffer, 128 * inodeIndex, in_);
        WriteBlock(buffer, table + inodeBlock);
      } else {
        found := buffer[128 * inodeIndex..128 * inodeIndex + 128];
      }
      ok := true;
    }

    // ----- directories -----

    /** The inner loop of ext2_dir_ls with the callback of the two lookups. */
    method LsBlock(buffer: array<byte>, name: seq<byte>) returns (r: Option<nat>)
      requires Tiled(buffer[..], 0)
      ensures var m := FirstMatch(Entries(buffer[..], 0), name); r == if m.Some? then Some(m.value.inode) else None
    {
      hide Entry, RecLen, MinSize, Matches, Inode, FirstMatch, Tiled, Entries, DirentAt;
      ghost var b := buffer[..];
      var ent: nat := 0;
      while ent < buffer.Length
        invariant ent <= |b| && Tiled(b, ent) && FirstMatch(Entries(b, 0), name) == FirstMatch(Entries(b, ent), name)
        decreases buffer.Length - ent
      {
        EntryFacts(b, ent);
        MatchStep(b, ent, name);
        var recLen, inode, same := LsEntry(buffer, ent, name);
        if same {
          return Some(inode);
        }
        ent := ent + recLen;
      }
      NoEntries(b, name);
      return None;
    }

    /** One entry, and whether strncmp finds its name equal. */
    method LsEntry(buffer: array<byte>, ent: nat, name: seq<byte>) returns (recLen: nat, inode: nat, same: bool)
      requires Entry(buffer[..], ent)
      ensures recLen == RecLen(buffer[..], ent) && inode == DirentAt(buffer[..], ent).inode
      ensures same == Matches(DirentAt(buffer[..], ent).name, name)
    {
      var thisMin;
      recLen, thisMin := ReadSizes(buffer, ent);
      inode := U32(buffer[..], ent);
      var len := buffer[ent + 6];
      var entName := buffer[..][ent + HEADER..ent + HEADER + len];
      var cmp := Strncmp(entName, name, MinLen(entName, name));
      same := cmp == 0;
    }

    /** ext2_dir_ls over all blocks, stopping where the callback stops. */
    method DirLs(dir: Raw, name: seq<byte>) returns (r: Option<nat>)
      requires Valid() && DirOk(sb, blocks, dir)
      ensures var m := FirstMatch(List(sb, blocks, dir), name); r == if m.Some? then Some(m.value.inode) else None
    {
      hide Tiled, Entries, Matches;
      ghost var bs := DirBlocks(blocks, dir);
      var buffer := new byte[sb.blockSize];
      var i := 0;
      assert bs[..0] == [];
      while i < NumBlocks(dir)
        invariant i <= NumBlocks(dir) && AllTiled(bs[..i]) && FirstMatch(Listing(bs[..i]), name).None?
      {
        ReadBlock(buffer, BlockNo(dir, i));
        assert bs[..i + 1][..i] == bs[..i] && bs[..i + 1][i] == bs[i] == buffer[..];
        ListingStep(bs[..i + 1]);
        FirstMatchConcat(Listing(bs[..i]), Entries(bs[i], 0), name);
        r := LsBlock(buffer, name);
        if r.Some? {
          ListingPrefix(bs, i + 1, name);
          return r;
        }
        i := i + 1;
      }
      assert bs[..i] == bs;
      r := None;
    }

    method DirContains(dir: Raw, name: seq<byte>) returns (found: bool)
      requires Valid() && (IsDir(dir) ==> DirOk(sb, blocks, dir))
      ensures found <==> IsDir(dir) && FirstMatch(List(sb, blocks, dir), name).Some?
    {
      if !IsDir(dir) {
        return false;
      }
      var r := DirLs(dir, name);
      found := r.Some?;
    }

    method DirFind(dir: Raw, name: seq<byte>) returns (inode: nat)
      requires Valid() && (IsDir(dir) ==> DirOk(sb, blocks, dir))
      ensures inode == if IsDir(dir) then Lookup(List(sb, blocks, dir), name) else 0
    {
      inode := 0;
      if IsDir(dir) {
        var r := DirLs(dir, name);
        if r.Some? {
          inode := r.value;
        }
      }
    }

    /** ext2_insert_into_dir; `panicked` is the kernel panic on a thirteenth block. */
    method InsertIntoDir(dir: Raw, name: seq<byte>, inode: nat, fileType: byte) returns (panicked: bool)
      requires Valid() && (IsDir(dir) ==> DirOk(sb, blocks, dir)) && 0 < inode < 0x1_0000_0000
      modifies this
      ensures Valid()
      ensures IsDir(dir) ==> blocks == AfterInsert(sb, old(blocks), dir, Dirent(inode, Cut(name), fileType))
      ensures !IsDir(dir) ==> blocks == old(blocks)
      ensures panicked <==> IsDir(dir) && NumBlocks(dir) == 12
                            && DirRoom(DirBlocks(old(blocks), dir), Pad(|Cut(name)| + HEADER)).None?
    {
      hide Tiled, Room, Spliced, Pad, BlockNo, IsDir, NumBlocks, DirRoom, AllTiled, AfterInsert, DirBlocks;
      if !IsDir(dir) {
        return false;
      }
      var e := Dirent(inode, Cut(name), fileType);
      ghost var bs, need := DirBlocks(blocks, dir), Pad(|e.name| + HEADER);
      var buffer := new byte[sb.blockSize];
      var i, found := 0, false;
      ghost var spot: Option<Spot> := None;
      BlocksTiled(sb, blocks, dir, need);
      while i < NumBlocks(dir) && !found
        invariant i <= NumBlocks(dir) && AllTiled(bs[..i]) && DirRoom(bs[..i], need).None? && blocks == old(blocks)
        invariant !found && i > 0 ==> buffer[..] == bs[i - 1]
        invariant found ==>
          && i < NumBlocks(dir) && spot == Room(bs[i], 0, need) && spot.Some?
          && buffer[..] == Spliced(bs[i], spot.value.at, e)
        decreases NumBlocks(dir) - i, !found
      {
        ReadBlock(buffer, BlockNo(dir, i));
        found, spot := InsertIntoBlock(buffer, e);
        if !found {
          NoRoomStep(bs, i, need);
          i := i + 1;
        }
      }
      InsertDone(sb, blocks, dir, e, i, spot, buffer[..]);
      if i >= 12 {
        return true;
      }
      WriteBlock(buffer, BlockNo(dir, i));
      panicked := false;
    }

    /** ext2_hard_link.  It succeeds exactly when no entry matches the name, the inode
        number is not 0 and `dir` is a directory; then the inode counts one link more
        and the entry is inserted. */
    method HardLink(dir: Raw, name: seq<byte>, number: nat, ghost groups: nat) returns (ok: bool, panicked: bool)
      requires Valid() && Layout(sb, blocks, groups)
      requires IsDir(dir) ==> DirOk(sb, blocks, dir) && Apart(sb, blocks, groups, dir)
      requires number < 0x1_0000_0000 && (number > 0 ==> Numbered(sb, groups, number))
      modifies this
      ensures Valid()
      ensures ok <==> number > 0 && IsDir(dir) && FirstMatch(List(sb, old(blocks), dir), name).None?
      ensures blocks == if ok then Linked(sb, old(blocks), groups, dir, name, number) else old(blocks)
      ensures panicked <==> ok && NumBlocks(dir) == 12 && !HasRoom(sb, old(blocks), dir, name)
    {
      hide Layout, Tiled, Room, Find, Listing, Stored, DirOk, AfterInsert, FirstMatch, PlaceOf, InodeTable;
      ok, panicked := false, false;
      var found := DirContains(dir, name);
      if !found {
        var known, in_ := GetOrSetInode(number, NO_INODE, false, groups);
        if known {
          if !IsDir(dir) {
            return;
          }
          var fileType := FileTypeOf(Mode(in_));
          in_ := OneMoreLink(in_);
          StoredApart(sb, blocks, groups, dir, number, in_);
          known, in_ := GetOrSetInode(number, in_, true, groups);
          panicked := InsertIntoDir(dir, name, number, fileType);
          ok := true;
        }
      }
    }
  }

  const NO_INODE: Raw := seq(128, _ => 0)
}
