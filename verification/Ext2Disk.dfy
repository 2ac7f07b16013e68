/** The ext2 driver on a disk of blocks: inodes, directories and file contents. */
module Ext2Disk {
  import opened Wrappers
  import opened Bytes
  import opened Ext2Blocks

  /** What the driver uses of the superblock. */
  datatype Super = Super(blockSize: nat, inodesPerGroup: nat) {
    predicate Ok() { blockSize % 1024 == 0 && 1024 <= blockSize && 0 < inodesPerGroup }

    /** sizeof(struct ext2_inode) is 128. */
    function InodesPerBlock(): nat { blockSize / 128 }
  }

  // ----- inodes as the driver sees them: 128 raw bytes -----

  type Raw = r: seq<byte> | |r| == 128 witness seq(128, _ => 0)

  const IS_DIR: nat := 0x4000

  function Mode(in_: Raw): nat { U16(in_, 0) }
  predicate IsDir(in_: Raw) { Mode(in_) / 0x1000 * 0x1000 == IS_DIR }
  function Size(in_: Raw): nat { U32(in_, 4) }
  function Links(in_: Raw): nat { U16(in_, 26) }
  function NumBlocks(in_: Raw): nat { U32(in_, 28) }

  function BlockNo(in_: Raw, i: nat): nat
    requires i < 12
  {
    U32(in_, 40 + 4 * i)
  }

  /** `links_count++` on a 16-bit field. */
  function OneMoreLink(in_: Raw): (r: Raw)
    ensures Links(r) == (Links(in_) + 1) % 0x1_0000
    ensures forall j :: 0 <= j < 128 && j != 26 && j != 27 ==> r[j] == in_[j]
  {
    PutAt(in_, 26, Le16((Links(in_) + 1) % 0x1_0000));
    Put(in_, 26, Le16((Links(in_) + 1) % 0x1_0000))
  }

  /** EXT2_S_TO_FT. */
  function FileTypeOf(mode: nat): byte {
    match mode / 0x1000
    case 12 => 6
    case 10 => 7
    case 8 => 1
    case 6 => 4
    case 4 => 2
    case 2 => 3
    case 1 => 5
    case _ => 0
  }

  // ----- where inodes are -----

  /** The table of block group descriptors starts in the block after the superblock. */
  function TableBlock(sb: Super): nat { if sb.blockSize == 1024 then 2 else 1 }

  /** inode_table_start_block of a group: 16 descriptors of 32 bytes fill a sector. */
  function InodeTable(sb: Super, blocks: seq<seq<byte>>, group: nat): Option<nat>
    requires sb.Ok()
  {
    if DescriptorBlock(sb, group) < |blocks| then TableIn(sb, blocks[DescriptorBlock(sb, group)], group) else None
  }

  /** The field of the group's descriptor, in the block that holds it. */
  function TableIn(sb: Super, block: seq<byte>, group: nat): Option<nat>
    requires sb.Ok()
  {
    var at := DescriptorOffset(sb, group) + 8;
    if at + 4 <= |block| then Some(U32(block, at)) else None
  }

  function DescriptorSector(sb: Super, group: nat): nat { sb.blockSize / 512 * TableBlock(sb) + group / 16 }

  function DescriptorBlock(sb: Super, group: nat): nat
    requires sb.Ok()
  {
    DescriptorSector(sb, group) / (sb.blockSize / 512)
  }

  function DescriptorOffset(sb: Super, group: nat): nat
    requires sb.Ok()
  {
    DescriptorSector(sb, group) % (sb.blockSize / 512) * 512 + group % 16 * 32
  }

  lemma DivParts(p: nat, d: nat)
    requires 0 < d
    ensures 0 <= p / d && 0 <= p % d < d
  {
  }

  datatype Place = Place(block: nat, index: nat)

  function Group(sb: Super, number: nat): nat
    requires sb.Ok() && number > 0
  {
    (number - 1) / sb.inodesPerGroup
  }

  function PlaceOf(sb: Super, blocks: seq<seq<byte>>, number: nat): Option<Place>
    requires sb.Ok() && number > 0
  {
    var (group, local) := (Group(sb, number), (number - 1) % sb.inodesPerGroup);
    DivParts(number - 1, sb.inodesPerGroup);
    DivParts(local, sb.InodesPerBlock());
    match InodeTable(sb, blocks, group)
    case None => None
    case Some(table) => Some(Place(table + local / sb.InodesPerBlock(), local % sb.InodesPerBlock()))
  }

  function TableLength(sb: Super): nat
    requires sb.Ok()
  {
    (sb.inodesPerGroup - 1) / sb.InodesPerBlock() + 1
  }

  /** Block `b` holds part of the inode table of `group`. */
  predicate InTable(sb: Super, blocks: seq<seq<byte>>, group: nat, b: nat)
    requires sb.Ok()
  {
    var t := InodeTable(sb, blocks, group);
    t.Some? && t.value <= b < t.value + TableLength(sb)
  }

  /** Block `b` holds the descriptor of `group`. */
  predicate HoldsDescriptor(sb: Super, group: nat, b: nat)
    requires sb.Ok()
  {
    b == DescriptorBlock(sb, group)
  }

  /** The inode tables of the groups below `groups` lie apart from each other, from the
      descriptors, and on the disk. */
  ghost predicate Layout(sb: Super, blocks: seq<seq<byte>>, groups: nat)
    requires sb.Ok()
  {
    && (forall b :: 0 <= b < |blocks| ==> |blocks[b]| == sb.blockSize)
    && (forall g :: 0 <= g < groups ==> InodeTable(sb, blocks, g).Some?)
    && (forall g, b: nat :: 0 <= g < groups && InTable(sb, blocks, g, b) ==> b < |blocks|)
    && (forall g, g', b: nat ::
          0 <= g < groups && 0 <= g' < groups && InTable(sb, blocks, g, b) && InTable(sb, blocks, g', b) ==> g == g')
    && (forall g, g', b: nat :: 0 <= g < groups && 0 <= g' < groups && InTable(sb, blocks, g, b) ==>
      !HoldsDescriptor(sb, g', b))
  }

  predicate Numbered(sb: Super, groups: nat, number: nat)
    requires sb.Ok()
  {
    number > 0 && Group(sb, number) < groups
  }

  lemma PlaceInTable(sb: Super, blocks: seq<seq<byte>>, groups: nat, number: nat)
    requires sb.Ok() && Layout(sb, blocks, groups) && Numbered(sb, groups, number)
    ensures PlaceOf(sb, blocks, number).Some?
    ensures var p := PlaceOf(sb, blocks, number).value;
      InTable(sb, blocks, Group(sb, number), p.block) && p.block < |blocks| && p.index < sb.InodesPerBlock()
        && 128 * p.index + 128 <= sb.blockSize
  {
    hide InodeTable, Layout, InTable;
    var local, per := (number - 1) % sb.inodesPerGroup, sb.InodesPerBlock();
    Fits(local, sb.inodesPerGroup, per, sb.blockSize);
    TableKnown(sb, blocks, groups, Group(sb, number));
    BlockInTable(sb, blocks, groups, Group(sb, number), local / per);
  }

  lemma TableKnown(sb: Super, blocks: seq<seq<byte>>, groups: nat, g: nat)
    requires sb.Ok() && Layout(sb, blocks, groups) && g < groups
    ensures InodeTable(sb, blocks, g).Some?
  {
    hide InodeTable;
  }

  lemma BlockInTable(sb: Super, blocks: seq<seq<byte>>, groups: nat, g: nat, k: nat)
    requires sb.Ok() && Layout(sb, blocks, groups) && g < groups && k < TableLength(sb)
    requires InodeTable(sb, blocks, g).Some?
    ensures var b := InodeTable(sb, blocks, g).value + k;
      InTable(sb, blocks, g, b) && b < |blocks| && |blocks[b]| == sb.blockSize
  {
    hide InodeTable;
  }

  lemma Fits(local: nat, perGroup: nat, per: nat, blockSize: nat)
    requires local < perGroup && per == blockSize / 128 && 0 < per
    ensures local / per < (perGroup - 1) / per + 1 && local % per < per && 128 * (local % per) + 128 <= blockSize
  {
    DivMono(local, perGroup - 1, per);
  }

  lemma DivMono(a: nat, b: nat, d: nat)
    requires a <= b && 0 < d
    ensures a / d <= b / d
  {
    var q, p := a / d, b / d;
    assert a == q * d + a % d && b == p * d + b % d;
    if q > p { MulMono(q, p + 1, d); }
  }

  lemma MulMono(x: nat, y: nat, d: nat)
    requires x >= y
    ensures x * d >= y * d
  {
  }

  /** Different inode numbers live in different places. */
  lemma PlacesDiffer(sb: Super, blocks: seq<seq<byte>>, groups: nat, m: nat, n: nat)
    requires sb.Ok() && Layout(sb, blocks, groups) && Numbered(sb, groups, m) && Numbered(sb, groups, n) && m != n
    ensures PlaceOf(sb, blocks, m) != PlaceOf(sb, blocks, n)
  {
    PlaceInTable(sb, blocks, groups, m);
    PlaceInTable(sb, blocks, groups, n);
    if PlaceOf(sb, blocks, m) == PlaceOf(sb, blocks, n) {
      assert Group(sb, m) == Group(sb, n);
      SameParts(m - 1, n - 1, sb.inodesPerGroup, sb.InodesPerBlock());
    }
  }

  lemma SameParts(x: nat, y: nat, d: nat, e: nat)
    requires 0 < d && 0 < e && x / d == y / d && x % d / e == y % d / e && x % d % e == y % d % e
    ensures x == y
  {
    assert x % d == x % d / e * e + x % d % e && y % d == y % d / e * e + y % d % e;
    assert x == x / d * d + x % d && y == y / d * d + y % d;
  }

  // ----- finding and setting -----

  function Find(sb: Super, blocks: seq<seq<byte>>, groups: nat, number: nat): Raw
    requires sb.Ok() && Layout(sb, blocks, groups) && Numbered(sb, groups, number)
  {
    PlaceInTable(sb, blocks, groups, number);
    var p := PlaceOf(sb, blocks, number).value;
    blocks[p.block][128 * p.index..128 * p.index + 128]
  }

  function Stored(sb: Super, blocks: seq<seq<byte>>, groups: nat, number: nat, in_: Raw): seq<seq<byte>>
    requires sb.Ok() && Layout(sb, blocks, groups) && Numbered(sb, groups, number)
  {
    PlaceInTable(sb, blocks, groups, number);
    var p := PlaceOf(sb, blocks, number).value;
    blocks[p.block := Put(blocks[p.block], 128 * p.index, in_)]
  }

  /** The tables stay where they are, whatever is written outside the descriptors. */
  lemma LayoutStays(sb: Super, blocks: seq<seq<byte>>, groups: nat, b: nat, content: seq<byte>)
    requires sb.Ok() && Layout(sb, blocks, groups) && b < |blocks| && |content| == sb.blockSize
    requires forall g :: 0 <= g < groups ==> !HoldsDescriptor(sb, g, b)
    ensures Layout(sb, blocks[b := content], groups)
    ensures forall g :: 0 <= g < groups ==> InodeTable(sb, blocks[b := content], g) == InodeTable(sb, blocks, g)
  {
    var blocks' := blocks[b := content];
    forall g | 0 <= g < groups ensures InodeTable(sb, blocks', g) == InodeTable(sb, blocks, g) {
      assert !HoldsDescriptor(sb, g, b);
    }
    hide InodeTable;
    assert forall g, c: nat :: 0 <= g < groups ==> InTable(sb, blocks', g, c) == InTable(sb, blocks, g, c);
  }

  /** Setting an inode and finding it gives what was set; all others are as before. */
  lemma StoreFind(sb: Super, blocks: seq<seq<byte>>, groups: nat, n: nat, in_: Raw, m: nat)
    requires sb.Ok() && Layout(sb, blocks, groups) && Numbered(sb, groups, n) && Numbered(sb, groups, m)
    ensures Layout(sb, Stored(sb, blocks, groups, n, in_), groups)
    ensures Find(sb, Stored(sb, blocks, groups, n, in_), groups, m) == if m == n then in_
      else Find(sb, blocks, groups, m)
  {
    hide InodeTable, InTable, HoldsDescriptor, Layout, PlaceOf, Put;
    PlaceInTable(sb, blocks, groups, n);
    PlaceInTable(sb, blocks, groups, m);
    var p, q := PlaceOf(sb, blocks, n).value, PlaceOf(sb, blocks, m).value;
    OutsideDescriptors(sb, blocks, groups, n);
    var content := Put(blocks[p.block], 128 * p.index, in_);
    LayoutStays(sb, blocks, groups, p.block, content);
    SamePlace(sb, blocks, blocks[p.block := content], groups, m);
    PutRead(blocks[p.block], p.index, in_, q.index);
    if m != n {
      PlacesDiffer(sb, blocks, groups, m, n);
    }
  }

  lemma PutRead(s: seq<byte>, i: nat, in_: Raw, j: nat)
    requires 128 * i + 128 <= |s|
    ensures 128 * j + 128 <= |s| ==>
      Put(s, 128 * i, in_)[128 * j..128 * j + 128] == if i == j then in_ else s[128 * j..128 * j + 128]
  {
    PutAt(s, 128 * i, in_);
  }

  lemma OutsideDescriptors(sb: Super, blocks: seq<seq<byte>>, groups: nat, n: nat)
    requires sb.Ok() && Layout(sb, blocks, groups) && Numbered(sb, groups, n)
    ensures PlaceOf(sb, blocks, n).Some?
    ensures var b := PlaceOf(sb, blocks, n).value.block;
      b < |blocks| && |blocks[b]| == sb.blockSize && forall g :: 0 <= g < groups ==> !HoldsDescriptor(sb, g, b)
  {
    hide InodeTable, HoldsDescriptor;
    PlaceInTable(sb, blocks, groups, n);
  }

  lemma SamePlace(sb: Super, blocks: seq<seq<byte>>, blocks': seq<seq<byte>>, groups: nat, m: nat)
    requires sb.Ok() && Numbered(sb, groups, m)
    requires forall g :: 0 <= g < groups ==> InodeTable(sb, blocks', g) == InodeTable(sb, blocks, g)
    ensures PlaceOf(sb, blocks', m) == PlaceOf(sb, blocks, m)
  {
    hide InodeTable;
  }

  // ----- overwriting a block -----

  function InodeIn(block: seq<byte>, index: nat): Raw
    requires 128 * index + 128 <= |block|
  {
    block[128 * index..128 * index + 128]
  }

  /** `content` has the table numbers and the inodes that block `b` has. */
  ghost predicate Spared(sb: Super, blocks: seq<seq<byte>>, groups: nat, b: nat, content: seq<byte>)
    requires sb.Ok() && Layout(sb, blocks, groups)
  {
    && (forall g: nat :: g < groups && HoldsDescriptor(sb, g, b) ==>
          InodeTable(sb, blocks, g) == TableIn(sb, content, g))
    && (forall m: nat :: Numbered(sb, groups, m) ==>
          var p := PlaceOf(sb, blocks, m);
          p.Some? && p.value.block == b && 128 * p.value.index + 128 <= |content| ==>
            InodeIn(content, p.value.index) == Find(sb, blocks, groups, m))
  }

  ghost predicate SameInodes(sb: Super, blocks: seq<seq<byte>>, blocks': seq<seq<byte>>, groups: nat)
    requires sb.Ok() && Layout(sb, blocks, groups)
  {
    && Layout(sb, blocks', groups)
    && (forall g: nat :: g < groups ==> InodeTable(sb, blocks', g) == InodeTable(sb, blocks, g))
    && (forall m: nat :: Numbered(sb, groups, m) ==> Find(sb, blocks', groups, m) == Find(sb, blocks, groups, m))
  }

  /** Overwriting any block leaves tables and inodes alone if and only if the new content
      repeats those that the block holds. */
  lemma OverwriteSpares(sb: Super, blocks: seq<seq<byte>>, groups: nat, b: nat, content: seq<byte>)
    requires sb.Ok() && Layout(sb, blocks, groups) && b < |blocks| && |content| == sb.blockSize
    ensures SameInodes(sb, blocks, blocks[b := content], groups) <==> Spared(sb, blocks, groups, b, content)
  {
    var blocks' := blocks[b := content];
    forall g: nat | g < groups
      ensures InodeTable(sb, blocks', g) ==
              if HoldsDescriptor(sb, g, b) then TableIn(sb, content, g) else InodeTable(sb, blocks, g)
    {
    }
    hide InodeTable, HoldsDescriptor;
    if forall g: nat :: g < groups ==> InodeTable(sb, blocks', g) == InodeTable(sb, blocks, g) {
      LayoutSame(sb, blocks, blocks', groups);
      forall m: nat | Numbered(sb, groups, m)
        ensures PlaceOf(sb, blocks, m).Some?
        ensures var p := PlaceOf(sb, blocks, m).value;
          Find(sb, blocks', groups, m) == if p.block == b then InodeIn(content, p.index)
            else Find(sb, blocks, groups, m)
      {
        PlaceInTable(sb, blocks, groups, m);
        SamePlace(sb, blocks, blocks', groups, m);
      }
    }
  }

  /** The layout is a matter of the tables' places and of the sizes of blocks. */
  lemma LayoutSame(sb: Super, blocks: seq<seq<byte>>, blocks': seq<seq<byte>>, groups: nat)
    requires sb.Ok() && Layout(sb, blocks, groups) && |blocks'| == |blocks|
    requires forall b :: 0 <= b < |blocks'| ==> |blocks'[b]| == sb.blockSize
    requires forall g: nat :: g < groups ==> InodeTable(sb, blocks', g) == InodeTable(sb, blocks, g)
    ensures Layout(sb, blocks', groups)
  {
    hide InodeTable, HoldsDescriptor;
    assert forall g, c: nat :: 0 <= g < groups ==> InTable(sb, blocks', g, c) == InTable(sb, blocks, g, c);
  }
}
