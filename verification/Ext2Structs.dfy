/** The records on the disk, field by field as the structures are declared, and where the
    driver finds them. */
module Ext2Structs {
  import opened Wrappers
  import opened Bytes
  import opened Ext2Blocks
  import opened Ext2Disk
  import opened Ext2Driver

  /** A number in `width` bytes, the lowest first. */
  function Number(value: nat, width: nat): (r: seq<byte>)
    ensures |r| == width
    decreases width
  {
    if width == 0 then [] else [value % 256] + Number(value / 256, width - 1)
  }

  lemma TwoBytes(value: nat)
    requires value < 0x1_0000
    ensures U16(Number(value, 2), 0) == value
  {
    assert Number(value, 2)[0] == value % 256 && Number(value, 2)[1] == Number(value / 256, 1)[0] == value / 256;
  }

  lemma FourBytes(value: nat)
    requires value < 0x1_0000_0000
    ensures U32(Number(value, 4), 0) == value
  {
    var (r, v1, v2, v3) := (Number(value, 4), value / 256, value / 256 / 256, value / 256 / 256 / 256);
    assert r[0] == value % 256;
    assert r[1] == Number(v1, 3)[0] == v1 % 256;
    assert r[2] == Number(v1, 3)[1] == Number(v2, 2)[0] == v2 % 256;
    assert r[3] == Number(v1, 3)[2] == Number(v2, 2)[1] == Number(v3, 1)[0] == v3 % 256;
    assert value == 256 * v1 + value % 256 && v1 == 256 * v2 + v1 % 256 && v2 == 256 * v3 + v2 % 256;
  }

  /** The field of `s` at offset `at`. */
  predicate FieldAt(s: seq<byte>, at: nat, value: nat, width: nat) {
    at + width <= |s| && s[at..at + width] == Number(value, width)
  }

  lemma ReadTwo(s: seq<byte>, at: nat, value: nat)
    requires value < 0x1_0000 && FieldAt(s, at, value, 2)
    ensures U16(s, at) == value
  {
    TwoBytes(value);
    assert s[at..at + 2][0] == s[at] && s[at..at + 2][1] == s[at + 1];
  }

  lemma ReadFour(s: seq<byte>, at: nat, value: nat)
    requires value < 0x1_0000_0000 && FieldAt(s, at, value, 4)
    ensures U32(s, at) == value
  {
    FourBytes(value);
    var r := s[at..at + 4];
    assert r[0] == s[at] && r[1] == s[at + 1] && r[2] == s[at + 2] && r[3] == s[at + 3];
  }

  /** A field behind `a`, in front of anything, and in a longer text. */
  lemma FieldBehind(a: seq<byte>, s: seq<byte>, at: nat, value: nat, width: nat)
    requires FieldAt(s, at, value, width)
    ensures FieldAt(a + s, |a| + at, value, width)
  {
    assert (a + s)[|a| + at..|a| + at + width] == s[at..at + width];
  }

  lemma FieldFirst(value: nat, width: nat, s: seq<byte>)
    ensures FieldAt(Number(value, width) + s, 0, value, width)
  {
  }

  lemma FieldInside(b: seq<byte>, from: nat, s: seq<byte>, at: nat, value: nat, width: nat)
    requires from + |s| <= |b| && b[from..from + |s|] == s && FieldAt(s, at, value, width)
    ensures FieldAt(b, from + at, value, width)
  {
    var (x, y) := (b[from + at..from + at + width], s[at..at + width]);
    forall k | 0 <= k < width ensures x[k] == y[k] {
      assert b[from..from + |s|][at + k] == b[from + (at + k)];
    }
    assert x == y;
  }

  // ----- struct ext2_block_group_descriptor -----

  datatype Descriptor = Descriptor(blockBitmap: nat, inodeBitmap: nat, inodeTable: nat, freeBlocks: nat,
                                   freeInodes: nat, dirs: nat, padding: nat, reserved: nat)

  function DescriptorBytes(d: Descriptor): (r: seq<byte>)
    ensures |r| == 32
  {
    Number(d.blockBitmap, 4) + (Number(d.inodeBitmap, 4) + (Number(d.inodeTable, 4) + (Number(d.freeBlocks, 2)
    + (Number(d.freeInodes, 2) + (Number(d.dirs, 2) + (Number(d.padding, 2) + Number(d.reserved, 12)))))))
  }

  /** Byte number `n` of a run of pieces of `size` bytes: in which piece, and where there. */
  function Spot(n: nat, size: nat): (r: (nat, nat))
    requires size > 0
    ensures r.1 < size
  {
    DivParts(n, size);
    (n / size, n % size)
  }

  /** The block behind the superblock, which is the 1024 bytes from byte 1024 on. */
  function FirstDescriptors(sb: Super): nat
    requires sb.Ok()
  {
    Spot(1024, sb.blockSize).0 + 1
  }

  /** The descriptors stand one behind the other, 32 bytes each. */
  ghost predicate DescriptorsOn(sb: Super, blocks: seq<seq<byte>>, ds: seq<Descriptor>)
    requires sb.Ok()
  {
    forall g :: 0 <= g < |ds| ==> DescriptorOn(sb, blocks, 32 * g, ds[g])
  }

  ghost predicate DescriptorOn(sb: Super, blocks: seq<seq<byte>>, n: nat, d: Descriptor)
    requires sb.Ok()
  {
    var (b, at) := (FirstDescriptors(sb) + Spot(n, sb.blockSize).0, Spot(n, sb.blockSize).1);
    d.inodeTable < 0x1_0000_0000 && b < |blocks| && at + 32 <= |blocks[b]|
      && blocks[b][at..at + 32] == DescriptorBytes(d)
  }

  /** Quotient and remainder are the only numbers of their kind. */
  lemma Divides(x: nat, d: nat, q: nat, r: nat)
    requires x == q * d + r && r < d
    ensures x / d == q && x % d == r
  {
    var (p, s) := (x / d, x % d);
    assert x == p * d + s && s < d;
    if p < q { MulMono(q, p + 1, d); } else if p > q { MulMono(p, q + 1, d); }
  }

  /** Multiples of `m` on both sides. */
  lemma Scaled(x: nat, d: nat, m: nat)
    requires d > 0 && m > 0
    ensures m * d > 0 && m * x / (m * d) == x / d && m * x % (m * d) == m * (x % d)
  {
    var (q, r) := (x / d, x % d);
    assert x == q * d + r;
    assert m * x == m * (q * d) + m * r == q * (m * d) + m * r;
    MulLess(r, d, m);
    Divides(m * x, m * d, q, m * r);
  }

  lemma MulLess(r: nat, d: nat, m: nat)
    requires r < d && m > 0
    ensures m * r < m * d
  {
  }

  lemma SectorSpot(k: nat, t: nat, h: nat)
    requires k > 0
    ensures (k * t + h) / k == t + h / k && (k * t + h) % k == h % k
  {
    var (q, s) := (h / k, h % k);
    assert h == q * k + s;
    Regroup(t, q, k);
    Divides(k * t + h, k, t + q, s);
  }

  lemma Regroup(t: nat, q: nat, k: nat)
    ensures k * t + q * k == (t + q) * k && q * (16 * k) == 16 * (q * k)
  {
  }

  /** Sixteen to a sector, and `k` sectors to a block. */
  lemma SixteenEach(k: nat, g: nat)
    requires k > 0
    ensures g / (16 * k) == g / 16 / k && g % (16 * k) == 16 * (g / 16 % k) + g % 16
  {
    var (h, r) := (g / 16, g % 16);
    var (q, s) := (h / k, h % k);
    assert h == q * k + s;
    assert g == 16 * h + r;
    Regroup(0, q, k);
    Divides(g, 16 * k, q, 16 * s + r);
  }

  /** Sector by sector and byte by byte is the same place. */
  lemma SamePlaces(size: nat, t: nat, g: nat)
    requires size % 1024 == 0 && size >= 1024
    ensures (size / 512 * t + g / 16) / (size / 512) == t + 32 * g / size
    ensures (size / 512 * t + g / 16) % (size / 512) * 512 + g % 16 * 32 == 32 * g % size
  {
    var k := size / 512;
    assert size == 32 * (16 * k);
    SectorSpot(k, t, g / 16);
    SixteenEach(k, g);
    Scaled(g, 16 * k, 32);
  }

  lemma DescriptorPlace(sb: Super, g: nat)
    requires sb.Ok()
    ensures DescriptorBlock(sb, g) == FirstDescriptors(sb) + Spot(32 * g, sb.blockSize).0
    ensures DescriptorOffset(sb, g) == Spot(32 * g, sb.blockSize).1
  {
    hide FirstDescriptors, TableBlock;
    SuperBlock(sb);
    SamePlaces(sb.blockSize, TableBlock(sb), g);
  }

  lemma SuperBlock(sb: Super)
    requires sb.Ok()
    ensures TableBlock(sb) == FirstDescriptors(sb)
  {
    if sb.blockSize > 1024 { Divides(1024, sb.blockSize, 0, 1024); }
  }

  lemma TableField(d: Descriptor)
    ensures FieldAt(DescriptorBytes(d), 8, d.inodeTable, 4)
  {
    hide Number;
    var z := Number(d.freeBlocks, 2) + (Number(d.freeInodes, 2) + (Number(d.dirs, 2) + (Number(d.padding, 2)
             + Number(d.reserved, 12))));
    FieldFirst(d.inodeTable, 4, z);
    FieldBehind(Number(d.inodeBitmap, 4), Number(d.inodeTable, 4) + z, 0, d.inodeTable, 4);
    FieldBehind(Number(d.blockBitmap, 4), Number(d.inodeBitmap, 4) + (Number(d.inodeTable, 4) + z), 4, d.inodeTable, 4);
  }

  /** The inode table of a group is where its descriptor says. */
  lemma TableDescribed(sb: Super, blocks: seq<seq<byte>>, ds: seq<Descriptor>, g: nat)
    requires sb.Ok() && DescriptorsOn(sb, blocks, ds) && g < |ds|
    ensures InodeTable(sb, blocks, g) == Some(ds[g].inodeTable)
  {
    hide DescriptorBytes, DescriptorBlock, DescriptorOffset, FirstDescriptors, Spot;
    DescriptorPlace(sb, g);
    TableField(ds[g]);
    assert DescriptorOn(sb, blocks, 32 * g, ds[g]);
    var (block, at) := (blocks[DescriptorBlock(sb, g)], DescriptorOffset(sb, g));
    FieldInside(block, at, DescriptorBytes(ds[g]), 8, ds[g].inodeTable, 4);
    ReadFour(block, at + 8, ds[g].inodeTable);
  }

  /** Inode `n` is the 128 bytes at its number in the table of its group. */
  lemma InodeDescribed(sb: Super, blocks: seq<seq<byte>>, groups: nat, ds: seq<Descriptor>, n: nat)
    requires sb.Ok() && Layout(sb, blocks, groups) && Numbered(sb, groups, n)
    requires DescriptorsOn(sb, blocks, ds) && groups <= |ds|
    ensures var (g, i) := Spot(n - 1, sb.inodesPerGroup); var (k, at) := Spot(128 * i, sb.blockSize);
      && g < |ds| && ds[g].inodeTable + k < |blocks|
      && var block := blocks[ds[g].inodeTable + k];
         at + 128 <= |block| && Find(sb, blocks, groups, n) == block[at..at + 128]
  {
    hide InodeTable, Layout, DescriptorsOn;
    TableDescribed(sb, blocks, ds, Group(sb, n));
    PlaceInTable(sb, blocks, groups, n);
    var per := sb.InodesPerBlock();
    assert sb.blockSize == 128 * per;
    Scaled((n - 1) % sb.inodesPerGroup, per, 128);
    BlockSize(sb, blocks, groups, PlaceOf(sb, blocks, n).value.block);
  }

  lemma BlockSize(sb: Super, blocks: seq<seq<byte>>, groups: nat, b: nat)
    requires sb.Ok() && Layout(sb, blocks, groups) && b < |blocks|
    ensures |blocks[b]| == sb.blockSize
  {
  }

  // ----- struct ext2_inode -----

  datatype InodeRecord = InodeRecord(mode: nat, uid: nat, size: nat, accessed: nat, created: nat, modified: nat,
                                     deleted: nat, gid: nat, links: nat, numBlocks: nat, flags: nat, os1: nat,
                                     blockNos: seq<nat>, generation: nat, fileAcl: nat, dirAcl: nat, faddr: nat,
                                       os2: nat)
  {
    predicate Fits() {
      && mode < 0x1_0000 && links < 0x1_0000 && size < 0x1_0000_0000 && numBlocks < 0x1_0000_0000
      && |blockNos| == 15 && forall i :: 0 <= i < 15 ==> blockNos[i] < 0x1_0000_0000
    }
  }

  /** Up to the block numbers, in two parts. */
  function HeadBytes(r: InodeRecord): (s: seq<byte>)
    ensures |s| == 40
  {
    TimeBytes(r) + CountBytes(r)
  }

  function TimeBytes(r: InodeRecord): (s: seq<byte>)
    ensures |s| == 24
  {
    Number(r.mode, 2) + (Number(r.uid, 2) + (Number(r.size, 4) + (Number(r.accessed, 4) + (Number(r.created, 4)
    + (Number(r.modified, 4) + Number(r.deleted, 4))))))
  }

  function CountBytes(r: InodeRecord): (s: seq<byte>)
    ensures |s| == 16
  {
    Number(r.gid, 2) + (Number(r.links, 2) + (Number(r.numBlocks, 4) + (Number(r.flags, 4) + Number(r.os1, 4))))
  }

  function Numbers(values: seq<nat>): (s: seq<byte>)
    ensures |s| == 4 * |values|
  {
    if values == [] then [] else Number(values[0], 4) + Numbers(values[1..])
  }

  function InodeBytes(r: InodeRecord): Raw
    requires r.Fits()
  {
    HeadBytes(r) + Numbers(r.blockNos) + (Number(r.generation, 4) + Number(r.fileAcl, 4) + Number(r.dirAcl, 4)
                                          + Number(r.faddr, 4) + Number(r.os2, 12))
  }

  lemma {:induction false} NumbersAt(values: seq<nat>, i: nat)
    requires i < |values|
    ensures FieldAt(Numbers(values), 4 * i, values[i], 4)
    decreases i
  {
    hide Number;
    if i == 0 {
      FieldFirst(values[0], 4, Numbers(values[1..]));
    } else {
      NumbersAt(values[1..], i - 1);
      FieldBehind(Number(values[0], 4), Numbers(values[1..]), 4 * (i - 1), values[i], 4);
    }
  }

  lemma TimeFields(r: InodeRecord)
    ensures FieldAt(TimeBytes(r), 0, r.mode, 2) && FieldAt(TimeBytes(r), 4, r.size, 4)
  {
    hide Number, FieldAt;
    var z := Number(r.accessed, 4) + (Number(r.created, 4) + (Number(r.modified, 4) + Number(r.deleted, 4)));
    FieldFirst(r.mode, 2, Number(r.uid, 2) + (Number(r.size, 4) + z));
    FieldFirst(r.size, 4, z);
    FieldBehind(Number(r.uid, 2), Number(r.size, 4) + z, 0, r.size, 4);
    FieldBehind(Number(r.mode, 2), Number(r.uid, 2) + (Number(r.size, 4) + z), 2, r.size, 4);
  }

  lemma CountFields(r: InodeRecord)
    ensures FieldAt(CountBytes(r), 2, r.links, 2) && FieldAt(CountBytes(r), 4, r.numBlocks, 4)
  {
    hide Number, FieldAt;
    var z := Number(r.flags, 4) + Number(r.os1, 4);
    FieldFirst(r.links, 2, Number(r.numBlocks, 4) + z);
    FieldFirst(r.numBlocks, 4, z);
    FieldBehind(Number(r.links, 2), Number(r.numBlocks, 4) + z, 0, r.numBlocks, 4);
    FieldBehind(Number(r.gid, 2), Number(r.links, 2) + (Number(r.numBlocks, 4) + z), 0, r.links, 2);
    FieldBehind(Number(r.gid, 2), Number(r.links, 2) + (Number(r.numBlocks, 4) + z), 2, r.numBlocks, 4);
  }

  /** What the driver reads of an inode are the fields of its record. */
  lemma InodeFields(r: InodeRecord)
    requires r.Fits()
    ensures var in_ := InodeBytes(r);
      && Mode(in_) == r.mode && Size(in_) == r.size && Links(in_) == r.links && NumBlocks(in_) == r.numBlocks
      && (IsDir(in_) <==> 0x4000 <= r.mode < 0x5000)
      && forall i :: 0 <= i < 12 ==> BlockNo(in_, i) == r.blockNos[i]
  {
    hide TimeBytes, CountBytes, Numbers, Number, U16, U32, FieldAt;
    var in_ := InodeBytes(r);
    TimeFields(r);
    CountFields(r);
    assert in_[0..0 + 24] == TimeBytes(r) && in_[24..24 + 16] == CountBytes(r);
    FieldInside(in_, 0, TimeBytes(r), 0, r.mode, 2);
    FieldInside(in_, 0, TimeBytes(r), 4, r.size, 4);
    FieldInside(in_, 24, CountBytes(r), 2, r.links, 2);
    FieldInside(in_, 24, CountBytes(r), 4, r.numBlocks, 4);
    ReadTwo(in_, 0, r.mode);
    ReadFour(in_, 4, r.size);
    ReadTwo(in_, 26, r.links);
    ReadFour(in_, 28, r.numBlocks);
    forall i | 0 <= i < 12 ensures BlockNo(in_, i) == r.blockNos[i] {
      NumbersAt(r.blockNos, i);
      assert in_[40..40 + 60] == Numbers(r.blockNos);
      FieldInside(in_, 40, Numbers(r.blockNos), 4 * i, r.blockNos[i], 4);
      ReadFour(in_, 40 + 4 * i, r.blockNos[i]);
    }
  }

  // ----- struct ext2_dirent -----

  function DirentBytes(inode: nat, recLen: nat, fileType: byte, name: seq<byte>): seq<byte> {
    Number(inode, 4) + (Number(recLen, 2) + (Number(|name|, 1) + ([fileType] + name)))
  }

  /** An entry reads as the record that stands there. */
  lemma DirentFields(b: seq<byte>, at: nat, inode: nat, recLen: nat, fileType: byte, name: seq<byte>)
    requires inode < 0x1_0000_0000 && recLen < 0x1_0000 && |name| < 256
    requires at + 8 + |name| <= |b| && b[at..at + 8 + |name|] == DirentBytes(inode, recLen, fileType, name)
    ensures Inode(b, at) == inode && RecLen(b, at) == recLen && NameLen(b, at) == |name|
    ensures Entry(b, at) ==> DirentAt(b, at) == Dirent(inode, name, fileType)
  {
    hide U16, U32, Entry, FieldAt, DirentBytes;
    var r := DirentBytes(inode, recLen, fileType, name);
    DirentParts(inode, recLen, fileType, name);
    FieldInside(b, at, r, 0, inode, 4);
    FieldInside(b, at, r, 4, recLen, 2);
    ReadFour(b, at, inode);
    ReadTwo(b, at + 4, recLen);
    BytesInside(b, at, r);
  }

  lemma DirentParts(inode: nat, recLen: nat, fileType: byte, name: seq<byte>)
    requires |name| < 256
    ensures var r := DirentBytes(inode, recLen, fileType, name);
      && |r| == 8 + |name| && FieldAt(r, 0, inode, 4) && FieldAt(r, 4, recLen, 2)
      && r[6] == |name| && r[7] == fileType && r[8..] == name
  {
    hide FieldAt;
    var z := Number(|name|, 1) + ([fileType] + name);
    FieldFirst(inode, 4, Number(recLen, 2) + z);
    FieldFirst(recLen, 2, z);
    FieldBehind(Number(inode, 4), Number(recLen, 2) + z, 0, recLen, 2);
    assert z[0] == |name| && z[1] == fileType && z[2..] == name;
    Behind(Number(inode, 4), Number(recLen, 2), z);
  }

  lemma Behind(a: seq<byte>, b: seq<byte>, z: seq<byte>)
    ensures (a + (b + z))[|a| + |b|..] == z
  {
  }

  lemma BytesInside(b: seq<byte>, from: nat, r: seq<byte>)
    requires 8 <= |r| && from + |r| <= |b| && b[from..from + |r|] == r
    ensures b[from + 6] == r[6] && b[from + 7] == r[7] && b[from + 8..from + |r|] == r[8..]
  {
    assert b[from..from + |r|][8..] == b[from + 8..from + |r|];
  }

  // ----- file types -----

  /** The entry of a hard link carries the number, the name up to 255 bytes, and the type
      that belongs to the format in the mode: 0xc socket, 0xa link, 8 file, 6 block device,
      4 directory, 2 character device, 1 fifo. */
  lemma EntryFields(sb: Super, blocks: seq<seq<byte>>, groups: nat, name: seq<byte>, number: nat)
    requires sb.Ok() && Layout(sb, blocks, groups) && Numbered(sb, groups, number)
    ensures var e := NewEntry(sb, blocks, groups, name, number);
      e.inode == number && e.name <= name && |e.name| == if |name| < 255 then |name| else 255
    ensures var (mode, t) := (Mode(Find(sb, blocks, groups, number)),
                              NewEntry(sb, blocks, groups, name, number).fileType);
      && (0x8000 <= mode < 0x9000 ==> t == 1) && (0x4000 <= mode < 0x5000 ==> t == 2)
        && (0x2000 <= mode < 0x3000 ==> t == 3)
      && (0x6000 <= mode < 0x7000 ==> t == 4) && (0x1000 <= mode < 0x2000 ==> t == 5)
        && (0xc000 <= mode < 0xd000 ==> t == 6)
      && (0xa000 <= mode < 0xb000 ==> t == 7)
  {
    hide Layout, Find;
  }
}
