/** Reading file contents through an inode's direct blocks. */
module Ext2Files {
  import opened Wrappers
  import opened Bytes
  import opened Ext2Disk
  import opened Ext2Driver

  /** The twelve direct blocks are on the disk, whose blocks have `bs` bytes. */
  ghost predicate FileOk(bs: nat, blocks: seq<seq<byte>>, in_: Raw) {
    0 < bs && forall i :: 0 <= i < 12 ==> BlockNo(in_, i) < |blocks| && |blocks[BlockNo(in_, i)]| == bs
  }

  /** Byte `r` of block `q` of the file. */
  ghost function ByteOf(bs: nat, blocks: seq<seq<byte>>, in_: Raw, q: nat, r: nat): byte
    requires FileOk(bs, blocks, in_) && q < 12 && r < bs
  {
    blocks[BlockNo(in_, q)][r]
  }

  /** Byte number `p` of the flat content of the file. */
  ghost function ContentAt(bs: nat, blocks: seq<seq<byte>>, in_: Raw, p: nat): byte
    requires FileOk(bs, blocks, in_) && p / bs < 12
  {
    DivParts(p, bs);
    ByteOf(bs, blocks, in_, p / bs, p % bs)
  }

  ghost predicate IsContent(bs: nat, blocks: seq<seq<byte>>, in_: Raw, p: nat, v: byte)
    requires FileOk(bs, blocks, in_)
  {
    p / bs < 12 && v == ContentAt(bs, blocks, in_, p)
  }

  /** `buffer` starts with the `n` bytes of content from `ofs` on. */
  ghost predicate Holds(bs: nat, blocks: seq<seq<byte>>, in_: Raw, ofs: nat, n: nat, buffer: seq<byte>)
    requires FileOk(bs, blocks, in_)
  {
    n <= |buffer| && forall j :: 0 <= j < n ==> IsContent(bs, blocks, in_, ofs + j, buffer[j])
  }

  /** ext2_file_read goes on until a pass reads nothing, so it asks for the block behind
      the last one it needs as well. */
  function LastBlockAsked(bs: nat, ofs: nat, size: nat): nat
    requires 0 < bs
  {
    DivParts(ofs, bs);
    DivParts(ofs + size, bs);
    if size == 0 then ofs / bs else (ofs + size - 1) / bs + 1
  }

  lemma DivRem(x: nat, q: nat, r: nat, d: nat)
    requires 0 < d && r < d && x == q * d + r
    ensures x / d == q && x % d == r
  {
    assert x == x / d * d + x % d;
    if x / d < q { MulMono(q, x / d + 1, d); }
    if x / d > q { MulMono(x / d, q + 1, d); }
  }

  /** One pass copies a piece of one block behind what is already there. */
  lemma PieceHolds(bs: nat, blocks: seq<seq<byte>>, in_: Raw, ofs: nat, n: nat, block: nat, offset: nat, k: nat,
                   was: seq<byte>, now: seq<byte>)
    requires FileOk(bs, blocks, in_) && Holds(bs, blocks, in_, ofs, n, was) && block < 12
    requires ofs + n == block * bs + offset && offset + k <= bs && n + k <= |was|
    requires now == Put(was, n, blocks[BlockNo(in_, block)][offset..offset + k])
    ensures Holds(bs, blocks, in_, ofs, n + k, now)
  {
    hide IsContent, Put, BlockNo;
    PutAt(was, n, blocks[BlockNo(in_, block)][offset..offset + k]);
    forall j | 0 <= j < n + k ensures IsContent(bs, blocks, in_, ofs + j, now[j]) {
      if j >= n { PieceAt(bs, blocks, in_, ofs + j, block, offset + (j - n)); }
    }
  }

  lemma PieceAt(bs: nat, blocks: seq<seq<byte>>, in_: Raw, p: nat, block: nat, r: nat)
    requires FileOk(bs, blocks, in_) && block < 12 && r < bs && p == block * bs + r
    ensures IsContent(bs, blocks, in_, p, blocks[BlockNo(in_, block)][r])
  {
    DivRem(p, block, r, bs);
  }

  method ReadInodeBlock(disk: Disk, in_: Raw, tmp: array<byte>, block: nat) returns (panicked: bool)
    requires disk.Valid() && FileOk(disk.sb.blockSize, disk.blocks, in_) && tmp.Length == disk.sb.blockSize
    modifies tmp
    ensures panicked == (block >= 12)
    ensures !panicked ==> tmp[..] == disk.blocks[BlockNo(in_, block)]
  {
    if block >= 12 {
      return true;
    }
    disk.ReadBlock(tmp, BlockNo(in_, block));
    panicked := false;
  }

  /** ext2_file_read: for every offset and size it fills the buffer with the flat content,
      or panics, which it does exactly when it asks for a thirteenth block. */
  method FileRead(disk: Disk, in_: Raw, ofs: nat, size: nat, buffer: array<byte>) returns (numRead: nat, panicked: bool)
    requires disk.Valid() && FileOk(disk.sb.blockSize, disk.blocks, in_) && size <= buffer.Length
    modifies buffer
    ensures panicked <==> LastBlockAsked(disk.sb.blockSize, ofs, size) >= 12
    ensures !panicked ==> numRead == size && Holds(disk.sb.blockSize, disk.blocks, in_, ofs, size, buffer[..])
    ensures forall j :: size <= j < buffer.Length ==> buffer[j] == old(buffer[j])
  {
    hide FileOk, Holds, Passing, LastBlockAsked, Put, BlockNo;
    var blockSize := disk.sb.blockSize;
    ValidFile(disk, in_);
    HoldsNone(blockSize, disk.blocks, in_, ofs, buffer[..]);
    var tmp := new byte[blockSize];
    numRead := 0;
    var left: nat := size;
    DivParts(ofs, blockSize);
    var blockStart: nat, blockOffset: nat := ofs / blockSize, ofs % blockSize;
    var toRead: nat := 1;
    FirstPass(blockSize, ofs, size);
    while toRead > 0
      invariant numRead + left == size && blockOffset < blockSize && toRead >= 0
      invariant Holds(disk.sb.blockSize, disk.blocks, in_, ofs, numRead, buffer[..])
      invariant toRead > 0 ==> Passing(blockSize, ofs, size, numRead, blockStart, blockOffset)
      invariant toRead == 0 ==> left == 0 && LastBlockAsked(disk.sb.blockSize, ofs, size) < 12
      invariant forall j :: size <= j < buffer.Length ==> buffer[j] == old(buffer[j])
      decreases left, toRead
    {
      toRead := if blockSize - blockOffset > left then left else blockSize - blockOffset;
      NextPass(blockSize, ofs, size, numRead, blockStart, blockOffset, toRead);
      panicked := ReadInodeBlock(disk, in_, tmp, blockStart);
      if panicked {
        return;
      }
      ghost var was := buffer[..];
      CopyInto(buffer, numRead, tmp[blockOffset..blockOffset + toRead]);
      PutAt(was, numRead, tmp[blockOffset..blockOffset + toRead]);
      if toRead > 0 {
        PieceHolds(disk.sb.blockSize, disk.blocks, in_, ofs, numRead, blockStart, blockOffset, toRead, was, buffer[..]);
      } else {
        assert buffer[..] == was;
      }
      left := left - toRead;
      numRead := numRead + toRead;
      blockStart := blockStart + 1;
      blockOffset := 0;
    }
    panicked := false;
  }

  lemma ValidFile(disk: Disk, in_: Raw)
    requires disk.Valid() && FileOk(disk.sb.blockSize, disk.blocks, in_)
    ensures disk.sb.blockSize > 0
    ensures forall i :: 0 <= i < 12 ==>
      BlockNo(in_, i) < |disk.blocks| && |disk.blocks[BlockNo(in_, i)]| == disk.sb.blockSize
  {
  }

  lemma HoldsNone(bs: nat, blocks: seq<seq<byte>>, in_: Raw, ofs: nat, buffer: seq<byte>)
    requires FileOk(bs, blocks, in_)
    ensures Holds(bs, blocks, in_, ofs, 0, buffer)
  {
  }

  /** Between passes: the next byte is at `offset` of block `start`, and that block will
      be asked for. */
  ghost predicate Passing(bs: nat, ofs: nat, size: nat, done: nat, start: nat, offset: nat)
    requires 0 < bs
  {
    && done <= size && start <= LastBlockAsked(bs, ofs, size)
    && (if done < size || done == 0 then ofs + done == start * bs + offset
        else offset == 0 && start == LastBlockAsked(bs, ofs, size))
  }

  lemma FirstPass(bs: nat, ofs: nat, size: nat)
    requires 0 < bs
    ensures Passing(bs, ofs, size, 0, ofs / bs, ofs % bs)
  {
    assert ofs == ofs / bs * bs + ofs % bs;
    if size > 0 { DivMono(ofs, ofs + size - 1, bs); }
  }

  lemma NextPass(bs: nat, ofs: nat, size: nat, done: nat, start: nat, offset: nat, k: nat)
    requires 0 < bs && Passing(bs, ofs, size, done, start, offset) && offset < bs
    requires k == if bs - offset > size - done then size - done else bs - offset
    ensures k > 0 ==> Passing(bs, ofs, size, done + k, start + 1, 0) && ofs + done == start * bs + offset
    ensures k == 0 ==> start == LastBlockAsked(bs, ofs, size) && done == size
    ensures start <= LastBlockAsked(bs, ofs, size)
  {
    if k == 0 {
      if size == 0 { DivRem(ofs, start, offset, bs); }
    } else if done + k == size {
      DivRem(ofs + size - 1, start, offset + k - 1, bs);
    } else {
      assert ofs + done + k == (start + 1) * bs;
      DivRem(ofs + done + k, start + 1, 0, bs);
      DivMono(ofs + done + k, ofs + size - 1, bs);
    }
  }

  /** ext2_read_inode: whole blocks straight into the buffer, then the rest of one more.
      It reads no more than the file has, and panics exactly on a thirteenth block. */
  method ReadInode(disk: Disk, in_: Raw, buffer: array<byte>, size: nat) returns (numRead: nat, panicked: bool)
    requires disk.Valid() && FileOk(disk.sb.blockSize, disk.blocks, in_) && size <= buffer.Length
    modifies buffer
    ensures panicked <==> Fsize(in_, size) > 12 * disk.sb.blockSize
    ensures !panicked ==> numRead == Fsize(in_, size) && Holds(disk.sb.blockSize, disk.blocks, in_, 0, numRead,
                                                               buffer[..])
    ensures forall j :: size <= j < buffer.Length ==> buffer[j] == old(buffer[j])
  {
    hide FileOk, Holds, Put, BlockNo;
    var blockSize := disk.sb.blockSize;
    ValidFile(disk, in_);
    HoldsNone(blockSize, disk.blocks, in_, 0, buffer[..]);
    var transfer := new byte[blockSize];
    numRead := Fsize(in_, size);
    DivParts(numRead, blockSize);
    var full: nat, remainder: nat := numRead / blockSize, numRead % blockSize;
    assert numRead == full * blockSize + remainder;
    var i: nat := 0;
    while i < full
      invariant i <= full && i <= 12 && i * blockSize <= numRead
      invariant Holds(blockSize, disk.blocks, in_, 0, i * blockSize, buffer[..])
      invariant forall j :: size <= j < buffer.Length ==> buffer[j] == old(buffer[j])
    {
      MulMono(full, i + 1, blockSize);
      panicked := ReadInodeBlock(disk, in_, transfer, i);
      if panicked {
        MulMono(i, 12, blockSize);
        return;
      }
      assert (i + 1) * blockSize == i * blockSize + blockSize;
      AddPiece(disk, in_, transfer, i, blockSize, buffer);
      i := i + 1;
    }
    if i * blockSize < numRead {
      panicked := ReadInodeBlock(disk, in_, transfer, i);
      if panicked {
        MulMono(i, 12, blockSize);
        return;
      }
      MulMono(11, i, blockSize);
      AddPiece(disk, in_, transfer, i, remainder, buffer);
    } else {
      MulMono(12, i, blockSize);
    }
    panicked := false;
  }

  function Fsize(in_: Raw, size: nat): nat { if Size(in_) > size then size else Size(in_) }

  /** The first `k` bytes of block `i`, copied to their place. */
  method AddPiece(disk: Disk, in_: Raw, transfer: array<byte>, i: nat, k: nat, buffer: array<byte>)
    requires disk.Valid() && FileOk(disk.sb.blockSize, disk.blocks, in_) && i < 12
    requires transfer[..] == disk.blocks[BlockNo(in_, i)]
    requires k <= disk.sb.blockSize && i * disk.sb.blockSize + k <= buffer.Length && transfer != buffer
    requires Holds(disk.sb.blockSize, disk.blocks, in_, 0, i * disk.sb.blockSize, buffer[..])
    modifies buffer
    ensures Holds(disk.sb.blockSize, disk.blocks, in_, 0, i * disk.sb.blockSize + k, buffer[..])
    ensures forall j :: i * disk.sb.blockSize + k <= j < buffer.Length ==> buffer[j] == old(buffer[j])
  {
    hide FileOk, Holds, Put, BlockNo;
    ValidFile(disk, in_);
    var at: nat := i * disk.sb.blockSize;
    ghost var was := buffer[..];
    CopyInto(buffer, at, transfer[0..k]);
    PieceHolds(disk.sb.blockSize, disk.blocks, in_, 0, at, i, 0, k, was, buffer[..]);
    PutAt(was, at, transfer[0..k]);
  }

  /** From offset 0 both readers fill the buffer with the same content, as far as neither
      panics; ext2_file_read already panics when it is asked for part of the last block. */
  lemma FileReadPanicsEarlier(bs: nat, size: nat)
    requires 0 < bs
    ensures LastBlockAsked(bs, 0, size) >= 12 <==> size > 11 * bs
  {
    if size > 0 {
      DivParts(size - 1, bs);
      assert size - 1 == (size - 1) / bs * bs + (size - 1) % bs;
      if size > 11 * bs {
        DivRem(11 * bs, 11, 0, bs);
        DivMono(11 * bs, size - 1, bs);
      } else if (size - 1) / bs >= 11 {
        MulMono((size - 1) / bs, 11, bs);
      }
    } else {
      DivRem(0, 0, 0, bs);
    }
  }
}
