/** The layout of an image in plain bytes: what the words in SfsLayout and SfsReader stand for, position by position. */
module SfsBytes {
  import opened Octets
  import opened SfsLayout
  import opened SfsModel
  import opened SfsBlockMap
  import opened SfsImage
  import opened SfsReader
  import opened SfsPlain

  /** Two or four bytes as a number, the first one counting least. */
  function Little16(b: Bytes, at: nat): nat
    requires at + 2 <= |b|
  {
    b[at] as nat + b[at + 1] as nat * 256
  }

  function Little32(b: Bytes, at: nat): nat
    requires at + 4 <= |b|
  {
    b[at] as nat + b[at + 1] as nat * 256 + b[at + 2] as nat * 65536 + b[at + 3] as nat * 16777216
  }

  lemma LittleIs(b: Bytes, at: nat)
    requires at + 4 <= |b|
    ensures ReadWord32(b, at) == Little32(b, at)
  {
  }

  lemma PartAt(b: Bytes, at: nat, part: Bytes)
    requires at + |part| <= |b| && b[at..at + |part|] == part
    ensures forall i {:trigger part[i]} :: 0 <= i < |part| ==> b[at + i] == part[i]
  {
    assert forall i {:trigger part[i]} :: 0 <= i < |part| ==> b[at..at + |part|][i] == b[at + i];
  }

  /** The superblock starts with the magic number 0x2f8dbe2a, the number of blocks and that of the free ones. */
  ghost predicate SuperSays(b: Bytes, ninos: nat, unused: int) {
    |b| == 4096 && b[0..4] == [42, 190, 141, 47] && Little32(b, 4) == ninos && Little32(b, 8) == unused
  }

  lemma SuperSaysIt(ninos: nat, unused: nat, info: Bytes)
    requires |info| == 32 && ninos < U32 && unused < U32
    ensures SuperSays(Pad(SuperBytes(ninos, unused, info)), ninos, unused)
  {
    var b := Pad(SuperBytes(ninos, unused, info));
    SuperRoundTrip(ninos, unused, info);
    LittleIs(b, 4);
    LittleIs(b, 8);
    assert b[0..4] == Word32(MAGIC) == [42, 190, 141, 47];
  }

  /** What a reader takes from an inode block. */
  ghost predicate InodeBytesSay(b: Bytes, i: Inode)
    requires |b| == 4096
  {
    && i.size == Little32(b, 0) && i.nlinks == Little16(b, 6) && i.blocks == Little32(b, 8)
    && (Little16(b, 4) == 1 ==> i.kind == FileKind) && (Little16(b, 4) == 2 ==> i.kind == DirKind)
    && (Little16(b, 4) == 3 ==> i.kind == LinkKind)
    && |i.direct| == 12 && (forall k :: 0 <= k < 12 ==> i.direct[k] == Little32(b, 12 + 4 * k))
    && i.indirect == Little32(b, 60) && i.dbIndirect == Little32(b, 64)
  }

  lemma InodeIsRead(b: Bytes)
    requires |b| == 4096
    ensures InodeBytesSay(b, ReadInode(b))
  {
    forall k | 0 <= k < 12 ensures ReadInode(b).direct[k] == Little32(b, 12 + 4 * k) {
      LittleIs(b, 12 + 4 * k);
    }
  }

  /** What the tool puts there, its kind among it: 1, 2 or 3. */
  lemma InodeIsWritten(i: Inode)
    requires Fits(i)
    ensures var b := Pad(InodeBytes(i));
      && InodeBytesSay(b, i)
      && Little16(b, 4) == (match i.kind case FileKind => 1 case DirKind => 2 case LinkKind => 3)
  {
    var b := Pad(InodeBytes(i));
    InodeRoundTrip(i);
    InodeIsRead(b);
    InodeFields(i);
    Word16RoundTrip(KindCode(i.kind), b, 4);
  }

  /** An entry block: the inode number, then the name up to a NUL, or to byte 256. */
  ghost predicate EntryBytesSay(b: Bytes, ino: nat, name: Bytes)
    requires |b| == 4096
  {
    && ino == Little32(b, 0) && |name| <= 256 && (forall i :: 0 <= i < |name| ==> b[4 + i] == name[i] != 0)
    && (|name| < 256 ==> b[4 + |name|] == 0)
  }

  lemma EntryIsRead(b: Bytes)
    requires |b| == 4096
    ensures EntryBytesSay(b, ReadEntryIno(b), ReadEntryName(b))
  {
    LittleIs(b, 0);
    var field, name := b[4..260], ReadEntryName(b);
    PartAt(b, 4, field);
    assert forall i {:trigger name[i]} :: 0 <= i < |name| ==> name[i] == field[..|name|][i] == field[i];
    if |name| < 256 { assert field[|name|] == 0; }
  }

  /** The block of entry k: 12 direct ones, then 1024 words of the indirect block, then 1024 blocks of 1024 words. */
  lemma BlockIsFound(img: Image, i: Inode, k: nat)
    requires |i.direct| == 12
    ensures k < 12 ==> BlockOf(img, i, k) == i.direct[k]
    ensures 12 <= k < 1036 && HasBlock(img, i.indirect) && i.indirect != 0 ==>
      BlockOf(img, i, k) == Little32(img[i.indirect], 4 * (k - 12))
    ensures 1036 <= k < 1036 + 1024 * 1024 && HasBlock(img, i.dbIndirect) && i.dbIndirect != 0 ==>
      var x := Little32(img[i.dbIndirect], 4 * ((k - 1036) / 1024));
      x != 0 && HasBlock(img, x) ==> BlockOf(img, i, k) == Little32(img[x], 4 * ((k - 1036) % 1024))
  {
    if 12 <= k < 1036 && HasBlock(img, i.indirect) {
      LittleIs(img[i.indirect], 4 * (k - 12));
    }
    if 1036 <= k < 1036 + 1024 * 1024 && HasBlock(img, i.dbIndirect) && i.dbIndirect != 0 {
      var j := (k - 1036) / 1024;
      LittleIs(img[i.dbIndirect], 4 * j);
      var x := Little32(img[i.dbIndirect], 4 * j);
      if x != 0 && HasBlock(img, x) { LittleIs(img[x], 4 * ((k - 1036) % 1024)); }
    }
  }

  /** Byte j of a file is byte j % 4096 of its block j / 4096. */
  lemma ByteIsFound(img: Image, i: Inode, j: nat)
    requires j < i.size
    ensures var b := BlockOf(img, i, j / 4096); HasBlock(img, b) ==> DataOf(img, i)[j] == img[b][j % 4096]
  {
  }

  /** The bit of block number b: bit b % 8 of byte b / 8 % 4096 of block 2 + b / 32768. */
  lemma BitIsFound(img: Image, b: nat)
    requires HasBlock(img, 2 + b / 32768)
    ensures MapBit(img, b) <==>
      img[2 + b / 32768][b / 8 % 4096] as nat / [1, 2, 4, 8, 16, 32, 64, 128][b % 8] % 2 == 1
  {
    assert b % 32768 / 8 == b / 8 % 4096 && b % 32768 % 8 == b % 8;
    ShiftIs(img[2 + b / 32768][b / 8 % 4096] as nat, b % 8);
  }

  lemma ShiftIs(v: nat, k: nat)
    requires k < 8
    ensures Shift(v, k) == v / [1, 2, 4, 8, 16, 32, 64, 128][k]
  {
    assert Shift(v, 1) == v / 2;
    assert Shift(v / 2, 1) == v / 4;
  }
}
