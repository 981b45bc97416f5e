/** The on-disk layout shared by lab8/tools/mksfs.c and any reader of its images:
    little-endian words in 4096-byte blocks.
 */
module SfsLayout {
  import opened Octets

  const BLKSIZE: nat := 4096
  const NDIRECT: nat := 12
  const NENTRY: nat := 1024                 // words in an index block
  const L1_NBLKS: nat := 1036               // first block number past the indirect block
  const LN_NBLKS: nat := 32768              // SFS_MAX_FILE_SIZE / SFS_BLKSIZE
  const BLKBITS: nat := 32768               // bits in a free-map block
  const MAX_NBLKS: nat := 524288
  const MAX_FNAME_LEN: nat := 255
  const MAGIC: nat := 0x2f8dbe2a
  const BLKN_SUPER: nat := 0
  const BLKN_ROOT: nat := 1
  const BLKN_FREEMAP: nat := 2

  datatype Kind = FileKind | DirKind | LinkKind

  function KindCode(k: Kind): nat {
    match k
    case FileKind => 1
    case DirKind => 2
    case LinkKind => 3
  }

  /** struct inode, as cached and as written. */
  datatype Inode = Inode(size: nat, kind: Kind, nlinks: nat, blocks: nat,
                         direct: seq<nat>, indirect: nat, dbIndirect: nat)

  // ---------- blocks ----------

  /** write_block zero-fills a short block. */
  function Pad(data: Bytes): (b: Bytes)
    requires |data| <= BLKSIZE
    ensures |b| == BLKSIZE && b[..|data|] == data
  {
    data + Zeros(BLKSIZE - |data|)
  }

  function InodeBytes(i: Inode): (b: Bytes)
    requires |i.direct| == NDIRECT
    ensures |b| == 68
  {
    Word32(i.size) + Word16(KindCode(i.kind)) + Word16(i.nlinks) + Word32(i.blocks)
    + Words(i.direct) + Word32(i.indirect) + Word32(i.dbIndirect)
  }

  predicate Fits(i: Inode) {
    && i.size < U32 && i.nlinks < U16 && i.blocks < U32
    && |i.direct| == NDIRECT && (forall k :: 0 <= k < NDIRECT ==> i.direct[k] < U32)
    && i.indirect < U32 && i.dbIndirect < U32
  }

  function ReadKind(code: nat): Kind {
    if code == 1 then FileKind else if code == 2 then DirKind else LinkKind
  }

  function ReadInode(b: Bytes): (i: Inode)
    requires |b| == BLKSIZE
    ensures |i.direct| == NDIRECT
  {
    Inode(ReadWord32(b, 0), ReadKind(ReadWord16(b, 4)), ReadWord16(b, 6), ReadWord32(b, 8),
          seq(NDIRECT, k requires 0 <= k < NDIRECT => ReadWord32(b, 12 + 4 * k)), ReadWord32(b, 60), ReadWord32(b, 64))
  }

  /** The bytes of b spell out the fields of i where struct inode has them. */
  ghost predicate HoldsInode(b: Bytes, i: Inode) {
    && |b| == BLKSIZE && |i.direct| == NDIRECT
    && b[0..4] == Word32(i.size) && b[4..6] == Word16(KindCode(i.kind)) && b[6..8] == Word16(i.nlinks)
    && b[8..12] == Word32(i.blocks) && b[60..64] == Word32(i.indirect) && b[64..68] == Word32(i.dbIndirect)
    && forall k :: 0 <= k < NDIRECT ==> b[12 + 4 * k..16 + 4 * k] == Word32(i.direct[k])
  }

  /** An inode that fits its fields is read back from its block unchanged. */
  lemma InodeRoundTrip(i: Inode)
    requires Fits(i)
    ensures ReadInode(Pad(InodeBytes(i))) == i
  {
    InodeFields(i);
    forall k | 0 <= k < NDIRECT ensures Pad(InodeBytes(i))[12 + 4 * k..16 + 4 * k] == Word32(i.direct[k]) {
      DirectField(i, k);
    }
    ReadScalars(Pad(InodeBytes(i)), i);
    ReadDirect(Pad(InodeBytes(i)), i);
  }

  lemma ReadScalars(b: Bytes, i: Inode)
    requires Fits(i) && HoldsInode(b, i)
    ensures ReadInode(b).(direct := i.direct) == i
  {
    var w4, w6 := ReadWord16(b, 4), ReadWord16(b, 6);
    var w0, w8, w60, w64 := ReadWord32(b, 0), ReadWord32(b, 8), ReadWord32(b, 60), ReadWord32(b, 64);
    assert w0 == i.size by { Word32RoundTrip(i.size, b, 0); }
    assert w4 == KindCode(i.kind) by { Word16RoundTrip(KindCode(i.kind), b, 4); }
    assert w6 == i.nlinks by { Word16RoundTrip(i.nlinks, b, 6); }
    assert w8 == i.blocks by { Word32RoundTrip(i.blocks, b, 8); }
    assert w60 == i.indirect by { Word32RoundTrip(i.indirect, b, 60); }
    assert w64 == i.dbIndirect by { Word32RoundTrip(i.dbIndirect, b, 64); }
  }

  lemma ReadDirect(b: Bytes, i: Inode)
    requires Fits(i) && HoldsInode(b, i)
    ensures ReadInode(b).direct == i.direct
  {
    forall k | 0 <= k < NDIRECT ensures ReadWord32(b, 12 + 4 * k) == i.direct[k] {
      ReadDirectAt(b, i, k);
    }
  }

  lemma ReadDirectAt(b: Bytes, i: Inode, k: nat)
    requires Fits(i) && HoldsInode(b, i) && k < NDIRECT
    ensures ReadWord32(b, 12 + 4 * k) == i.direct[k]
  {
    Word32RoundTrip(i.direct[k], b, 12 + 4 * k);
  }

  lemma InodeFields(i: Inode)
    requires |i.direct| == NDIRECT
    ensures var b := Pad(InodeBytes(i));
      && b[0..4] == Word32(i.size) && b[4..6] == Word16(KindCode(i.kind)) && b[6..8] == Word16(i.nlinks)
      && b[8..12] == Word32(i.blocks) && b[60..64] == Word32(i.indirect) && b[64..68] == Word32(i.dbIndirect)
  {
    var raw, b := InodeBytes(i), Pad(InodeBytes(i));
    FrontFields(i);
    BackFields(i);
    forall lo: nat, hi: nat | lo <= hi <= 68 ensures b[lo..hi] == raw[lo..hi] {
      assert b[..68][lo..hi] == b[lo..hi];
    }
  }

  lemma FrontFields(i: Inode)
    requires |i.direct| == NDIRECT
    ensures var raw := InodeBytes(i);
      && raw[0..4] == Word32(i.size) && raw[4..6] == Word16(KindCode(i.kind)) && raw[6..8] == Word16(i.nlinks)
      && raw[8..12] == Word32(i.blocks)
  {
  }

  lemma BackFields(i: Inode)
    requires |i.direct| == NDIRECT
    ensures var raw := InodeBytes(i); raw[60..64] == Word32(i.indirect) && raw[64..68] == Word32(i.dbIndirect)
  {
  }

  lemma DirectField(i: Inode, k: nat)
    requires |i.direct| == NDIRECT && k < NDIRECT
    ensures Pad(InodeBytes(i))[12 + 4 * k..16 + 4 * k] == Word32(i.direct[k])
  {
    var raw := InodeBytes(i);
    WordsAt(i.direct, k);
    assert raw[12..60] == Words(i.direct);
    assert Pad(raw)[12 + 4 * k..16 + 4 * k] == raw[12..60][4 * k..4 * k + 4];
  }

  lemma IndexRoundTrip(xs: seq<nat>, k: nat)
    requires |xs| == NENTRY && k < NENTRY && xs[k] < U32
    ensures ReadWord32(Pad(Words(xs)), 4 * k) == xs[k]
  {
    WordsAt(xs, k);
    assert Pad(Words(xs)) == Words(xs);
    Word32RoundTrip(xs[k], Words(xs), 4 * k);
  }

  // ---------- directory entries ----------

  /** strcpy into the 256-byte name field: what lies past the terminator stays. */
  function Strcpy(buf: Bytes, name: Bytes): (b: Bytes)
    requires |buf| == 256 && |name| <= MAX_FNAME_LEN
    ensures |b| == 256
  {
    name + [0] + buf[|name| + 1..]
  }

  /** add_entry writes as many bytes as the name field is long, starting at the inode number before it. */
  function EntryBytes(ino: nat, buf: Bytes): (b: Bytes)
    requires |buf| == 256
    ensures |b| == 256
  {
    Word32(ino) + buf[..252]
  }

  function ReadEntryIno(b: Bytes): nat
    requires |b| == BLKSIZE
  {
    ReadWord32(b, 0)
  }

  function ReadEntryName(b: Bytes): Bytes
    requires |b| == BLKSIZE
  {
    CString(b[4..260])
  }

  /** The first most bytes of a name. */
  function Cut(name: Bytes, most: nat): (s: Bytes)
    ensures s == name <==> |name| <= most
  {
    if |name| <= most then name else name[..most]
  }

  /** How much of a name is written: the last four bytes of the name field are not. */
  const NAME_WRITTEN: nat := 252

  lemma EntryRoundTrip(ino: nat, buf: Bytes, name: Bytes)
    requires |buf| == 256 && |name| <= MAX_FNAME_LEN && NoNul(name) && ino < U32
    ensures var b := Pad(EntryBytes(ino, Strcpy(buf, name)));
      ReadEntryIno(b) == ino && ReadEntryName(b) == Cut(name, NAME_WRITTEN)
  {
    var field := Strcpy(buf, name);
    var b := Pad(EntryBytes(ino, field));
    assert b[0..4] == Word32(ino);
    Word32RoundTrip(ino, b, 0);
    assert b[4..260] == field[..252] + Zeros(4);
    NameField(buf, name);
  }

  lemma NameField(buf: Bytes, name: Bytes)
    requires |buf| == 256 && |name| <= MAX_FNAME_LEN && NoNul(name)
    ensures CString(Strcpy(buf, name)[..252] + Zeros(4)) == Cut(name, NAME_WRITTEN)
  {
    CStringIs(Strcpy(buf, name)[..252] + Zeros(4), Cut(name, NAME_WRITTEN));
  }
}
