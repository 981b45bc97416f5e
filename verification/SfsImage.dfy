/** What close_sfs leaves in an image besides data and entry blocks: the
    superblock, the free map, and every cached inode and index block.
 */
module SfsImage {
  import opened Octets
  import opened SfsLayout
  import opened SfsModel
  import opened SfsBlockMap

  type Image = map<nat, Bytes>

  // ---------- the start of a run ----------

  /** Free-map blocks of an image of ninos blocks. */
  function FreeMapBlocks(ninos: nat): nat {
    (ninos + BLKBITS - 1) / BLKBITS
  }

  /** The first block number that is not the superblock, the root inode or the free map. */
  function FirstFree(ninos: nat): nat {
    BLKN_FREEMAP + FreeMapBlocks(ninos)
  }

  /** create_sfs keeps the block count of the file in a uint32_t before it compares it. */
  function BlockCount(size: nat): nat {
    var n := size / BLKSIZE % U32;
    if n > MAX_NBLKS then MAX_NBLKS else n
  }

  /** An image with nothing in it but a root inode, under host number 0. */
  function Fresh(ninos: nat): Model {
    Model(ninos, FirstFree(ninos), map[BLKN_ROOT := AFile(DirKind, 0, 0, 0, [])], map[0 := BLKN_ROOT],
          map[], map[], {}, Zeros(256))
  }

  function Create(size: nat): Outcome {
    var ninos := BlockCount(size);
    if FirstFree(ninos) >= ninos then Abort(ImageTooSmall) else Done(Fresh(ninos))
  }

  // ---------- the cached inodes ----------

  /** The cached inode of every file says what the abstract file says. */
  ghost predicate Coupled(inodes: map<nat, CInode>, ix: Index, files: map<nat, AFile>) {
    && inodes.Keys == files.Keys
    && forall i {:trigger Describes(i, inodes[i], ix, files[i])} :: i in inodes ==>
        Describes(i, inodes[i], ix, files[i])
  }

  ghost predicate Describes(i: nat, c: CInode, ix: Index, a: AFile) {
    && MapsTo(i, c, ix, a.blks) && Current(c, ix)
    && c.hino == a.hino && c.inode.kind == a.kind && c.inode.size == a.size && c.inode.nlinks == a.nlinks
  }

  // ---------- superblock ----------

  function SuperBytes(ninos: nat, unused: nat, info: Bytes): (b: Bytes)
    requires |info| == 32
    ensures |b| == 44
  {
    Word32(MAGIC) + Word32(ninos) + Word32(unused) + info
  }

  lemma SuperRoundTrip(ninos: nat, unused: nat, info: Bytes)
    requires |info| == 32 && ninos < U32 && unused < U32
    ensures var b := Pad(SuperBytes(ninos, unused, info));
      ReadWord32(b, 0) == MAGIC && ReadWord32(b, 4) == ninos && ReadWord32(b, 8) == unused
  {
    var b := Pad(SuperBytes(ninos, unused, info));
    assert b[0..4] == Word32(MAGIC) && b[4..8] == Word32(ninos) && b[8..12] == Word32(unused);
    Word32RoundTrip(MAGIC, b, 0);
    Word32RoundTrip(ninos, b, 4);
    Word32RoundTrip(unused, b, 8);
  }

  // ---------- free map ----------

  /** v >> k */
  function Shift(v: nat, k: nat): nat {
    if k == 0 then v else Shift(v / 2, k - 1)
  }

  /** Words are little-endian, so bit j of the map is bit j % 8 of byte j / 8. */
  function ReadBit(b: Bytes, j: nat): bool
    requires j / 8 < |b|
  {
    Shift(b[j / 8], j % 8) % 2 == 1
  }

  /** The number with these binary digits, least significant first. */
  function Value(bits: seq<bool>): (v: nat)
    requires |bits| <= 8
    ensures v < [1, 2, 4, 8, 16, 32, 64, 128, 256][|bits|]
  {
    if bits == [] then 0 else (if bits[0] then 1 else 0) + 2 * Value(bits[1..])
  }

  lemma {:induction false} ValueBit(bits: seq<bool>, k: nat)
    requires k < |bits| <= 8
    ensures Shift(Value(bits), k) % 2 == 1 <==> bits[k]
  {
    if k > 0 {
      assert Value(bits) / 2 == Value(bits[1..]);
      ValueBit(bits[1..], k - 1);
    }
  }

  /** A buffer of bits as the bytes that hold them. */
  function BitBytes(bits: seq<bool>): (b: Bytes)
    requires |bits| == BLKBITS
    ensures |b| == BLKSIZE
  {
    seq(BLKSIZE, i requires 0 <= i < BLKSIZE => Value(bits[8 * i..8 * i + 8]))
  }

  lemma BitRoundTrip(bits: seq<bool>, j: nat)
    requires |bits| == BLKBITS && j < BLKBITS
    ensures ReadBit(BitBytes(bits), j) == bits[j]
  {
    var at := 8 * (j / 8);
    ValueBit(bits[at..at + 8], j % 8);
  }

  /** Bit j of free-map block i, as close_sfs means it: block number i * BLKBITS + j is free. */
  predicate Free(m: Model, b: nat) {
    m.next <= b < m.ninos
  }

  /** The bits of the free-map block for the block numbers from i on. */
  ghost function FreeBits(m: Model, i: nat): seq<bool> {
    seq(BLKBITS, j requires 0 <= j < BLKBITS => Free(m, i + j))
  }

  ghost function FreeMapBytes(m: Model, b: nat): (data: Bytes)
    requires b >= BLKN_FREEMAP
    ensures |data| == BLKSIZE
  {
    BitBytes(FreeBits(m, (b - BLKN_FREEMAP) * BLKBITS))
  }

  ghost predicate FreeMapBlockHolds(img: Image, m: Model, b: nat) {
    b >= BLKN_FREEMAP && b in img && img[b] == FreeMapBytes(m, b)
  }

  ghost predicate FreeMapHolds(img: Image, m: Model) {
    forall b: nat :: BLKN_FREEMAP <= b < FirstFree(m.ninos) ==> FreeMapBlockHolds(img, m, b)
  }

  /** Block number b's bit in the free map. */
  function MapBit(img: Image, b: nat): bool {
    var x := BLKN_FREEMAP + b / BLKBITS;
    x in img && |img[x]| == BLKSIZE && ReadBit(img[x], b % BLKBITS)
  }

  /** Bits set among the first n of the free map. */
  function CountBits(img: Image, n: nat): nat {
    if n == 0 then 0 else CountBits(img, n - 1) + if MapBit(img, n - 1) then 1 else 0
  }

  /** The bit of b is set exactly when b is free... */
  lemma MapBitMeansFree(img: Image, m: Model, b: nat)
    requires FreeMapHolds(img, m) && b < FreeMapBlocks(m.ninos) * BLKBITS
    ensures MapBit(img, b) <==> Free(m, b)
  {
    var x, j := BLKN_FREEMAP + b / BLKBITS, b % BLKBITS;
    assert FreeMapBlockHolds(img, m, x);
    BitRoundTrip(FreeBits(m, b - j), j);
  }

  /** ... so the map counts ninos - next free blocks in all. */
  lemma {:induction false} CountIsFree(img: Image, m: Model, n: nat)
    requires FreeMapHolds(img, m) && m.next <= m.ninos && n <= FreeMapBlocks(m.ninos) * BLKBITS
    ensures CountBits(img, n) == if n <= m.next then 0 else if n <= m.ninos then n - m.next else m.ninos - m.next
  {
    if n > 0 {
      CountIsFree(img, m, n - 1);
      MapBitMeansFree(img, m, n - 1);
    }
  }

  // ---------- what every block of an image is for ----------

  predicate Within(lo: nat, b: nat, hi: nat) {
    lo <= b < hi
  }

  ghost function Range(lo: nat, hi: nat): set<nat> {
    set b: nat {:trigger Within(lo, b, hi)} | lo <= b < hi && Within(lo, b, hi)
  }

  lemma RangeFirst(lo: nat, hi: nat)
    requires lo < hi
    ensures Range(lo, hi) == {lo} + Range(lo + 1, hi)
  {
    forall b: nat ensures b in Range(lo, hi) <==> b in {lo} + Range(lo + 1, hi) {
      assert Within(lo, b, hi) <==> b == lo || Within(lo + 1, b, hi);
    }
  }

  lemma RangeSplit(lo: nat, mid: nat, hi: nat)
    requires lo <= mid <= hi
    ensures Range(lo, hi) == Range(lo, mid) + Range(mid, hi) && Range(lo, mid) !! Range(mid, hi)
  {
    forall b: nat ensures b in Range(lo, hi) <==> b in Range(lo, mid) + Range(mid, hi) {
      assert Within(lo, b, hi) <==> Within(lo, b, mid) || Within(mid, b, hi);
    }
  }

  /** The numbers handed out, and the root inode's. */
  ghost function Allocated(m: Model): set<nat> {
    {BLKN_ROOT} + Range(FirstFree(m.ninos), m.next)
  }

  /** Each of them has one owner: data or entry, inode, or index block. */
  ghost predicate Partitioned(m: Model) {
    && m.blocks.Keys !! m.files.Keys && m.blocks.Keys !! m.index && m.files.Keys !! m.index
    && m.blocks.Keys + m.files.Keys + m.index == Allocated(m)
    && FirstFree(m.ninos) <= m.next
  }

  // ---------- writing a list of blocks ----------

  ghost predicate NoneTwice(list: seq<nat>) {
    forall k, k' :: 0 <= k < k' < |list| ==> list[k] != list[k']
  }

  /** The image after the blocks listed were written, in order. */
  ghost function Put(img: Image, list: seq<nat>, content: Image): Image {
    if list == [] then img
    else
      var b := list[|list| - 1];
      var img1 := Put(img, list[..|list| - 1], content);
      if b in content then img1[b := content[b]] else img1
  }

  lemma {:induction false} PutTwice(img: Image, a: seq<nat>, b: seq<nat>, content: Image)
    ensures Put(img, a + b, content) == Put(Put(img, a, content), b, content)
  {
    if b == [] {
      assert a + b == a;
    } else {
      var n := |b| - 1;
      assert (a + b)[..|a + b| - 1] == a + b[..n];
      PutTwice(img, a, b[..n], content);
    }
  }

  lemma PutOne(img: Image, b: nat, content: Image)
    requires b in content
    ensures Put(img, [b], content) == img[b := content[b]]
  {
    assert [b][..0] == [];
  }

  lemma {:induction false} PutHolds(img: Image, list: seq<nat>, content: Image)
    requires forall b :: b in list ==> b in content
    ensures forall b :: b in Put(img, list, content) <==> b in img || b in list
    ensures forall b :: b in list ==> b in Put(img, list, content) && Put(img, list, content)[b] == content[b]
    ensures forall b :: b in img && b !in list ==> b in Put(img, list, content) && Put(img, list, content)[b] == img[b]
  {
    if list != [] {
      var n := |list| - 1;
      assert list == list[..n] + [list[n]];
      PutHolds(img, list[..n], content);
    }
  }

  /** Of the blocks passed to pwrite, none was written twice. */
  ghost predicate WrittenOnce(log: seq<nat>, img: Image) {
    multiset(log) == multiset(img.Keys)
  }

  lemma WriteOnce(log: seq<nat>, img: Image, b: nat, data: Bytes)
    requires WrittenOnce(log, img) && b !in img
    ensures WrittenOnce(log + [b], img[b := data])
  {
    assert img[b := data].Keys == img.Keys + {b};
  }

  lemma {:induction false} PutOnce(log: seq<nat>, img: Image, list: seq<nat>, content: Image)
    requires WrittenOnce(log, img) && NoneTwice(list)
    requires forall b :: b in list ==> b in content && b !in img
    ensures WrittenOnce(log + list, Put(img, list, content))
  {
    if list == [] {
      assert log + list == log;
    } else {
      var n := |list| - 1;
      assert list == list[..n] + [list[n]];
      PutOnce(log, img, list[..n], content);
      PutHolds(img, list[..n], content);
      assert log + list == (log + list[..n]) + [list[n]];
      WriteOnce(log + list[..n], Put(img, list[..n], content), list[n], content[list[n]]);
    }
  }

  // ---------- close_sfs ----------

  function Upto(lo: nat, hi: nat): seq<nat>
    requires lo <= hi
  {
    seq(hi - lo, i requires 0 <= i < hi - lo => lo + i)
  }

  ghost predicate Flushable(inodes: map<nat, CInode>, cache: map<nat, seq<nat>>) {
    && (forall i :: i in inodes ==> |inodes[i].inode.direct| == NDIRECT)
    && (forall b :: b in cache ==> |cache[b]| == NENTRY)
  }

  ghost function FreeMapContent(m: Model): Image {
    map b: nat {:trigger Within(BLKN_FREEMAP, b, FirstFree(m.ninos))} |
      BLKN_FREEMAP <= b < FirstFree(m.ninos) && Within(BLKN_FREEMAP, b, FirstFree(m.ninos)) :: FreeMapBytes(m, b)
  }

  ghost function IndexContent(cache: map<nat, seq<nat>>): Image
    requires forall b :: b in cache ==> |cache[b]| == NENTRY
  {
    map b: nat | b in cache :: Pad(Words(cache[b]))
  }

  ghost function InodeContent(inodes: map<nat, CInode>): Image
    requires forall i :: i in inodes ==> |inodes[i].inode.direct| == NDIRECT
  {
    map i: nat | i in inodes :: Pad(InodeBytes(inodes[i].inode))
  }

  /** What close_sfs writes: to each block its own. */
  ghost function CloseContent(inodes: map<nat, CInode>, cache: map<nat, seq<nat>>, m: Model, super: Bytes): Image
    requires Flushable(inodes, cache)
  {
    FreeMapContent(m)[BLKN_SUPER := super] + IndexContent(cache) + InodeContent(inodes)
  }
}
