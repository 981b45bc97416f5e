/** The three-level block map of an SFS file: 12 direct slots, one indirect
    block, one double-indirect block. Index blocks are told apart by an owner
    map, so that no two files, and no two places in one file, share one.
 */
module SfsBlockMap {
  import opened SfsLayout

  /** A cached inode: struct inode, the host inode number, and the block numbers behind the l1 and l2 pointers (0 for
      NULL). */
  datatype CInode = CInode(inode: Inode, hino: nat, nblks: nat, l1: nat, l2: nat)

  /** The place an index block has in some file. */
  datatype Role = Indirect(f: nat) | Double(f: nat) | Leaf(f: nat, j: nat)

  /** Contents of the cached index blocks, and the role each one has. */
  datatype Index = Index(words: map<nat, seq<nat>>, role: map<nat, Role>)

  function EmptyIndexBlock(): (w: seq<nat>)
    ensures |w| == NENTRY && forall i :: 0 <= i < NENTRY ==> w[i] == 0
  {
    seq(NENTRY, _ => 0)
  }

  /** Entry k of a block list; slots past its end hold 0. */
  function Slot(blks: seq<nat>, k: nat): nat {
    if k < |blks| then blks[k] else 0
  }

  /** The index block that covers entries from..from + NENTRY. */
  predicate Covers(words: seq<nat>, blks: seq<nat>, from: nat) {
    |words| == NENTRY && forall i :: 0 <= i < NENTRY ==> words[i] == Slot(blks, from + i)
  }

  ghost predicate IsIndex(ix: Index, x: nat, role: Role) {
    x != 0 && x in ix.words && x in ix.role && ix.role[x] == role
  }

  ghost predicate CoversDirect(direct: seq<nat>, blks: seq<nat>) {
    |direct| == NDIRECT && forall k :: 0 <= k < NDIRECT ==> direct[k] == Slot(blks, k)
  }

  ghost predicate CoversIndirect(f: nat, x: nat, ix: Index, blks: seq<nat>) {
    if |blks| <= NDIRECT then x == 0
    else IsIndex(ix, x, Indirect(f)) && Covers(ix.words[x], blks, NDIRECT)
  }

  function LeafStart(j: nat): nat {
    L1_NBLKS + NENTRY * j
  }

  ghost predicate CoversLeaf(f: nat, x: nat, j: nat, ix: Index, blks: seq<nat>) {
    if |blks| <= LeafStart(j) then x == 0
    else IsIndex(ix, x, Leaf(f, j)) && Covers(ix.words[x], blks, LeafStart(j))
  }

  ghost predicate CoversDouble(f: nat, y: nat, ix: Index, blks: seq<nat>) {
    if |blks| <= L1_NBLKS then y == 0
    else
      && IsIndex(ix, y, Double(f)) && |ix.words[y]| == NENTRY
      && forall j :: 0 <= j < NENTRY ==> CoversLeaf(f, ix.words[y][j], j, ix, blks)
  }

  /** Every slot of the block map, direct or through index blocks, holds what blks says. */
  ghost predicate MapsTo(f: nat, c: CInode, ix: Index, blks: seq<nat>) {
    && c.nblks == c.inode.blocks == |blks| <= LN_NBLKS
    && CoversDirect(c.inode.direct, blks)
    && CoversIndirect(f, c.inode.indirect, ix, blks)
    && CoversDouble(f, c.inode.dbIndirect, ix, blks)
  }

  /** The leaf that the last appended block went to. */
  function LastLeaf(n: nat): nat
    requires n > L1_NBLKS
  {
    (n - 1 - L1_NBLKS) / NENTRY
  }

  /** The one-entry caches hold the index blocks in use: the last ones of the file. */
  ghost predicate Current(c: CInode, ix: Index) {
    && (NDIRECT < c.nblks <= L1_NBLKS ==> c.l1 == c.inode.indirect)
    && (c.nblks > L1_NBLKS ==>
          && c.l2 == c.inode.dbIndirect && c.l2 in ix.words && LastLeaf(c.nblks) < |ix.words[c.l2]|
          && c.l1 == ix.words[c.l2][LastLeaf(c.nblks)])
  }

  // ---------- what append_block does to one file ----------

  function Grown(c: CInode, size: nat): CInode {
    c.(nblks := c.nblks + 1, inode := c.inode.(size := c.inode.size + size, blocks := c.inode.blocks + 1))
  }

  function SetSlot(words: seq<nat>, k: nat, b: nat): seq<nat>
    requires k < |words|
  {
    words[k := b]
  }

  predicate HasWord(ix: Index, x: nat, k: nat) {
    x in ix.words && k < |ix.words[x]|
  }

  function PutWord(ix: Index, x: nat, k: nat, b: nat): Index
    requires x in ix.words && k < |ix.words[x]|
  {
    ix.(words := ix.words[x := SetSlot(ix.words[x], k, b)])
  }

  function NewIndexBlock(ix: Index, x: nat, role: Role): Index {
    Index(ix.words[x := EmptyIndexBlock()], ix.role[x := role])
  }

  lemma DirectKept(c: CInode, blks: seq<nat>, b: nat)
    requires CoversDirect(c.inode.direct, blks) && |blks| >= NDIRECT
    ensures CoversDirect(c.inode.direct, blks + [b])
  {
  }

  /** Writing the next block number into a block that covers the end of the list. */
  lemma CoversNext(words: seq<nat>, blks: seq<nat>, from: nat, b: nat)
    requires Covers(words, blks, from) && from <= |blks| < from + NENTRY
    ensures Covers(SetSlot(words, |blks| - from, b), blks + [b], from)
  {
  }

  lemma CoversFull(words: seq<nat>, blks: seq<nat>, from: nat, b: nat)
    requires Covers(words, blks, from) && |blks| >= from + NENTRY
    ensures Covers(words, blks + [b], from)
  {
  }

  lemma AppendDirect(f: nat, c: CInode, ix: Index, blks: seq<nat>, size: nat, b: nat, c': CInode)
    requires MapsTo(f, c, ix, blks) && Current(c, ix) && |blks| < NDIRECT
    requires c' == Grown(c.(inode := c.inode.(direct := SetSlot(c.inode.direct, |blks|, b))), size)
    ensures MapsTo(f, c', ix, blks + [b]) && Current(c', ix)
  {
  }

  /** The slot read by update_cache is 0 or names the block already in the cache: no search is needed. */
  lemma IndirectIsCached(f: nat, c: CInode, ix: Index, blks: seq<nat>)
    requires MapsTo(f, c, ix, blks) && Current(c, ix) && NDIRECT <= |blks| < L1_NBLKS
    ensures if |blks| == NDIRECT then c.inode.indirect == 0 else c.inode.indirect == c.l1 != 0
  {
  }

  lemma AppendIndirect(f: nat, c: CInode, ix: Index, blks: seq<nat>, size: nat, b: nat, x: nat,
                       ix1: Index, c': CInode, ix': Index)
    requires MapsTo(f, c, ix, blks) && NDIRECT <= |blks| < L1_NBLKS
    requires if |blks| == NDIRECT then x != 0 && x !in ix.words && ix1 == NewIndexBlock(ix, x, Indirect(f))
             else x == c.inode.indirect && ix1 == ix
    requires x in ix1.words && |ix1.words[x]| == NENTRY
    requires ix' == PutWord(ix1, x, |blks| - NDIRECT, b)
    requires c' == Grown(c.(l1 := x, inode := c.inode.(indirect := x)), size)
    ensures MapsTo(f, c', ix', blks + [b]) && Current(c', ix')
  {
    DirectKept(c, blks, b);
    CoversNext(ix1.words[x], blks, NDIRECT, b);
  }

  lemma DoubleIsCached(f: nat, c: CInode, ix: Index, blks: seq<nat>)
    requires MapsTo(f, c, ix, blks) && Current(c, ix) && L1_NBLKS <= |blks| < LN_NBLKS
    ensures if |blks| == L1_NBLKS then c.inode.dbIndirect == 0 else c.inode.dbIndirect == c.l2 != 0 && c.l2 in ix.words
  {
  }

  /** The leaf that the next block goes to. */
  function NextLeaf(n: nat): nat
    requires n >= L1_NBLKS
  {
    (n - L1_NBLKS) / NENTRY
  }

  lemma LeafIsCached(f: nat, c: CInode, ix: Index, blks: seq<nat>)
    requires MapsTo(f, c, ix, blks) && Current(c, ix) && L1_NBLKS < |blks| < LN_NBLKS
    ensures c.inode.dbIndirect in ix.words && |ix.words[c.inode.dbIndirect]| == NENTRY && NextLeaf(|blks|) < NENTRY
    ensures ix.words[c.inode.dbIndirect][NextLeaf(|blks|)] ==
            if (|blks| - L1_NBLKS) % NENTRY == 0 then 0 else c.l1
    ensures (|blks| - L1_NBLKS) % NENTRY != 0 ==> c.l1 != 0
  {
    var j := NextLeaf(|blks|);
    assert CoversLeaf(f, ix.words[c.inode.dbIndirect][j], j, ix, blks);
  }

  /** The index after both calls of update_cache and the store into the double-indirect block. */
  ghost predicate LeafReady(f: nat, c: CInode, ix: Index, blks: seq<nat>, y: nat, x: nat, ix1: Index, ix2: Index)
    requires |blks| >= L1_NBLKS
  {
    var j := NextLeaf(|blks|);
    && (if |blks| == L1_NBLKS then y != 0 && y !in ix.words && ix1 == NewIndexBlock(ix, y, Double(f))
        else y == c.inode.dbIndirect && ix1 == ix)
    && y in ix1.words && j < |ix1.words[y]|
    && (if (|blks| - L1_NBLKS) % NENTRY == 0
        then x != 0 && x !in ix1.words && ix2 == PutWord(NewIndexBlock(ix1, x, Leaf(f, j)), y, j, x)
        else x == ix1.words[y][j] && ix2 == ix1)
  }

  lemma AppendDouble(f: nat, c: CInode, ix: Index, blks: seq<nat>, size: nat, b: nat, y: nat, x: nat,
                     ix1: Index, ix2: Index, c': CInode, ix': Index)
    requires MapsTo(f, c, ix, blks) && L1_NBLKS <= |blks| < LN_NBLKS
    requires LeafReady(f, c, ix, blks, y, x, ix1, ix2)
    requires x in ix2.words && |ix2.words[x]| == NENTRY
    requires ix' == PutWord(ix2, x, (|blks| - L1_NBLKS) % NENTRY, b)
    requires c' == Grown(c.(l1 := x, l2 := y, inode := c.inode.(dbIndirect := y)), size)
    ensures MapsTo(f, c', ix', blks + [b]) && Current(c', ix')
  {
    var j := NextLeaf(|blks|);
    DirectKept(c, blks, b);
    CoversFull(ix.words[c.inode.indirect], blks, NDIRECT, b);
    assert j < NENTRY && |blks| - LeafStart(j) == (|blks| - L1_NBLKS) % NENTRY;
    forall i | 0 <= i < NENTRY ensures CoversLeaf(f, ix'.words[y][i], i, ix', blks + [b]) {
      if i < j {
        assert CoversLeaf(f, ix.words[y][i], i, ix, blks);
        CoversFull(ix.words[ix.words[y][i]], blks, LeafStart(i), b);
      } else if i == j {
        CoversNext(ix2.words[x], blks, LeafStart(j), b);
      }
    }
  }

  function FileOf(r: Role): nat {
    match r
    case Indirect(f) => f
    case Double(f) => f
    case Leaf(f, _) => f
  }

  /** The index blocks of file g are the same in both. */
  ghost predicate SameFor(g: nat, ix: Index, ix': Index) {
    forall x :: x in ix.words && x in ix.role && FileOf(ix.role[x]) == g ==>
      x in ix'.words && x in ix'.role && ix'.words[x] == ix.words[x] && ix'.role[x] == ix.role[x]
  }

  /** What happens to other files' index blocks is of no concern. */
  lemma Undisturbed(g: nat, c: CInode, ix: Index, ix': Index, blks: seq<nat>)
    requires MapsTo(g, c, ix, blks) && Current(c, ix) && SameFor(g, ix, ix')
    ensures MapsTo(g, c, ix', blks) && Current(c, ix')
  {
    var y := c.inode.dbIndirect;
    if |blks| > L1_NBLKS {
      forall j | 0 <= j < NENTRY ensures CoversLeaf(g, ix'.words[y][j], j, ix', blks) {
        assert CoversLeaf(g, ix.words[y][j], j, ix, blks);
      }
    }
  }

  // ---------- the reader's side ----------

  /** The block number of entry k of a file, found the way a reader of the image finds it. */
  function Lookup(i: Inode, words: map<nat, seq<nat>>, k: nat): nat {
    if k < NDIRECT then WordAt(i.direct, k)
    else if k < L1_NBLKS then WordOf(words, i.indirect, k - NDIRECT)
    else WordOf(words, WordOf(words, i.dbIndirect, (k - L1_NBLKS) / NENTRY), (k - L1_NBLKS) % NENTRY)
  }

  function WordAt(w: seq<nat>, k: nat): nat {
    if k < |w| then w[k] else 0
  }

  function WordOf(words: map<nat, seq<nat>>, x: nat, k: nat): nat {
    if x in words then WordAt(words[x], k) else 0
  }

  /** Looking up any entry gives the block appended there, and 0 past the end. */
  lemma LookupIsBlock(f: nat, c: CInode, ix: Index, blks: seq<nat>, k: nat)
    requires MapsTo(f, c, ix, blks) && 0 !in ix.words && k < L1_NBLKS + NENTRY * NENTRY
    ensures Lookup(c.inode, ix.words, k) == Slot(blks, k)
  {
    if L1_NBLKS <= k && |blks| > L1_NBLKS {
      var j := (k - L1_NBLKS) / NENTRY;
      assert CoversLeaf(f, ix.words[c.inode.dbIndirect][j], j, ix, blks);
      assert k == LeafStart(j) + (k - L1_NBLKS) % NENTRY;
    }
  }
}
