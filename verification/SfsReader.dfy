/** A reader of finished images. It knows the layout and nothing else, starts
    at an inode block, and rebuilds the tree below it from bytes.
 */
module SfsReader {
  import opened Octets
  import opened SfsLayout
  import opened Wrappers
  import opened SfsModel
  import opened SfsNumbers
  import opened SfsBlockMap
  import opened SfsImage
  import opened SfsAccounting
  import opened SfsTree

  /** What is in an image. Two names of one file show the same inode number. */
  datatype Node = FileNode(ino: nat, data: Bytes) | LinkNode(target: Bytes) | DirNode(nlinks: nat, entries: Entries)

  datatype Entries = NoMore | Entry(name: Bytes, node: Node, rest: Entries)

  predicate HasBlock(img: Image, b: nat) {
    b in img && |img[b]| == BLKSIZE
  }

  /** Word k of an index block; block number 0 stands for no block. */
  function Word(img: Image, x: nat, k: nat): nat {
    if x != 0 && HasBlock(img, x) && k < NENTRY then ReadWord32(img[x], 4 * k) else 0
  }

  function BlockOf(img: Image, inode: Inode, k: nat): nat {
    if k < NDIRECT then WordAt(inode.direct, k)
    else if k < L1_NBLKS then Word(img, inode.indirect, k - NDIRECT)
    else Word(img, Word(img, inode.dbIndirect, (k - L1_NBLKS) / NENTRY), (k - L1_NBLKS) % NENTRY)
  }

  function ByteOf(img: Image, inode: Inode, i: nat): byte {
    var b := BlockOf(img, inode, i / BLKSIZE);
    if HasBlock(img, b) then img[b][i % BLKSIZE] else 0
  }

  function DataOf(img: Image, inode: Inode): (data: Bytes)
    ensures |data| == inode.size
  {
    seq(inode.size, i requires 0 <= i < inode.size => ByteOf(img, inode, i))
  }

  /** Fuel bounds how many directories deep the reader goes. */
  function ReadNode(img: Image, ino: nat, fuel: nat): Option<Node>
    decreases fuel, 1, 0
  {
    if fuel == 0 || !HasBlock(img, ino) then None
    else
      var inode := ReadInode(img[ino]);
      match inode.kind
      case FileKind => Some(FileNode(ino, DataOf(img, inode)))
      case LinkKind => Some(LinkNode(DataOf(img, inode)))
      case DirKind =>
        match ReadEntries(img, inode, 2, fuel)
        case None => None
        case Some(entries) => Some(DirNode(inode.nlinks, entries))
  }

  /** The entries of a directory from the k-th on; the first two are "." and "..". */
  function ReadEntries(img: Image, dir: Inode, k: nat, fuel: nat): Option<Entries>
    requires fuel > 0
    decreases fuel, 0, dir.blocks - k
  {
    if k >= dir.blocks then Some(NoMore)
    else
      var b := BlockOf(img, dir, k);
      if !HasBlock(img, b) then None
      else
        match ReadNode(img, ReadEntryIno(img[b]), fuel - 1)
        case None => None
        case Some(node) =>
          match ReadEntries(img, dir, k + 1, fuel)
          case None => None
          case Some(rest) => Some(Entry(ReadEntryName(img[b]), node, rest))
  }

  // ---------- what ought to be read ----------

  /** The tree as it gets into an image; inos gives the inode number of each host file, and names are cut to most
      bytes. */
  function Visible(node: Host, inos: map<nat, nat>, most: nat): Node {
    match node
    case File(hino, data) => FileNode(if hino in inos then inos[hino] else 0, data)
    case Link(_, target) => LinkNode(target)
    case Dir(_, listing) => DirNode(2 + Subdirs(listing), VisibleAll(listing, inos, most))
    case Socket => LinkNode([])
    case Special => LinkNode([])
  }

  function VisibleAll(listing: Listing, inos: map<nat, nat>, most: nat): Entries {
    match listing
    case End => NoMore
    case Item(name, node, rest) =>
      if Dropped(name, node) then VisibleAll(rest, inos, most)
      else Entry(Cut(name, most), Visible(node, inos, most), VisibleAll(rest, inos, most))
  }

  function Height(node: Host): (h: nat)
    ensures h > 0
  {
    if node.Dir? then HeightAll(node.listing) else 1
  }

  function HeightAll(listing: Listing): (h: nat)
    ensures h > 0
  {
    match listing
    case End => 1
    case Item(_, node, rest) => if Height(node) + 1 > HeightAll(rest) then Height(node) + 1 else HeightAll(rest)
  }

  // ---------- finished images ----------

  /** The image has every block of the state, every cached inode and every cached index block. */
  ghost predicate Finished(img: Image, m: Model, inodes: map<nat, CInode>, ix: Index) {
    (&& Sound(m) && Coupled(inodes, ix, m.files) && ix.words.Keys == m.index
     && (forall b {:trigger img[b]} {:trigger m.blocks[b]} :: b in m.blocks ==> b in img && img[b] == m.blocks[b])
     && (forall x {:trigger ix.words[x]} :: x in ix.words ==>
         |ix.words[x]| == NENTRY && x in img && img[x] == Pad(Words(ix.words[x])))
     && (forall i {:trigger inodes[i]} :: i in inodes ==>
         |inodes[i].inode.direct| == NDIRECT && i in img && img[i] == Pad(InodeBytes(inodes[i].inode)))) == true
  }

  /** Each number in the block list is that of a block written. */
  lemma BlockNumber(m: Model, f: nat, k: nat)
    requires Sound(m) && f in m.files
    ensures Slot(m.files[f].blks, k) < U32
  {
    if k < |m.files[f].blks| {
      BelowNext(m);
      assert Owns(m.files, f, k, m.files[f].blks[k]);
    }
  }

  lemma IndexNumber(m: Model, x: nat)
    requires Sound(m) && x in m.index
    ensures 0 < x < U32
  {
    BelowNext(m);
  }

  lemma InodeFits(img: Image, m: Model, inodes: map<nat, CInode>, ix: Index, f: nat)
    requires Finished(img, m, inodes, ix) && f in m.files
    ensures Fits(inodes[f].inode)
  {
    var c, a := inodes[f], m.files[f];
    assert Describes(f, c, ix, a) && Sized(a);
    forall k | 0 <= k < NDIRECT ensures c.inode.direct[k] < U32 {
      BlockNumber(m, f, k);
    }
    if |a.blks| > NDIRECT { IndexNumber(m, c.inode.indirect); }
    if |a.blks| > L1_NBLKS { IndexNumber(m, c.inode.dbIndirect); }
    assert a.nlinks < U16;
  }

  /** The reader finds each inode as it was cached. */
  lemma InodeRead(img: Image, m: Model, inodes: map<nat, CInode>, ix: Index, f: nat)
    requires Finished(img, m, inodes, ix) && f in m.files
    ensures HasBlock(img, f) && ReadInode(img[f]) == inodes[f].inode
  {
    InodeFits(img, m, inodes, ix, f);
    InodeRoundTrip(inodes[f].inode);
  }

  lemma WordRead(img: Image, m: Model, inodes: map<nat, CInode>, ix: Index, x: nat, k: nat)
    requires Finished(img, m, inodes, ix) && (x in ix.words && k < NENTRY ==> ix.words[x][k] < U32)
    requires k < NENTRY && (x == 0 || x in ix.words)
    ensures Word(img, x, k) == WordOf(ix.words, x, k)
  {
    if x in ix.words {
      IndexNumber(m, x);
      IndexRoundTrip(ix.words[x], k);
    } else {
      assert 0 !in ix.words;
    }
  }

  lemma IndirectRead(img: Image, m: Model, inodes: map<nat, CInode>, ix: Index, f: nat, k: nat)
    requires Finished(img, m, inodes, ix) && f in m.files && k < NENTRY
    ensures Word(img, inodes[f].inode.indirect, k) == WordOf(ix.words, inodes[f].inode.indirect, k)
  {
    var c, blks := inodes[f], m.files[f].blks;
    assert Describes(f, c, ix, m.files[f]);
    if |blks| > NDIRECT {
      BlockNumber(m, f, NDIRECT + k);
    }
    WordRead(img, m, inodes, ix, c.inode.indirect, k);
  }

  lemma LeafRead(img: Image, m: Model, inodes: map<nat, CInode>, ix: Index, f: nat, j: nat, k: nat)
    requires Finished(img, m, inodes, ix) && f in m.files && j < NENTRY && k < NENTRY
    ensures var y := inodes[f].inode.dbIndirect;
      Word(img, Word(img, y, j), k) == WordOf(ix.words, WordOf(ix.words, y, j), k)
  {
    assert Describes(f, inodes[f], ix, m.files[f]);
    NoBlockZero(m);
    if |m.files[f].blks| > L1_NBLKS {
      LeafWords(m, f, inodes[f], ix, j, k);
      WordRead(img, m, inodes, ix, inodes[f].inode.dbIndirect, j);
      WordRead(img, m, inodes, ix, ix.words[inodes[f].inode.dbIndirect][j], k);
    }
  }

  lemma NoBlockZero(m: Model)
    requires Sound(m)
    ensures 0 !in m.index
  {
    if 0 in m.index { IndexNumber(m, 0); }
  }

  /** The words that a leaf lookup meets are block numbers. */
  lemma LeafWords(m: Model, f: nat, c: CInode, ix: Index, j: nat, k: nat)
    requires Sound(m) && f in m.files && Describes(f, c, ix, m.files[f]) && ix.words.Keys == m.index
    requires j < NENTRY && k < NENTRY && |m.files[f].blks| > L1_NBLKS
    ensures c.inode.dbIndirect in ix.words && |ix.words[c.inode.dbIndirect]| == NENTRY
    ensures var x := ix.words[c.inode.dbIndirect][j];
      x < U32 && (x != 0 ==> x in ix.words) && (x in ix.words && k < |ix.words[x]| ==> ix.words[x][k] < U32)
  {
    var blks := m.files[f].blks;
    var x := ix.words[c.inode.dbIndirect][j];
    assert CoversLeaf(f, x, j, ix, blks);
    NoBlockZero(m);
    if x != 0 { IndexNumber(m, x); }
    BlockNumber(m, f, LeafStart(j) + k);
  }

  /** The reader's way through the index blocks ends at the block appended k-th, or at 0. */
  lemma BlockRead(img: Image, m: Model, inodes: map<nat, CInode>, ix: Index, f: nat, k: nat)
    requires Finished(img, m, inodes, ix) && f in m.files && k < L1_NBLKS + NENTRY * NENTRY
    ensures BlockOf(img, inodes[f].inode, k) == Slot(m.files[f].blks, k)
  {
    assert Describes(f, inodes[f], ix, m.files[f]);
    NoBlockZero(m);
    if NDIRECT <= k < L1_NBLKS {
      IndirectRead(img, m, inodes, ix, f, k - NDIRECT);
    } else if L1_NBLKS <= k {
      LeafRead(img, m, inodes, ix, f, (k - L1_NBLKS) / NENTRY, (k - L1_NBLKS) % NENTRY);
    }
    BlockIsLookup(img, f, inodes[f], ix, m.files[f].blks, k);
  }

  lemma BlockIsLookup(img: Image, f: nat, c: CInode, ix: Index, blks: seq<nat>, k: nat)
    requires MapsTo(f, c, ix, blks) && 0 !in ix.words && k < L1_NBLKS + NENTRY * NENTRY
    requires NDIRECT <= k < L1_NBLKS ==>
        Word(img, c.inode.indirect, k - NDIRECT) == WordOf(ix.words, c.inode.indirect, k - NDIRECT)
    requires L1_NBLKS <= k ==>
      var y, j := c.inode.dbIndirect, (k - L1_NBLKS) / NENTRY;
      Word(img, Word(img, y, j), (k - L1_NBLKS) % NENTRY) ==
          WordOf(ix.words, WordOf(ix.words, y, j), (k - L1_NBLKS) % NENTRY)
    ensures BlockOf(img, c.inode, k) == Slot(blks, k)
  {
    LookupIsBlock(f, c, ix, blks, k);
  }

  // ---------- reading ----------

  /** The inode block of a says what a is, and looking up its blocks gives them, and 0 past the end. */
  ghost predicate InodeSays(img: Image, f: nat, a: AFile) {
    && HasBlock(img, f)
    && var i := ReadInode(img[f]);
       && i.kind == a.kind && i.size == a.size && i.nlinks == a.nlinks && i.blocks == |a.blks|
       && forall k: nat :: k < L1_NBLKS + NENTRY * NENTRY ==> BlockOf(img, i, k) == Slot(a.blks, k)
  }

  /** So it is for every inode, the blocks are there, and link counts are in 16 bits. */
  ghost predicate Readable(img: Image, m: Model) {
    && (forall f {:trigger InodeSays(img, f, m.files[f])} :: f in m.files ==>
        |m.files[f].blks| <= LN_NBLKS && m.files[f].nlinks == Links(m, f) % U16 && InodeSays(img, f, m.files[f]))
    && (forall b {:trigger m.blocks[b]} :: b in m.blocks ==> b in img && img[b] == m.blocks[b])
  }

  lemma FinishedIsReadable(img: Image, m: Model, inodes: map<nat, CInode>, ix: Index)
    requires Finished(img, m, inodes, ix)
    ensures Readable(img, m)
  {
    forall f | f in m.files
      ensures |m.files[f].blks| <= LN_NBLKS && m.files[f].nlinks == Links(m, f) % U16 && InodeSays(img, f, m.files[f])
    {
      InodeSaysIt(img, m, inodes, ix, f);
      LinksAre(m, f);
    }
  }

  lemma LinksAre(m: Model, f: nat)
    requires Sound(m) && f in m.files
    ensures m.files[f].nlinks == Links(m, f) % U16
  {
  }

  lemma InodeSaysIt(img: Image, m: Model, inodes: map<nat, CInode>, ix: Index, f: nat)
    requires Finished(img, m, inodes, ix) && f in m.files
    ensures InodeSays(img, f, m.files[f]) && |m.files[f].blks| <= LN_NBLKS
  {
    InodeRead(img, m, inodes, ix, f);
    assert Describes(f, inodes[f], ix, m.files[f]);
    forall k: nat | k < L1_NBLKS + NENTRY * NENTRY ensures BlockOf(img, inodes[f].inode, k) ==
        Slot(m.files[f].blks, k) {
      BlockRead(img, m, inodes, ix, f, k);
    }
  }

  lemma BytesRead(img: Image, m: Model, f: nat, kind: Kind, data: Bytes)
    requires Readable(img, m) && Holds(m, f, kind, data)
    ensures HasBlock(img, f) && ReadInode(img[f]).kind == kind && DataOf(img, ReadInode(img[f])) == data
  {
    assert InodeSays(img, f, m.files[f]);
    var inode := ReadInode(img[f]);
    forall i | 0 <= i < |data| ensures ByteOf(img, inode, i) == data[i] {
      assert ByteHeld(m, m.files[f].blks, i, data[i]);
      assert BlockOf(img, inode, i / BLKSIZE) == Slot(m.files[f].blks, i / BLKSIZE);
    }
  }

  /** Under each file's host number, inos has its inode. */
  ghost predicate Labelled(m: Model, inos: map<nat, nat>) {
    forall f {:trigger m.files[f]} :: f in m.files && m.files[f].kind == FileKind ==>
      m.files[f].hino in inos && inos[m.files[f].hino] == f
  }

  lemma EntryReads(img: Image, m: Model, d: nat, k: nat, f: nat, name: Bytes)
    requires Readable(img, m) && d in m.files && k < |m.files[d].blks| && EntryFor(m, m.files[d].blks[k], f, name)
    ensures HasBlock(img, d)
    ensures var b := BlockOf(img, ReadInode(img[d]), k);
      b == m.files[d].blks[k] && HasBlock(img, b) && ReadEntryIno(img[b]) == f
          && ReadEntryName(img[b]) == Cut(name, NAME_WRITTEN)
  {
    assert InodeSays(img, d, m.files[d]);
  }

  lemma {:induction false} SubdirsHaveEntries(m: Model, bs: seq<nat>, listing: Listing, seen: Seen, d: nat,
      hits: multiset<nat>)
    requires ShowsAll(m, bs, listing, seen, d, hits)
    ensures Subdirs(listing) <= |bs|
    decreases listing
  {
    match listing
    case End =>
    case Item(name, node, rest) =>
      if Dropped(name, node) {
        SubdirsHaveEntries(m, bs, rest, seen, d, hits);
      } else {
        SubdirsHaveEntries(m, bs[1..], rest, SeenAfter(seen, name, node), d, hits);
      }
  }

  /** The link count of a directory, and where it is the number that the links should add up to. */
  lemma DirLinks(img: Image, m: Model, d: nat, listing: Listing, seen: Seen, parent: nat, hits: multiset<nat>)
    requires Readable(img, m) && ShowsDir(m, d, listing, seen, parent, hits)
    ensures HasBlock(img, d) && ReadInode(img[d]).nlinks == (2 + Subdirs(listing) + hits[m.files[d].hino]) % U16
    ensures ReadInode(img[d]).nlinks == 2 + Subdirs(listing) <==> hits[m.files[d].hino] % U16 == 0
  {
    assert InodeSays(img, d, m.files[d]);
    SubdirsHaveEntries(m, m.files[d].blks[2..], listing, seen, d, hits);
    WholeTurns(2 + Subdirs(listing), hits[m.files[d].hino]);
  }

  lemma WholeTurns(n: nat, k: nat)
    requires n < U16
    ensures (n + k) % U16 == n <==> k % U16 == 0
  {
  }

  /** What a state shows is what is read from its finished image, if the numbers agree. */
  lemma {:induction false} NodeReads(img: Image, m: Model, ino: nat, node: Host, seen: Seen, parent: nat,
      inos: map<nat, nat>, fuel: nat)
    requires Readable(img, m) && Labelled(m, inos) && fuel >= Height(node)
    requires Shows(m, ino, node, seen, parent, multiset{}) && NodeAgrees(seen, node)
    ensures ReadNode(img, ino, fuel) == Some(Visible(node, inos, NAME_WRITTEN))
    decreases node, 1
  {
    match node
    case File(_, data) => BytesRead(img, m, ino, FileKind, data);
    case Link(_, target) => BytesRead(img, m, ino, LinkKind, target);
    case Dir(hino, listing) => DirReads(img, m, ino, listing, seen[hino := GaveDir], parent, inos, fuel);
    case Socket =>
    case Special =>
  }

  lemma {:induction false} DirReads(img: Image, m: Model, d: nat, listing: Listing, seen: Seen, parent: nat,
      inos: map<nat, nat>, fuel: nat)
    requires Readable(img, m) && Labelled(m, inos) && fuel >= HeightAll(listing)
    requires ShowsDir(m, d, listing, seen, parent, multiset{}) && AllAgree(seen, listing)
    ensures ReadNode(img, d, fuel) == Some(DirNode(2 + Subdirs(listing), VisibleAll(listing, inos, NAME_WRITTEN)))
    decreases listing, 1
  {
    assert InodeSays(img, d, m.files[d]);
    DirLinks(img, m, d, listing, seen, parent, multiset{});
    EntriesRead(img, m, d, 2, listing, seen, inos, fuel);
  }

  lemma ReadsVisible(img: Image, dir: Inode, k: nat, fuel: nat, name: Name, node: Host, rest: Listing,
      inos: map<nat, nat>)
    requires fuel > 0 && k < dir.blocks && HasBlock(img, BlockOf(img, dir, k)) && !Dropped(name, node)
    requires ReadEntryName(img[BlockOf(img, dir, k)]) == Cut(name, NAME_WRITTEN)
    requires ReadNode(img, ReadEntryIno(img[BlockOf(img, dir, k)]), fuel - 1) == Some(Visible(node, inos, NAME_WRITTEN))
    requires ReadEntries(img, dir, k + 1, fuel) == Some(VisibleAll(rest, inos, NAME_WRITTEN))
    ensures ReadEntries(img, dir, k, fuel) == Some(VisibleAll(Item(name, node, rest), inos, NAME_WRITTEN))
  {
    ReadsEntry(img, dir, k, fuel, Visible(node, inos, NAME_WRITTEN), VisibleAll(rest, inos, NAME_WRITTEN));
  }

  lemma {:induction false} EntriesRead(img: Image, m: Model, d: nat, k: nat, listing: Listing, seen: Seen,
      inos: map<nat, nat>, fuel: nat)
    requires Readable(img, m) && Labelled(m, inos) && fuel >= HeightAll(listing)
    requires d in m.files && HasBlock(img, d) && ReadInode(img[d]).blocks == |m.files[d].blks| && k <= |m.files[d].blks|
    requires ShowsAll(m, m.files[d].blks[k..], listing, seen, d, multiset{}) && AllAgree(seen, listing)
    ensures ReadEntries(img, ReadInode(img[d]), k, fuel) == Some(VisibleAll(listing, inos, NAME_WRITTEN))
    decreases listing, 0
  {
    match listing
    case End =>
    case Item(name, node, rest) =>
      if Dropped(name, node) {
        EntriesRead(img, m, d, k, rest, seen, inos, fuel);
      } else {
        assert m.files[d].blks[k..][1..] == m.files[d].blks[k + 1..];
        NodeReads(img, m, m.named[m.files[d].blks[k]], node, seen, d, inos, fuel - 1);
        EntriesRead(img, m, d, k + 1, rest, SeenAfter(seen, name, node), inos, fuel);
        FirstRead(img, m, d, k, name, node, rest, inos, fuel);
      }
  }

  lemma FirstRead(img: Image, m: Model, d: nat, k: nat, name: Name, node: Host, rest: Listing, inos: map<nat, nat>,
      fuel: nat)
    requires Readable(img, m) && d in m.files && k < |m.files[d].blks| && m.files[d].blks[k] in m.named && fuel > 0
    requires EntryFor(m, m.files[d].blks[k], m.named[m.files[d].blks[k]], name) && !Dropped(name, node)
    requires ReadNode(img, m.named[m.files[d].blks[k]], fuel - 1) == Some(Visible(node, inos, NAME_WRITTEN))
    requires HasBlock(img, d) && ReadInode(img[d]).blocks == |m.files[d].blks|
    requires ReadEntries(img, ReadInode(img[d]), k + 1, fuel) == Some(VisibleAll(rest, inos, NAME_WRITTEN))
    ensures ReadEntries(img, ReadInode(img[d]), k, fuel) ==
        Some(VisibleAll(Item(name, node, rest), inos, NAME_WRITTEN))
  {
    EntryReads(img, m, d, k, m.named[m.files[d].blks[k]], name);
    ReadsVisible(img, ReadInode(img[d]), k, fuel, name, node, rest, inos);
  }

  /** An entry is read as one of that node and those entries exactly if both are read. */
  lemma ReadsEntry(img: Image, dir: Inode, k: nat, fuel: nat, node: Node, rest: Entries)
    requires fuel > 0 && k < dir.blocks && HasBlock(img, BlockOf(img, dir, k))
    ensures ReadEntries(img, dir, k, fuel) == Some(Entry(ReadEntryName(img[BlockOf(img, dir, k)]), node, rest)) <==>
      && ReadNode(img, ReadEntryIno(img[BlockOf(img, dir, k)]), fuel - 1) == Some(node)
      && ReadEntries(img, dir, k + 1, fuel) == Some(rest)
  {
  }

  /** If they do not agree, something else is read, whatever numbers the files are said to have. */
  lemma {:induction false} NodeMisreads(img: Image, m: Model, ino: nat, node: Host, seen: Seen, parent: nat,
      hits: multiset<nat>, inos: map<nat, nat>, fuel: nat)
    requires Readable(img, m) && Shows(m, ino, node, seen, parent, hits) && !NodeAgrees(seen, node)
    ensures ReadNode(img, ino, fuel) != Some(Visible(node, inos, NAME_WRITTEN))
    decreases node, 1
  {
    match node
    case File(hino, data) => FileMisreads(img, m, ino, Meant(seen, hino, data), hino, data, fuel);
    case Link(_, _) =>
    case Dir(hino, listing) => DirMisreads(img, m, ino, listing, seen[hino := GaveDir], parent, hits, inos, fuel);
    case Socket =>
    case Special =>
  }

  lemma FileMisreads(img: Image, m: Model, ino: nat, last: Last, hino: nat, data: Bytes, fuel: nat)
    requires Readable(img, m) && Leads(m, ino, hino, last) && last != GaveFile(data)
    ensures forall i :: ReadNode(img, ino, fuel) != Some(FileNode(i, data))
  {
    match last
    case GaveFile(bytes) => BytesRead(img, m, ino, FileKind, bytes);
    case GaveLink(target) => BytesRead(img, m, ino, LinkKind, target);
    case GaveDir => assert InodeSays(img, ino, m.files[ino]);
  }

  lemma {:induction false} DirMisreads(img: Image, m: Model, d: nat, listing: Listing, seen: Seen, parent: nat,
      hits: multiset<nat>, inos: map<nat, nat>, fuel: nat)
    requires Readable(img, m) && ShowsDir(m, d, listing, seen, parent, hits) && !AllAgree(seen, listing)
    ensures ReadNode(img, d, fuel) != Some(DirNode(2 + Subdirs(listing), VisibleAll(listing, inos, NAME_WRITTEN)))
    decreases listing, 1
  {
    if fuel > 0 {
      assert InodeSays(img, d, m.files[d]);
      EntriesMisread(img, m, d, 2, listing, seen, hits, inos, fuel);
    }
  }

  lemma {:induction false} EntriesMisread(img: Image, m: Model, d: nat, k: nat, listing: Listing, seen: Seen,
      hits: multiset<nat>, inos: map<nat, nat>, fuel: nat)
    requires Readable(img, m) && fuel > 0
    requires d in m.files && HasBlock(img, d) && ReadInode(img[d]).blocks == |m.files[d].blks| && k <= |m.files[d].blks|
    requires ShowsAll(m, m.files[d].blks[k..], listing, seen, d, hits) && !AllAgree(seen, listing)
    ensures ReadEntries(img, ReadInode(img[d]), k, fuel) != Some(VisibleAll(listing, inos, NAME_WRITTEN))
    decreases listing, 0
  {
    match listing
    case End =>
    case Item(name, node, rest) =>
      if Dropped(name, node) {
        EntriesMisread(img, m, d, k, rest, seen, hits, inos, fuel);
      } else {
        var bs := m.files[d].blks[k..];
        assert bs[1..] == m.files[d].blks[k + 1..];
        EntryReads(img, m, d, k, m.named[bs[0]], name);
        if NodeAgrees(seen, node) {
          EntriesMisread(img, m, d, k + 1, rest, SeenAfter(seen, name, node), hits, inos, fuel);
        } else {
          NodeMisreads(img, m, m.named[bs[0]], node, seen, d, hits, inos, fuel - 1);
        }
        ReadsEntry(img, ReadInode(img[d]), k, fuel, Visible(node, inos, NAME_WRITTEN),
            VisibleAll(rest, inos, NAME_WRITTEN));
      }
  }

  /** The first two entries of a directory, as they are read, name it and its parent. */
  ghost predicate DotsSay(img: Image, d: nat, parent: nat) {
    && HasBlock(img, d) && EntrySays(img, BlockOf(img, ReadInode(img[d]), 0), d, [46])
    && EntrySays(img, BlockOf(img, ReadInode(img[d]), 1), parent, [46, 46])
  }

  ghost predicate EntrySays(img: Image, b: nat, ino: nat, name: Bytes) {
    HasBlock(img, b) && ReadEntryIno(img[b]) == ino && ReadEntryName(img[b]) == name
  }

  lemma DotsRead(img: Image, m: Model, d: nat, listing: Listing, seen: Seen, parent: nat, hits: multiset<nat>)
    requires Readable(img, m) && ShowsDir(m, d, listing, seen, parent, hits)
    ensures DotsSay(img, d, parent)
  {
    EntryReads(img, m, d, 0, d, DOT);
    EntryReads(img, m, d, 1, parent, DOTDOT);
  }
}
