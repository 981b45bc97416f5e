/** What is read from the image of any completed run, also where the numbers of the host files do not agree: a file's
    name leads to what its number was last given to, be it a directory, which is then found there as well.
 */
module SfsReadBack {
  import opened Octets
  import opened SfsLayout
  import opened Wrappers
  import opened SfsModel
  import opened SfsNumbers
  import opened SfsImage
  import opened SfsAccounting
  import opened SfsTree
  import opened SfsReader

  // ---------- what ought to be read ----------

  function Joined(name: Bytes, node: Option<Node>, rest: Option<Entries>): Option<Entries> {
    if node.Some? && rest.Some? then Some(Entry(name, node.value, rest.value)) else None
  }

  /** This node of the home directory; seen is what the numbers were last given to when the walk comes to it. Where
      directories lead into themselves, no fuel is enough. */
  function Expected(home: Listing, node: Host, seen: Seen, inos: map<nat, nat>, fuel: nat): Option<Node>
    decreases fuel, 1
  {
    if fuel == 0 then None
    else
      match node
      case File(hino, data) =>
        (match Meant(seen, hino, data)
         case GaveFile(bytes) => Some(FileNode(if hino in inos then inos[hino] else 0, bytes))
         case GaveLink(target) => Some(LinkNode(target))
         case GaveDir =>
           if PlaceAt(home, hino).None? then None
           else ExpectedDir(home, hino, PlaceAt(home, hino).value.listing, PlaceAt(home, hino).value.seen, inos, fuel))
      case Link(_, target) => Some(LinkNode(target))
      case Dir(hino, listing) => ExpectedDir(home, hino, listing, seen[hino := GaveDir], inos, fuel)
      case Socket => None
      case Special => None
  }

  function ExpectedDir(home: Listing, hino: nat, listing: Listing, seen: Seen, inos: map<nat, nat>, fuel: nat):
      Option<Node>
    requires fuel > 0
    decreases fuel, 0, listing, 1
  {
    var entries := ExpectedAll(home, listing, seen, inos, fuel);
    if entries.None? then None
    else Some(DirNode((2 + Subdirs(listing) + HomeHits(home)[hino]) % U16, entries.value))
  }

  function ExpectedAll(home: Listing, listing: Listing, seen: Seen, inos: map<nat, nat>, fuel: nat): Option<Entries>
    requires fuel > 0
    decreases fuel, 0, listing, 0
  {
    match listing
    case End => Some(NoMore)
    case Item(name, node, rest) =>
      if Dropped(name, node) then ExpectedAll(home, rest, seen, inos, fuel)
      else
        Joined(Cut(name, NAME_WRITTEN), Expected(home, node, seen, inos, fuel - 1),
               ExpectedAll(home, rest, SeenAfter(seen, name, node), inos, fuel))
  }

  /** The whole tree. */
  function ExpectedHome(home: Listing, inos: map<nat, nat>, fuel: nat): Option<Node> {
    if fuel == 0 then None else ExpectedDir(home, 0, home, map[0 := GaveDir], inos, fuel)
  }

  // ---------- every directory is shown ----------

  ghost predicate DirIs(m: Model, d: nat, h: nat) {
    IsDir(m, d) && m.files[d].hino == h
  }

  /** Inode d is the directory of number h, and parent that above it. */
  ghost predicate ShowsPlace(m: Model, d: nat, parent: nat, p: Place, h: nat, hits: multiset<nat>) {
    ShowsDir(m, d, p.listing, p.seen, parent, hits) && DirIs(m, d, h) && DirIs(m, parent, p.up)
  }

  ghost predicate PlaceShown(m: Model, home: Listing, h: nat, hits: multiset<nat>) {
    PlaceAt(home, h).Some? ==> exists d, parent :: ShowsPlace(m, d, parent, PlaceAt(home, h).value, h, hits)
  }

  ghost predicate AllShown(m: Model, home: Listing) {
    forall h {:trigger PlaceAt(home, h)} :: PlaceShown(m, home, h, HomeHits(home))
  }

  lemma {:induction false} PlaceFound(m: Model, bs: seq<nat>, listing: Listing, seen: Seen, d: nat, up: nat,
      hits: multiset<nat>, h: nat) returns (c: nat, parent: nat)
    requires ShowsAll(m, bs, listing, seen, d, hits) && DirIs(m, d, up) && PlaceIn(seen, listing, up, h).Some?
    ensures ShowsPlace(m, c, parent, PlaceIn(seen, listing, up, h).value, h, hits)
    decreases listing
  {
    match listing
    case Item(name, node, rest) =>
      if Dropped(name, node) {
        c, parent := PlaceFound(m, bs, rest, seen, d, up, hits, h);
      } else if PlaceOf(seen, node, up, h).None? {
        c, parent := PlaceFound(m, bs[1..], rest, SeenAfter(seen, name, node), d, up, hits, h);
      } else {
        c, parent := NodeFound(m, m.named[bs[0]], node, seen, d, up, hits, h);
      }
  }

  lemma {:induction false} NodeFound(m: Model, ino: nat, node: Host, seen: Seen, d: nat, up: nat, hits: multiset<nat>,
      h: nat) returns (c: nat, parent: nat)
    requires Shows(m, ino, node, seen, d, hits) && DirIs(m, d, up) && PlaceOf(seen, node, up, h).Some?
    ensures ShowsPlace(m, c, parent, PlaceOf(seen, node, up, h).value, h, hits)
    decreases node
  {
    match node
    case Dir(hino, listing) =>
      c, parent := ino, d;
      if hino != h {
        c, parent := PlaceFound(m, m.files[ino].blks[2..], listing, seen[hino := GaveDir], ino, hino, hits, h);
      }
  }

  lemma AllAreShown(m: Model, home: Listing)
    requires ShowsDir(m, BLKN_ROOT, home, map[0 := GaveDir], BLKN_ROOT, HomeHits(home)) && DirIs(m, BLKN_ROOT, 0)
    ensures AllShown(m, home)
  {
    forall h | PlaceAt(home, h).Some? ensures PlaceShown(m, home, h, HomeHits(home)) {
      if h == 0 {
        assert ShowsPlace(m, BLKN_ROOT, BLKN_ROOT, PlaceAt(home, h).value, h, HomeHits(home));
      } else {
        var c, parent := PlaceFound(m, m.files[BLKN_ROOT].blks[2..], home, map[0 := GaveDir], BLKN_ROOT, 0,
            HomeHits(home), h);
      }
    }
  }

  // ---------- reading ----------

  lemma ReadsOn(img: Image, dir: Inode, k: nat, fuel: nat)
    requires fuel > 0 && k < dir.blocks && HasBlock(img, BlockOf(img, dir, k))
    ensures ReadEntries(img, dir, k, fuel) ==
      Joined(ReadEntryName(img[BlockOf(img, dir, k)]), ReadNode(img, ReadEntryIno(img[BlockOf(img, dir, k)]), fuel - 1),
             ReadEntries(img, dir, k + 1, fuel))
  {
  }

  /** The node's directories are in the home directory. */
  ghost predicate NodePlaced(home: Listing, seen: Seen, node: Host) {
    match node
    case File(hino, data) => Meant(seen, hino, data).GaveDir? ==> PlaceAt(home, hino).Some?
    case Dir(hino, listing) => Placed(home, seen[hino := GaveDir], listing, hino)
    case _ => true
  }

  lemma ItemPlaced(home: Listing, seen: Seen, name: Name, node: Host, rest: Listing, up: nat)
    requires Placed(home, seen, Item(name, node, rest), up)
    ensures Placed(home, SeenAfter(seen, name, node), rest, up)
    ensures !Dropped(name, node) ==> NodePlaced(home, seen, node)
  {
    PlacedRest(home, seen, name, node, rest, up);
    if !Dropped(name, node) && node.Dir? { PlacedBelow(home, seen, name, node.hino, node.listing, rest, up); }
  }

  /** A state whose directories are all shown, and its finished image. */
  ghost predicate Readied(img: Image, m: Model, home: Listing, inos: map<nat, nat>) {
    (Readable(img, m) && Labelled(m, inos) && InOrder(m) && AllShown(m, home)) == true
  }

  lemma {:induction false} NodeReadsAs(img: Image, m: Model, home: Listing, ino: nat, node: Host, seen: Seen,
      parent: nat, inos: map<nat, nat>, fuel: nat)
    requires Readied(img, m, home, inos) && NodePlaced(home, seen, node)
    requires Shows(m, ino, node, seen, parent, HomeHits(home))
    ensures ReadNode(img, ino, fuel) == Expected(home, node, seen, inos, fuel)
    decreases fuel, 2
  {
    if fuel == 0 { return; }
    match node
    case File(hino, data) => FileReadsAs(img, m, home, ino, hino, data, seen, inos, fuel);
    case Link(_, target) => BytesRead(img, m, ino, LinkKind, target);
    case Dir(hino, listing) =>
      DirReadsAs(img, m, home, ino, hino, listing, seen[hino := GaveDir], parent, inos, fuel);
    case Socket =>
    case Special =>
  }

  lemma {:induction false} FileReadsAs(img: Image, m: Model, home: Listing, ino: nat, hino: nat, data: Bytes,
      seen: Seen, inos: map<nat, nat>, fuel: nat)
    requires Readied(img, m, home, inos) && NodePlaced(home, seen, File(hino, data)) && fuel > 0
    requires Leads(m, ino, hino, Meant(seen, hino, data))
    ensures ReadNode(img, ino, fuel) == Expected(home, File(hino, data), seen, inos, fuel)
    decreases fuel, 1
  {
    match Meant(seen, hino, data)
    case GaveFile(bytes) => BytesRead(img, m, ino, FileKind, bytes);
    case GaveLink(target) => BytesRead(img, m, ino, LinkKind, target);
    case GaveDir =>
      var p := PlaceAt(home, hino).value;
      var parent := ItsPlace(m, home, hino, ino);
      HomeIsPlaced(home, hino);
      DirReadsAs(img, m, home, ino, hino, p.listing, p.seen, parent, inos, fuel);
  }

  /** There is but one directory of each number. */
  lemma ItsPlace(m: Model, home: Listing, h: nat, d: nat) returns (parent: nat)
    requires AllShown(m, home) && InOrder(m) && PlaceAt(home, h).Some? && DirIs(m, d, h)
    ensures ShowsPlace(m, d, parent, PlaceAt(home, h).value, h, HomeHits(home))
  {
    assert PlaceShown(m, home, h, HomeHits(home));
    var c, up :| ShowsPlace(m, c, up, PlaceAt(home, h).value, h, HomeHits(home));
    OneOfANumber(m, c, d);
    parent := up;
  }

  lemma {:induction false} DirReadsAs(img: Image, m: Model, home: Listing, d: nat, hino: nat, listing: Listing,
      seen: Seen, parent: nat, inos: map<nat, nat>, fuel: nat)
    requires Readied(img, m, home, inos) && Placed(home, seen, listing, hino) && fuel > 0
    requires ShowsDir(m, d, listing, seen, parent, HomeHits(home)) && DirIs(m, d, hino)
    ensures ReadNode(img, d, fuel) == ExpectedDir(home, hino, listing, seen, inos, fuel)
    decreases fuel, 0, listing, 1
  {
    assert InodeSays(img, d, m.files[d]);
    DirLinks(img, m, d, listing, seen, parent, HomeHits(home));
    EntriesReadAs(img, m, home, d, hino, 2, listing, seen, inos, fuel);
  }

  lemma {:induction false} EntriesReadAs(img: Image, m: Model, home: Listing, d: nat, hino: nat, k: nat,
      listing: Listing, seen: Seen, inos: map<nat, nat>, fuel: nat)
    requires Readied(img, m, home, inos) && Placed(home, seen, listing, hino) && fuel > 0
    requires d in m.files && HasBlock(img, d) && ReadInode(img[d]).blocks == |m.files[d].blks| && k <= |m.files[d].blks|
    requires ShowsAll(m, m.files[d].blks[k..], listing, seen, d, HomeHits(home))
    ensures ReadEntries(img, ReadInode(img[d]), k, fuel) == ExpectedAll(home, listing, seen, inos, fuel)
    decreases fuel, 0, listing, 0
  {
    match listing
    case End =>
    case Item(name, node, rest) =>
      ItemPlaced(home, seen, name, node, rest, hino);
      if Dropped(name, node) {
        EntriesReadAs(img, m, home, d, hino, k, rest, seen, inos, fuel);
      } else {
        var bs := m.files[d].blks[k..];
        assert bs[1..] == m.files[d].blks[k + 1..];
        EntryReads(img, m, d, k, m.named[bs[0]], name);
        NodeReadsAs(img, m, home, m.named[bs[0]], node, seen, d, inos, fuel - 1);
        EntriesReadAs(img, m, home, d, hino, k + 1, rest, SeenAfter(seen, name, node), inos, fuel);
        ReadsOn(img, ReadInode(img[d]), k, fuel);
      }
  }

  /** What is read from the root on, whatever the numbers are like. */
  lemma HomeReadsAs(img: Image, m: Model, home: Listing, inos: map<nat, nat>, fuel: nat)
    requires Readable(img, m) && Labelled(m, inos) && InOrder(m) && DirIs(m, BLKN_ROOT, 0)
    requires ShowsDir(m, BLKN_ROOT, home, map[0 := GaveDir], BLKN_ROOT, HomeHits(home))
    ensures ReadNode(img, BLKN_ROOT, fuel) == ExpectedHome(home, inos, fuel)
  {
    AllAreShown(m, home);
    HomeIsPlaced(home, 0);
    if fuel > 0 { DirReadsAs(img, m, home, BLKN_ROOT, 0, home, map[0 := GaveDir], BLKN_ROOT, inos, fuel); }
  }

  // ---------- links and dots ----------

  /** The directory of number h is inode d. Its link count in the image is 2, and one for each subdirectory and each
      regular file whose name leads to it, in 16 bits; its first two entries name it and its parent. */
  ghost predicate DirInImage(img: Image, m: Model, home: Listing, h: nat, d: nat)
    requires PlaceAt(home, h).Some?
  {
    var p := PlaceAt(home, h).value;
    && HasBlock(img, d) && DirIs(m, d, h) && ReadInode(img[d]).kind == DirKind
    && ReadInode(img[d]).nlinks == (2 + Subdirs(p.listing) + HomeHits(home)[h]) % 65536
    && (ReadInode(img[d]).nlinks == 2 + Subdirs(p.listing) <==> HomeHits(home)[h] % 65536 == 0)
    && exists parent :: DirIs(m, parent, p.up) && DotsSay(img, d, parent)
  }

  lemma DirIsInImage(img: Image, m: Model, home: Listing, h: nat, d: nat)
    requires Readable(img, m) && InOrder(m) && AllShown(m, home) && PlaceAt(home, h).Some? && DirIs(m, d, h)
    ensures DirInImage(img, m, home, h, d)
  {
    var p := PlaceAt(home, h).value;
    var parent := ItsPlace(m, home, h, d);
    assert InodeSays(img, d, m.files[d]);
    DirLinks(img, m, d, p.listing, p.seen, parent, HomeHits(home));
    DotsRead(img, m, d, p.listing, p.seen, parent, HomeHits(home));
  }
}
