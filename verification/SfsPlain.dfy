/** The tree and the names that a reader of an image should find, in the host's own terms: these definitions name the
    bytes that count, and use nothing of what the tool passes over or cuts.
 */
module SfsPlain {
  import opened Octets
  import opened SfsLayout
  import opened Wrappers
  import opened SfsModel
  import opened SfsNumbers
  import opened SfsImage
  import opened SfsAccounting
  import opened SfsTree
  import opened SfsReader
  import opened SfsReadBack

  predicate StartsWithDot(name: Bytes) {
    |name| > 0 && name[0] == 46
  }

  function FirstBytes(name: Bytes, n: nat): Bytes {
    if |name| <= n then name else name[..n]
  }

  /** The names of a directory that do not start with a dot and are not of special files, as far as 252 bytes. */
  function KeptNames(listing: Listing): seq<Bytes> {
    match listing
    case End => []
    case Item(name, node, rest) =>
      if StartsWithDot(name) || node.Special? then KeptNames(rest) else [FirstBytes(name, 252)] + KeptNames(rest)
  }

  function Subdirectories(listing: Listing): nat {
    match listing
    case End => 0
    case Item(name, node, rest) =>
      Subdirectories(rest) + if node.Dir? && !StartsWithDot(name) then 1 else 0
  }

  /** The tree without dotfiles and special files; inos gives the inode number of each file. */
  function PlainNode(node: Host, inos: map<nat, nat>): Node {
    match node
    case File(hino, data) => FileNode(if hino in inos then inos[hino] else 0, data)
    case Link(_, target) => LinkNode(target)
    case Dir(_, listing) => DirNode(2 + Subdirectories(listing), PlainAll(listing, inos))
    case _ => LinkNode([])
  }

  function PlainAll(listing: Listing, inos: map<nat, nat>): Entries {
    match listing
    case End => NoMore
    case Item(name, node, rest) =>
      if StartsWithDot(name) || node.Special? then PlainAll(rest, inos)
      else Entry(FirstBytes(name, 252), PlainNode(node, inos), PlainAll(rest, inos))
  }

  /** It is what is visible to the tool. */
  lemma {:induction false} VisibleIsPlain(listing: Listing, inos: map<nat, nat>)
    ensures VisibleAll(listing, inos, NAME_WRITTEN) == PlainAll(listing, inos)
    ensures Subdirs(listing) == Subdirectories(listing)
  {
    match listing
    case End =>
    case Item(name, node, rest) =>
      VisibleIsPlain(rest, inos);
      if node.Dir? { VisibleIsPlain(node.listing, inos); }
  }

  // ---------- names in an image ----------

  /** The name of entry k of a directory, where it has a block. */
  function NameAt(img: Image, dir: Inode, k: nat): Bytes {
    var b := BlockOf(img, dir, k);
    if HasBlock(img, b) then ReadEntryName(img[b]) else []
  }

  /** The names of its entries from the k-th on. */
  function NamesFrom(img: Image, dir: Inode, k: nat): seq<Bytes>
    decreases dir.blocks - k
  {
    if k >= dir.blocks then [] else [NameAt(img, dir, k)] + NamesFrom(img, dir, k + 1)
  }

  lemma {:induction false} NamesRead(img: Image, m: Model, d: nat, k: nat, listing: Listing, seen: Seen,
      hits: multiset<nat>)
    requires Readable(img, m) && d in m.files && HasBlock(img, d)
    requires ReadInode(img[d]).blocks == |m.files[d].blks| && k <= |m.files[d].blks|
    requires ShowsAll(m, m.files[d].blks[k..], listing, seen, d, hits)
    ensures NamesFrom(img, ReadInode(img[d]), k) == KeptNames(listing)
    decreases listing
  {
    match listing
    case End =>
    case Item(name, node, rest) =>
      if Dropped(name, node) {
        NamesRead(img, m, d, k, rest, seen, hits);
      } else {
        var bs := m.files[d].blks[k..];
        assert bs[1..] == m.files[d].blks[k + 1..];
        EntryReads(img, m, d, k, m.named[bs[0]], name);
        NamesRead(img, m, d, k + 1, rest, SeenAfter(seen, name, node), hits);
      }
  }

  /** Directory number h is inode d, and the names in it are those kept of its listing, in order. */
  ghost predicate NamesOf(img: Image, m: Model, home: Listing, h: nat, d: nat)
    requires PlaceAt(home, h).Some?
  {
    && DirIs(m, d, h) && HasBlock(img, d)
    && NamesFrom(img, ReadInode(img[d]), 2) == KeptNames(PlaceAt(home, h).value.listing)
  }

  lemma PlaceNames(img: Image, m: Model, home: Listing, h: nat, d: nat)
    requires Readable(img, m) && InOrder(m) && AllShown(m, home) && PlaceAt(home, h).Some? && DirIs(m, d, h)
    ensures NamesOf(img, m, home, h, d)
  {
    var p := PlaceAt(home, h).value;
    var parent := ItsPlace(m, home, h, d);
    assert InodeSays(img, d, m.files[d]);
    NamesRead(img, m, d, 2, p.listing, p.seen, HomeHits(home));
  }

  // ---------- ways through an image ----------

  predicate DirAt(img: Image, d: nat) {
    HasBlock(img, d) && ReadInode(img[d]).kind == DirKind
  }

  /** The inode that a way leads to, which takes one entry of a directory after another, "." and ".." among them. */
  function Reached(img: Image, ino: nat, way: seq<nat>): Option<nat>
    decreases |way|
  {
    if way == [] then Some(ino)
    else if !DirAt(img, ino) || way[0] >= ReadInode(img[ino]).blocks then None
    else
      var b := BlockOf(img, ReadInode(img[ino]), way[0]);
      if HasBlock(img, b) then Reached(img, ReadEntryIno(img[b]), way[1..]) else None
  }

  /** Wherever a way from the root leads, no name from the third on starts with a dot. */
  ghost predicate NoDotfiles(img: Image) {
    forall way: seq<nat>, k: nat :: NoDotAt(img, Reached(img, 1, way), k)
  }

  ghost predicate NoDotAt(img: Image, d: Option<nat>, k: nat) {
    d.Some? && DirAt(img, d.value) && 2 <= k < ReadInode(img[d.value]).blocks ==>
      !StartsWithDot(NameAt(img, ReadInode(img[d.value]), k))
  }

  /** A file, or a directory that is in the home directory. */
  ghost predicate AtPlace(m: Model, home: Listing, f: nat) {
    f in m.files && (IsDir(m, f) ==> PlaceAt(home, m.files[f].hino).Some?)
  }

  lemma {:induction false} UpIsPlace(seen: Seen, listing: Listing, up: nat, h: nat)
    requires PlaceIn(seen, listing, up, h).Some?
    ensures var q := PlaceIn(seen, listing, up, h).value.up; q == up || PlaceIn(seen, listing, up, q).Some?
    decreases listing
  {
    match listing
    case Item(name, node, rest) =>
      if !Dropped(name, node) && PlaceOf(seen, node, up, h).Some? {
        if node.hino != h { UpIsPlace(seen[node.hino := GaveDir], node.listing, node.hino, h); }
      } else {
        UpIsPlace(SeenAfter(seen, name, node), rest, up, h);
      }
  }

  lemma UpIsAtHome(home: Listing, h: nat)
    requires PlaceAt(home, h).Some?
    ensures PlaceAt(home, PlaceAt(home, h).value.up).Some?
  {
    if h != 0 { UpIsPlace(map[0 := GaveDir], home, 0, h); }
  }

  lemma NodeAtPlace(m: Model, home: Listing, ino: nat, node: Host, seen: Seen, d: nat)
    requires Shows(m, ino, node, seen, d, HomeHits(home)) && NodePlaced(home, seen, node)
    ensures AtPlace(m, home, ino)
  {
    match node
    case File(hino, data) =>
    case Link(_, _) =>
    case Dir(hino, listing) => assert hino in seen[hino := GaveDir] && seen[hino := GaveDir][hino].GaveDir?;
    case Socket =>
    case Special =>
  }

  lemma {:induction false} EntryAtPlace(m: Model, home: Listing, bs: seq<nat>, listing: Listing, seen: Seen, d: nat,
      up: nat, k: nat) returns (name: Name)
    requires ShowsAll(m, bs, listing, seen, d, HomeHits(home)) && Placed(home, seen, listing, up) && k < |bs|
    ensures bs[k] in m.named && AtPlace(m, home, m.named[bs[k]]) && EntryFor(m, bs[k], m.named[bs[k]], name)
    ensures !StartsWithDot(name)
    decreases listing
  {
    match listing
    case Item(n, node, rest) =>
      ItemPlaced(home, seen, n, node, rest, up);
      if Dropped(n, node) {
        name := EntryAtPlace(m, home, bs, rest, seen, d, up, k);
      } else if k == 0 {
        name := n;
        NodeAtPlace(m, home, m.named[bs[0]], node, seen, d);
      } else {
        name := EntryAtPlace(m, home, bs[1..], rest, SeenAfter(seen, n, node), d, up, k - 1);
      }
  }

  lemma StepAtPlace(img: Image, m: Model, home: Listing, d: nat, k: nat)
    requires Readable(img, m) && InOrder(m) && AllShown(m, home) && IsDir(m, d) && AtPlace(m, home, d)
    requires HasBlock(img, d) && k < ReadInode(img[d]).blocks
    ensures var b := BlockOf(img, ReadInode(img[d]), k); HasBlock(img, b) && AtPlace(m, home, ReadEntryIno(img[b]))
    ensures k >= 2 ==> !StartsWithDot(NameAt(img, ReadInode(img[d]), k))
  {
    var h := m.files[d].hino;
    var p := PlaceAt(home, h).value;
    var parent := ItsPlace(m, home, h, d);
    assert InodeSays(img, d, m.files[d]);
    if k == 0 {
      EntryReads(img, m, d, 0, d, DOT);
    } else if k == 1 {
      EntryReads(img, m, d, 1, parent, DOTDOT);
      UpIsAtHome(home, h);
    } else {
      HomeIsPlaced(home, h);
      var bs := m.files[d].blks;
      var name := EntryAtPlace(m, home, bs[2..], p.listing, p.seen, d, h, k - 2);
      EntryReads(img, m, d, k, m.named[bs[k]], name);
    }
  }

  lemma {:induction false} WayAtPlace(img: Image, m: Model, home: Listing, ino: nat, way: seq<nat>)
    requires Readable(img, m) && InOrder(m) && AllShown(m, home) && AtPlace(m, home, ino)
    ensures Reached(img, ino, way).Some? ==> AtPlace(m, home, Reached(img, ino, way).value)
    decreases |way|
  {
    if way != [] && DirAt(img, ino) && way[0] < ReadInode(img[ino]).blocks {
      assert InodeSays(img, ino, m.files[ino]);
      StepAtPlace(img, m, home, ino, way[0]);
      WayAtPlace(img, m, home, ReadEntryIno(img[BlockOf(img, ReadInode(img[ino]), way[0])]), way[1..]);
    }
  }

  /** No way leads to a dotfile. */
  lemma WaysMeetNoDot(img: Image, m: Model, home: Listing)
    requires Readable(img, m) && InOrder(m) && AllShown(m, home) && DirIs(m, 1, 0)
    ensures NoDotfiles(img)
  {
    forall way: seq<nat>, k: nat ensures NoDotAt(img, Reached(img, 1, way), k) {
      WayAtPlace(img, m, home, 1, way);
      var d := Reached(img, 1, way);
      if d.Some? && DirAt(img, d.value) && 2 <= k < ReadInode(img[d.value]).blocks {
        assert InodeSays(img, d.value, m.files[d.value]);
        StepAtPlace(img, m, home, d.value, k);
      }
    }
  }
}
