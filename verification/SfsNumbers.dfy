/** What the host numbers of a tree tell apart: the tool takes two files for one if they have one number. These are
    functions of the host's tree alone.
 */
module SfsNumbers {
  import opened Octets
  import opened Wrappers
  import opened SfsModel

  /** What the walk passes over: dotfiles, and special files that can be opened. */
  predicate Dropped(name: Bytes, node: Host) {
    Hidden(name) || node.Special?
  }

  function Subdirs(listing: Listing): nat {
    match listing
    case End => 0
    case Item(name, node, rest) => (if !Dropped(name, node) && node.Dir? then 1 else 0) + Subdirs(rest)
  }

  // ---------- what a number was last given to ----------

  datatype Last = GaveFile(data: Bytes) | GaveLink(target: Bytes) | GaveDir

  /** What the host numbers met so far were last given to. */
  type Seen = map<nat, Last>

  /** What a regular file's name leads to: what its number was given to before, or a new file. */
  function Meant(seen: Seen, hino: nat, data: Bytes): Last {
    if hino in seen then seen[hino] else GaveFile(data)
  }

  function SeenAfter(seen: Seen, name: Bytes, node: Host): Seen
    decreases node
  {
    if Dropped(name, node) then seen
    else
      match node
      case File(hino, data) => seen[hino := Meant(seen, hino, data)]
      case Link(hino, target) => seen[hino := GaveLink(target)]
      case Dir(hino, listing) => SeenAfterAll(seen[hino := GaveDir], listing)
      case Socket => seen
      case Special => seen
  }

  function SeenAfterAll(seen: Seen, listing: Listing): Seen
    decreases listing
  {
    match listing
    case End => seen
    case Item(name, node, rest) => SeenAfterAll(SeenAfter(seen, name, node), rest)
  }

  /** Each visible regular file's number is new, or was last given to a regular file of the same bytes. */
  predicate NodeAgrees(seen: Seen, node: Host)
    decreases node
  {
    match node
    case File(hino, data) => Meant(seen, hino, data) == GaveFile(data)
    case Link(_, _) => true
    case Dir(hino, listing) => AllAgree(seen[hino := GaveDir], listing)
    case Socket => true
    case Special => true
  }

  predicate AllAgree(seen: Seen, listing: Listing)
    decreases listing
  {
    match listing
    case End => true
    case Item(name, node, rest) =>
      (Dropped(name, node) || NodeAgrees(seen, node)) && AllAgree(SeenAfter(seen, name, node), rest)
  }

  // ---------- names of files that lead to directories ----------

  /** The numbers of visible regular files that were last given to a directory. */
  function NodeHits(seen: Seen, node: Host): multiset<nat>
    decreases node
  {
    match node
    case File(hino, data) => if Meant(seen, hino, data).GaveDir? then multiset{hino} else multiset{}
    case Link(_, _) => multiset{}
    case Dir(hino, listing) => Hits(seen[hino := GaveDir], listing)
    case Socket => multiset{}
    case Special => multiset{}
  }

  function Hits(seen: Seen, listing: Listing): multiset<nat>
    decreases listing
  {
    match listing
    case End => multiset{}
    case Item(name, node, rest) =>
      (if Dropped(name, node) then multiset{} else NodeHits(seen, node)) + Hits(SeenAfter(seen, name, node), rest)
  }

  lemma HitsOfItem(seen: Seen, name: Name, node: Host, rest: Listing, hits: multiset<nat>)
    ensures var now := if Dropped(name, node) then multiset{} else NodeHits(seen, node);
      hits + now + Hits(SeenAfter(seen, name, node), rest) == hits + Hits(seen, Item(name, node, rest))
  {
  }

  lemma {:induction false} AgreeingHitsNone(seen: Seen, listing: Listing)
    requires AllAgree(seen, listing)
    ensures Hits(seen, listing) == multiset{}
    decreases listing
  {
    match listing
    case End =>
    case Item(name, node, rest) =>
      if !Dropped(name, node) && node.Dir? { AgreeingHitsNone(seen[node.hino := GaveDir], node.listing); }
      AgreeingHitsNone(SeenAfter(seen, name, node), rest);
  }

  /** Numbers stay seen, and directories are hit only after they were seen. */
  lemma {:induction false} HitsAreSeen(seen: Seen, listing: Listing)
    ensures seen.Keys <= SeenAfterAll(seen, listing).Keys
    ensures forall h :: h in Hits(seen, listing) ==> h in SeenAfterAll(seen, listing)
    decreases listing
  {
    match listing
    case End =>
    case Item(name, node, rest) =>
      NodeHitsAreSeen(seen, name, node);
      HitsAreSeen(SeenAfter(seen, name, node), rest);
  }

  lemma {:induction false} NodeHitsAreSeen(seen: Seen, name: Bytes, node: Host)
    ensures seen.Keys <= SeenAfter(seen, name, node).Keys
    ensures !Dropped(name, node) ==> forall h :: h in NodeHits(seen, node) ==> h in SeenAfter(seen, name, node)
    decreases node
  {
    if !Dropped(name, node) && node.Dir? { HitsAreSeen(seen[node.hino := GaveDir], node.listing); }
  }

  // ---------- directories by number ----------

  /** A directory: what is in it, what the numbers were last given to when its walk starts, and its parent's number. */
  datatype Place = Place(listing: Listing, seen: Seen, up: nat)

  function PlaceOf(seen: Seen, node: Host, up: nat, h: nat): Option<Place>
    decreases node
  {
    if !node.Dir? then None
    else if node.hino == h then Some(Place(node.listing, seen[h := GaveDir], up))
    else PlaceIn(seen[node.hino := GaveDir], node.listing, node.hino, h)
  }

  /** The directory of number h below one of number up. */
  function PlaceIn(seen: Seen, listing: Listing, up: nat, h: nat): Option<Place>
    decreases listing
  {
    match listing
    case End => None
    case Item(name, node, rest) =>
      if !Dropped(name, node) && PlaceOf(seen, node, up, h).Some? then PlaceOf(seen, node, up, h)
      else PlaceIn(SeenAfter(seen, name, node), rest, up, h)
  }

  /** The home directory has number 0, and is its own parent. */
  function PlaceAt(home: Listing, h: nat): Option<Place> {
    if h == 0 then Some(Place(home, map[0 := GaveDir], 0)) else PlaceIn(map[0 := GaveDir], home, 0, h)
  }

  /** The directories that numbers were given to so far, and those still to come, are in the home directory. */
  ghost predicate Placed(home: Listing, seen: Seen, listing: Listing, up: nat) {
    && (forall h :: h in seen && seen[h].GaveDir? ==> PlaceAt(home, h).Some?)
    && (forall h :: PlaceIn(seen, listing, up, h).Some? ==> PlaceAt(home, h).Some?)
  }

  lemma {:induction false} DirsArePlaced(seen: Seen, listing: Listing, up: nat, h: nat)
    requires h in SeenAfterAll(seen, listing) && SeenAfterAll(seen, listing)[h].GaveDir?
    ensures (h in seen && seen[h].GaveDir?) || PlaceIn(seen, listing, up, h).Some?
    decreases listing
  {
    match listing
    case End =>
    case Item(name, node, rest) =>
      DirsArePlaced(SeenAfter(seen, name, node), rest, up, h);
      if h in SeenAfter(seen, name, node) && SeenAfter(seen, name, node)[h].GaveDir? {
        NodeDirsArePlaced(seen, name, node, up, h);
      }
  }

  lemma {:induction false} NodeDirsArePlaced(seen: Seen, name: Bytes, node: Host, up: nat, h: nat)
    requires h in SeenAfter(seen, name, node) && SeenAfter(seen, name, node)[h].GaveDir?
    ensures (h in seen && seen[h].GaveDir?) || (!Dropped(name, node) && PlaceOf(seen, node, up, h).Some?)
    decreases node
  {
    if !Dropped(name, node) && node.Dir? && node.hino != h {
      DirsArePlaced(seen[node.hino := GaveDir], node.listing, node.hino, h);
    }
  }

  lemma PlacedRest(home: Listing, seen: Seen, name: Name, node: Host, rest: Listing, up: nat)
    requires Placed(home, seen, Item(name, node, rest), up)
    ensures Placed(home, SeenAfter(seen, name, node), rest, up)
  {
    var listing, seen1 := Item(name, node, rest), SeenAfter(seen, name, node);
    forall h | h in seen1 && seen1[h].GaveDir? ensures PlaceAt(home, h).Some? {
      NodeDirsArePlaced(seen, name, node, up, h);
      assert !(h in seen && seen[h].GaveDir?) ==> PlaceIn(seen, listing, up, h).Some?;
    }
    forall h | PlaceIn(seen1, rest, up, h).Some? ensures PlaceAt(home, h).Some? {
      assert PlaceIn(seen, listing, up, h).Some?;
    }
  }

  lemma PlacedBelow(home: Listing, seen: Seen, name: Name, hino: nat, inner: Listing, rest: Listing, up: nat)
    requires Placed(home, seen, Item(name, Dir(hino, inner), rest), up) && !Hidden(name)
    ensures Placed(home, seen[hino := GaveDir], inner, hino)
  {
    var listing, seen1 := Item(name, Dir(hino, inner), rest), seen[hino := GaveDir];
    forall h | h == hino || PlaceIn(seen1, inner, hino, h).Some? ensures PlaceAt(home, h).Some? {
      assert PlaceOf(seen, Dir(hino, inner), up, h).Some?;
      assert PlaceIn(seen, listing, up, h).Some?;
    }
  }

  /** So it is at every directory of the home directory. */
  lemma {:induction false} PlacesArePlaced(home: Listing, seen: Seen, listing: Listing, up: nat, h: nat)
    requires Placed(home, seen, listing, up) && PlaceIn(seen, listing, up, h).Some?
    ensures var p := PlaceIn(seen, listing, up, h).value; Placed(home, p.seen, p.listing, h)
    decreases listing
  {
    match listing
    case End =>
    case Item(name, node, rest) =>
      if !Dropped(name, node) && PlaceOf(seen, node, up, h).Some? {
        PlacedBelow(home, seen, name, node.hino, node.listing, rest, up);
        if node.hino != h { PlacesArePlaced(home, seen[node.hino := GaveDir], node.listing, node.hino, h); }
      } else {
        PlacedRest(home, seen, name, node, rest, up);
        PlacesArePlaced(home, SeenAfter(seen, name, node), rest, up, h);
      }
  }

  lemma HomeIsPlaced(home: Listing, h: nat)
    requires PlaceAt(home, h).Some?
    ensures var p := PlaceAt(home, h).value; Placed(home, p.seen, p.listing, h)
  {
    assert Placed(home, map[0 := GaveDir], home, 0) by {
      forall g | PlaceIn(map[0 := GaveDir], home, 0, g).Some? ensures PlaceAt(home, g).Some? {
      }
    }
    if h != 0 { PlacesArePlaced(home, map[0 := GaveDir], home, 0, h); }
  }

  // ---------- a home directory ----------

  /** Each visible regular file has a number that is new, or was last given to a regular file of the same bytes; 0 was
      given to the root. */
  predicate NumbersAgree(home: Listing) {
    AllAgree(map[0 := GaveDir], home)
  }

  /** For each directory, by number, the names of regular files that lead to it. */
  function HomeHits(home: Listing): multiset<nat> {
    Hits(map[0 := GaveDir], home)
  }

  /** Regular files of one host disk, by inode number. */
  type Disk = map<nat, Bytes>

  /** What is visible there is on that disk. */
  ghost predicate OnDisk(node: Host, disk: Disk) {
    match node
    case File(hino, data) => hino in disk && disk[hino] == data
    case Link(hino, _) => hino !in disk
    case Dir(hino, listing) => hino !in disk && AllOnDisk(listing, disk)
    case Socket => true
    case Special => true
  }

  ghost predicate AllOnDisk(listing: Listing, disk: Disk) {
    match listing
    case End => true
    case Item(name, node, rest) => (Dropped(name, node) || OnDisk(node, disk)) && AllOnDisk(rest, disk)
  }

  /** The numbers were given to what the disk has under them. */
  ghost predicate SeenOn(seen: Seen, disk: Disk) {
    forall h :: h in seen ==> if h in disk then seen[h] == GaveFile(disk[h]) else !seen[h].GaveFile?
  }

  /** On one disk, where inode numbers tell regular files apart and none is 0, the numbers agree. */
  lemma OneDiskAgrees(home: Listing, disk: Disk)
    requires AllOnDisk(home, disk) && 0 !in disk
    ensures NumbersAgree(home)
  {
    AllAgreeOn(map[0 := GaveDir], home, disk);
  }

  lemma {:induction false} AllAgreeOn(seen: Seen, listing: Listing, disk: Disk)
    requires AllOnDisk(listing, disk) && SeenOn(seen, disk)
    ensures AllAgree(seen, listing) && SeenOn(SeenAfterAll(seen, listing), disk)
    decreases listing
  {
    match listing
    case End =>
    case Item(name, node, rest) =>
      if !Dropped(name, node) && node.Dir? {
        AllAgreeOn(seen[node.hino := GaveDir], node.listing, disk);
      }
      AllAgreeOn(SeenAfter(seen, name, node), rest, disk);
  }
}
