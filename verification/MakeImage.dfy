/** create_img: a whole run of the image builder, and what it leaves. */
module MakeImage {
  import opened Octets
  import opened SfsLayout
  import opened Wrappers
  import opened SfsModel
  import opened SfsNumbers
  import opened SfsBlockMap
  import opened SfsImage
  import opened SfsTables
  import opened SfsRun
  import opened SfsAccounting
  import opened SfsTree
  import opened SfsReader
  import opened SfsReadBack
  import opened SfsFit
  import opened SfsPlain
  import opened SfsLimits
  import opened SfsBytes
  import opened Mksfs

  /** The abstract run for an image file of size bytes; listing is the home directory. */
  function Build(size: nat, listing: Listing): Outcome {
    var m0 :- Create(size);
    OpenDir(m0, BLKN_ROOT, BLKN_ROOT, listing)
  }

  /** Blocks, links and numbers add up in every state of every run, whether it comes to its end or not. */
  lemma BuildRuns(size: nat, listing: Listing) returns (steps: seq<Step>, last: Model)
    requires Create(size).Done?
    ensures RunsTo(Create(size).m, steps, last, listing, Build(size, listing)) && AllSound(Create(size).m, steps)
    ensures Sound(last) && OneEach(last)
  {
    CreateSound(size);
    RootReady(size);
    steps, last := WalkSound(Create(size).m, listing);
  }

  lemma RootReady(size: nat)
    requires Create(size).Done?
    ensures Ready(Create(size).m, BLKN_ROOT) && IsDir(Create(size).m, BLKN_ROOT)
  {
  }

  ghost predicate AllSound(m0: Model, steps: seq<Step>) {
    forall k: nat, m {:trigger Reaches(m0, steps[..k], m)} :: k <= |steps| && Reaches(m0, steps[..k], m) ==>
      Sound(m) && OneEach(m)
  }

  lemma WalkSound(m0: Model, listing: Listing) returns (steps: seq<Step>, last: Model)
    requires Ready(m0, BLKN_ROOT) && IsDir(m0, BLKN_ROOT) && Sound(m0) && OneEach(m0)
    ensures RunsTo(m0, steps, last, listing, OpenDir(m0, BLKN_ROOT, BLKN_ROOT, listing)) && AllSound(m0, steps)
    ensures Sound(last) && OneEach(last)
  {
    steps, last := DirRuns(m0, BLKN_ROOT, BLKN_ROOT, listing);
    StatesSound(m0, steps);
    StateSound(m0, steps, last);
  }

  lemma StatesSound(m0: Model, steps: seq<Step>)
    requires Sound(m0) && OneEach(m0)
    ensures AllSound(m0, steps)
  {
    forall k: nat, m | k <= |steps| && Reaches(m0, steps[..k], m) ensures Sound(m) && OneEach(m) {
      StateSound(m0, steps[..k], m);
    }
  }

  lemma StateSound(m0: Model, steps: seq<Step>, m: Model)
    requires Sound(m0) && OneEach(m0) && Reaches(m0, steps, m)
    ensures Sound(m) && OneEach(m)
  {
    RunKeeps(m0, steps, m);
    RunKeepsOneEach(m0, steps, m);
  }

  lemma BuildSound(size: nat, listing: Listing)
    requires Build(size, listing).Done?
    ensures Sound(Build(size, listing).m) && OneEach(Build(size, listing).m)
  {
    var _, last := BuildRuns(size, listing);
    assert last == Build(size, listing).m;
  }

  /** Blocks a run takes past the free map: "." and ".." of the root, and all that is below it. */
  function Needed(listing: Listing): nat {
    OpenCost({0}, listing)
  }

  /** A run comes to its end exactly if no limit is exceeded and the image has the blocks; it takes just those. */
  lemma BuildFits(size: nat, listing: Listing)
    ensures Build(size, listing).Done? <==>
      && FirstFree(BlockCount(size)) < BlockCount(size) && AllAllowed({0}, 2, listing)
      && FirstFree(BlockCount(size)) + Needed(listing) <= BlockCount(size)
    ensures Build(size, listing).Done? ==> Build(size, listing).m.next == FirstFree(BlockCount(size)) + Needed(listing)
  {
    if Create(size).Done? {
      var m0 := Create(size).m;
      assert m0.byHost.Keys == {0};
      OpenDirFits(m0, BLKN_ROOT, BLKN_ROOT, listing);
    }
  }

  /** The same in plain numbers: when a run comes to its end, and where the first block is that it does not use; the
      image's blocks are those that fit in its file. */
  lemma BuildFitsIn(size: nat, home: Listing)
    ensures var n := BlockCount(size);
      && (Build(size, home).Done? <==>
           2 + Ceil(n, 32768) < n && WithinLimits({0}, home) && EntryCount(home) <= 32768
           && 2 + Ceil(n, 32768) + DirBlocks({0}, home) <= n)
      && (Build(size, home).Done? ==>
           Build(size, home).m.next == 2 + Ceil(n, 32768) + DirBlocks({0}, home) && Build(size, home).m.ninos == n)
  {
    BuildFits(size, home);
    MapIsLeast(BlockCount(size));
    OpenIsClosed({0}, home);
    LimitsAre({0}, 2, home);
    if Create(size).Done? {
      assert Create(size).m.byHost.Keys == {0};
      OpenDirFits(Create(size).m, BLKN_ROOT, BLKN_ROOT, home);
    }
  }

  // ---------- the tree that comes back ----------

  /** The home directory, as a reader of the image should find it: without dotfiles and special files, and names cut to
      252 bytes. */
  function Home(listing: Listing, inos: map<nat, nat>): Node {
    DirNode(2 + Subdirectories(listing), PlainAll(listing, inos))
  }

  /** The home directory is found at the root inode block, whatever numbers its files have in the image. */
  ghost predicate ReadsHome(img: Image, listing: Listing, fuel: nat) {
    exists inos :: ReadNode(img, 1, fuel) == Some(Home(listing, inos))
  }

  /** So it is, and files are told apart. */
  ghost predicate ReadsHomeApart(img: Image, listing: Listing, fuel: nat) {
    exists inos :: TellsApart(inos) && ReadNode(img, 1, fuel) == Some(Home(listing, inos))
  }

  ghost predicate TellsApart(inos: map<nat, nat>) {
    && (forall h :: h in inos ==> inos[h] != 0)
    && forall h, h' :: h in inos && h' in inos && inos[h] == inos[h'] ==> h == h'
  }

  /** The inode of each host file in the state a run ends in. */
  ghost function Inodes(m: Model): map<nat, nat>
    requires OneEach(m)
  {
    map f | f in m.files && m.files[f].kind == FileKind :: m.files[f].hino := f
  }

  lemma InodesLabel(m: Model)
    requires Sound(m) && OneEach(m)
    ensures Labelled(m, Inodes(m)) && TellsApart(Inodes(m))
  {
    BelowNext(m);
  }

  /** It shows the home directory at the root inode, with what each number was last given to where the walk came to
      it. */
  lemma BuildShows(size: nat, listing: Listing)
    requires Build(size, listing).Done?
    ensures ShowsHome(Build(size, listing).m, listing)
  {
    var none: multiset<nat> := multiset{};
    CreateGoing(size);
    OpenDirShows(Create(size).m, BLKN_ROOT, BLKN_ROOT, listing, map[0 := GaveDir], none);
    assert none + HomeHits(listing) == HomeHits(listing);
    RootOpened(Build(size, listing).m, listing, map[0 := GaveDir], HomeHits(listing));
  }

  ghost predicate ShowsHome(m: Model, home: Listing) {
    ShowsDir(m, BLKN_ROOT, home, map[0 := GaveDir], BLKN_ROOT, HomeHits(home)) && DirIs(m, BLKN_ROOT, 0) && InOrder(m)
  }

  lemma CreateGoing(size: nat)
    requires Create(size).Done?
    ensures Going(Create(size).m, BLKN_ROOT, map[0 := GaveDir], multiset{}) && Links(Create(size).m, BLKN_ROOT) == 0
  {
    CreateSound(size);
    InOrderIs(Create(size).m);
    NoNames(Create(size).m.named, BLKN_ROOT, Create(size).m.next);
  }

  lemma RootOpened(m: Model, listing: Listing, seen: Seen, hits: multiset<nat>)
    requires Opened(m, BLKN_ROOT, listing, seen, BLKN_ROOT, hits)
    ensures ShowsDir(m, BLKN_ROOT, listing, seen, BLKN_ROOT, hits)
  {
  }

  /** The tree read from a finished image is the home directory if and only if the numbers agree; and then files are
      told apart. What is read else is said by ExpectedHome. */
  lemma ReadsBack(size: nat, listing: Listing, img: Image, inodes: map<nat, CInode>, ix: Index, fuel: nat)
    requires Build(size, listing).Done? && Finished(img, Build(size, listing).m, inodes, ix)
    requires fuel >= HeightAll(listing)
    ensures ReadsHome(img, listing, fuel) <==> NumbersAgree(listing)
    ensures NumbersAgree(listing) ==> ReadsHomeApart(img, listing, fuel)
  {
    BuildShows(size, listing);
    FinishedIsReadable(img, Build(size, listing).m, inodes, ix);
    var inos := Labels(Build(size, listing).m);
    RootReads(Build(size, listing).m, listing, img, inos, fuel);
  }

  lemma Labels(m: Model) returns (inos: map<nat, nat>)
    requires InOrder(m)
    ensures Labelled(m, inos) && TellsApart(inos)
  {
    InOrderIs(m);
    InodesLabel(m);
    inos := Inodes(m);
  }

  lemma RootReads(m: Model, listing: Listing, img: Image, inos: map<nat, nat>, fuel: nat)
    requires Readable(img, m) && Labelled(m, inos) && TellsApart(inos)
    requires ShowsHome(m, listing) && fuel >= HeightAll(listing)
    ensures ReadsHome(img, listing, fuel) <==> NumbersAgree(listing)
    ensures NumbersAgree(listing) ==> ReadsHomeApart(img, listing, fuel)
  {
    if NumbersAgree(listing) {
      AgreeingHitsNone(map[0 := GaveDir], listing);
      HomeReads(m, listing, map[0 := GaveDir], img, inos, fuel);
    } else {
      HomeMisreads(m, listing, map[0 := GaveDir], HomeHits(listing), img, fuel);
    }
  }

  lemma HomeReads(m: Model, listing: Listing, seen: Seen, img: Image, inos: map<nat, nat>, fuel: nat)
    requires Readable(img, m) && Labelled(m, inos) && TellsApart(inos) && fuel >= HeightAll(listing)
    requires ShowsDir(m, BLKN_ROOT, listing, seen, BLKN_ROOT, multiset{}) && AllAgree(seen, listing)
    ensures ReadsHome(img, listing, fuel) && ReadsHomeApart(img, listing, fuel)
  {
    DirReads(img, m, BLKN_ROOT, listing, seen, BLKN_ROOT, inos, fuel);
    VisibleIsPlain(listing, inos);
    assert ReadNode(img, BLKN_ROOT, fuel) == Some(Home(listing, inos));
  }

  lemma HomeMisreads(m: Model, listing: Listing, seen: Seen, hits: multiset<nat>, img: Image, fuel: nat)
    requires Readable(img, m) && ShowsDir(m, BLKN_ROOT, listing, seen, BLKN_ROOT, hits) && !AllAgree(seen, listing)
    ensures !ReadsHome(img, listing, fuel)
  {
    forall inos ensures ReadNode(img, BLKN_ROOT, fuel) != Some(Home(listing, inos)) {
      DirMisreads(img, m, BLKN_ROOT, listing, seen, BLKN_ROOT, hits, inos, fuel);
      VisibleIsPlain(listing, inos);
    }
  }

  /** For every fuel, the reader finds what ExpectedHome says, and tells files apart. */
  ghost predicate ReadsAsExpected(img: Image, home: Listing) {
    exists inos :: TellsApart(inos) && AsExpected(img, home, inos)
  }

  ghost predicate AsExpected(img: Image, home: Listing, inos: map<nat, nat>) {
    forall fuel :: ReadNode(img, BLKN_ROOT, fuel) == ExpectedHome(home, inos, fuel)
  }

  /** Each directory of the home directory is in the image, with its links and its first two entries. */
  ghost predicate DirsInImage(img: Image, m: Model, home: Listing) {
    forall h {:trigger PlaceAt(home, h)} :: PlaceAt(home, h).Some? ==> exists d :: DirInImage(img, m, home, h, d)
  }

  lemma AllIsExpected(img: Image, m: Model, home: Listing, inos: map<nat, nat>)
    requires Readable(img, m) && Labelled(m, inos) && TellsApart(inos) && ShowsHome(m, home)
    ensures ReadsAsExpected(img, home)
  {
    forall fuel ensures ReadNode(img, BLKN_ROOT, fuel) == ExpectedHome(home, inos, fuel) {
      HomeReadsAs(img, m, home, inos, fuel);
    }
    assert AsExpected(img, home, inos);
  }

  lemma AllDirsInImage(img: Image, m: Model, home: Listing)
    requires Readable(img, m) && ShowsHome(m, home)
    ensures DirsInImage(img, m, home)
  {
    AllAreShown(m, home);
    forall h | PlaceAt(home, h).Some? ensures exists d :: DirInImage(img, m, home, h, d) {
      var d := SomeDir(m, home, h);
      DirIsInImage(img, m, home, h, d);
    }
  }

  /** Each directory's names are as they should be. */
  ghost predicate NamesInImage(img: Image, m: Model, home: Listing) {
    forall h {:trigger PlaceAt(home, h)} :: PlaceAt(home, h).Some? ==> exists d :: NamesOf(img, m, home, h, d)
  }

  lemma AllNamesInImage(img: Image, m: Model, home: Listing)
    requires Readable(img, m) && ShowsHome(m, home)
    ensures NamesInImage(img, m, home) && NoDotfiles(img)
  {
    AllAreShown(m, home);
    forall h | PlaceAt(home, h).Some? ensures exists d :: NamesOf(img, m, home, h, d) {
      var d := SomeDir(m, home, h);
      PlaceNames(img, m, home, h, d);
    }
    WaysMeetNoDot(img, m, home);
  }

  lemma SomeDir(m: Model, home: Listing, h: nat) returns (d: nat)
    requires AllShown(m, home) && PlaceAt(home, h).Some?
    ensures DirIs(m, d, h)
  {
    assert PlaceShown(m, home, h, HomeHits(home));
    var c, up :| ShowsPlace(m, c, up, PlaceAt(home, h).value, h, HomeHits(home));
    d := c;
  }

  // ---------- link counts of directories ----------

  /** Every directory has 2 links and one for each subdirectory. */
  ghost predicate LinksRight(m: Model, home: Listing) {
    forall h, d {:trigger DirIs(m, d, h)} :: PlaceAt(home, h).Some? && DirIs(m, d, h) ==>
      m.files[d].nlinks == 2 + Subdirs(PlaceAt(home, h).value.listing)
  }

  /** For each directory it is a multiple of 65536 of regular files whose names lead to it: none, for the most part. */
  predicate HitsVanish(home: Listing) {
    forall h :: h in HomeHits(home) && PlaceAt(home, h).Some? ==> HomeHits(home)[h] % 65536 == 0
  }

  /** Inode d is a directory of number h, and its link count is 2, one for each subdirectory, and one for each regular
      file whose name leads to it, in 16 bits. */
  ghost predicate LinksAdd(m: Model, home: Listing, h: nat, d: nat)
    requires PlaceAt(home, h).Some?
  {
    DirIs(m, d, h) && m.files[d].nlinks == (2 + Subdirs(PlaceAt(home, h).value.listing) + HomeHits(home)[h]) % 65536
  }

  ghost predicate AllLinksAdd(m: Model, home: Listing) {
    && (forall h, d {:trigger DirIs(m, d, h)} :: PlaceAt(home, h).Some? && DirIs(m, d, h) ==> LinksAdd(m, home, h, d))
    && (forall h {:trigger PlaceAt(home, h)} :: PlaceAt(home, h).Some? ==> exists d :: LinksAdd(m, home, h, d))
  }

  /** So it is for every directory of every completed run; and all the link counts are right, if and only if such files
      vanish in 16 bits. */
  lemma BuildLinks(size: nat, home: Listing)
    requires Build(size, home).Done?
    ensures AllLinksAdd(Build(size, home).m, home)
    ensures LinksRight(Build(size, home).m, home) <==> HitsVanish(home)
  {
    BuildShows(size, home);
    HomeLinks(Build(size, home).m, home);
    RightIsVanish(Build(size, home).m, home);
  }

  lemma HomeLinks(m: Model, home: Listing)
    requires ShowsHome(m, home)
    ensures AllLinksAdd(m, home) && AllRightIf(m, home)
  {
    AllAreShown(m, home);
    forall h, d | PlaceAt(home, h).Some? && DirIs(m, d, h) ensures LinksAdd(m, home, h, d) && RightIf(m, home, h, d) {
      PlaceLinks(m, home, h, d);
    }
    forall h | PlaceAt(home, h).Some? ensures exists d :: LinksAdd(m, home, h, d) {
      var d := SomeDir(m, home, h);
      PlaceLinks(m, home, h, d);
    }
  }

  ghost predicate RightIf(m: Model, home: Listing, h: nat, d: nat)
    requires PlaceAt(home, h).Some? && DirIs(m, d, h)
  {
    m.files[d].nlinks == 2 + Subdirs(PlaceAt(home, h).value.listing) <==> HomeHits(home)[h] % 65536 == 0
  }

  ghost predicate AllRightIf(m: Model, home: Listing) {
    forall h, d {:trigger DirIs(m, d, h)} :: PlaceAt(home, h).Some? && DirIs(m, d, h) ==> RightIf(m, home, h, d)
  }

  lemma RightIsVanish(m: Model, home: Listing)
    requires AllLinksAdd(m, home) && AllRightIf(m, home)
    ensures LinksRight(m, home) <==> HitsVanish(home)
  {
    if LinksRight(m, home) {
      forall h | h in HomeHits(home) && PlaceAt(home, h).Some? ensures HomeHits(home)[h] % 65536 == 0 {
        var d :| LinksAdd(m, home, h, d);
        assert RightIf(m, home, h, d);
      }
    }
    if HitsVanish(home) {
      forall h, d | PlaceAt(home, h).Some? && DirIs(m, d, h)
        ensures m.files[d].nlinks == 2 + Subdirs(PlaceAt(home, h).value.listing)
      {
        assert RightIf(m, home, h, d);
        assert h !in HomeHits(home) ==> HomeHits(home)[h] == 0;
      }
    }
  }

  lemma LinksInOrder(m: Model, d: nat)
    requires InOrder(m) && d in m.files
    ensures m.files[d].nlinks == Links(m, d) % U16 && |m.files[d].blks| <= LN_NBLKS
  {
    InOrderIs(m);
    LinksAre(m, d);
    assert Sized(m.files[d]);
  }

  lemma PlaceLinks(m: Model, home: Listing, h: nat, d: nat)
    requires AllShown(m, home) && InOrder(m) && PlaceAt(home, h).Some? && DirIs(m, d, h)
    ensures LinksAdd(m, home, h, d) && RightIf(m, home, h, d)
  {
    var p := PlaceAt(home, h).value;
    var parent := ItsPlace(m, home, h, d);
    SubdirsHaveEntries(m, m.files[d].blks[2..], p.listing, p.seen, d, HomeHits(home));
    LinksInOrder(m, d);
    WholeTurns(2 + Subdirs(p.listing), HomeHits(home)[h]);
  }

  /** A file "a" with number 0, which the root was given. */
  function NumberZero(): Listing {
    Item([97], File(0, []), End)
  }

  /** It fits in six blocks; its name leads to the root, which ends up with 3 links. */
  lemma RootIsHit(size: nat)
    ensures Build(size, NumberZero()).Done? <==> BlockCount(size) >= 6
    ensures !HitsVanish(NumberZero())
    ensures Build(size, NumberZero()).Done? ==>
      var files := Build(size, NumberZero()).m.files; BLKN_ROOT in files && files[BLKN_ROOT].nlinks == 3
  {
    BuildFits(size, NumberZero());
    NumberZeroIs();
    if Build(size, NumberZero()).Done? {
      BuildShows(size, NumberZero());
      BuildLinks(size, NumberZero());
      ThreeLinks(Build(size, NumberZero()).m);
    }
  }

  lemma ThreeLinks(m: Model)
    requires AllLinksAdd(m, NumberZero()) && DirIs(m, BLKN_ROOT, 0)
    ensures m.files[BLKN_ROOT].nlinks == 3
  {
    NumberZeroIs();
    assert LinksAdd(m, NumberZero(), 0, BLKN_ROOT);
  }

  lemma NumberZeroIs()
    ensures Needed(NumberZero()) == 3 && AllAllowed({0}, 2, NumberZero())
    ensures HomeHits(NumberZero()) == multiset{0} && Subdirs(NumberZero()) == 0
    ensures PlaceAt(NumberZero(), 0).Some? && PlaceAt(NumberZero(), 0).value.listing == NumberZero()
  {
    assert WalkCost({0}, 2, NumberZero()) == 1 + WalkCost({0} + {0}, 3, End);
  }

  // ---------- files of one number ----------

  /** Files are told apart by number alone: of those with one number only the first one is read, so that what the others
      hold makes no difference to any run, and of two home directories that are taken for the same at most one comes
      back. */
  lemma FirstBytesWin(size: nat, a: Listing, b: Listing)
    requires SameFirst({0}, a, b)
    ensures Build(size, a) == Build(size, b)
    ensures NumbersAgree(a) && NumbersAgree(b) ==> a == b
  {
    if Create(size).Done? {
      assert Create(size).m.byHost.Keys == {0};
      OpensSame(Create(size).m, BLKN_ROOT, BLKN_ROOT, a, b);
    }
    var seen: Seen := map[0 := GaveDir];
    assert seen.Keys == {0};
    if NumbersAgree(a) && NumbersAgree(b) { AgreeingAreSame(seen, a, b); }
  }

  /** Two files "a" and "b" with number 7, as on two mounted disks; b's one byte is another one. */
  function TwoDisks(): Listing {
    Item([97], File(7, [1]), Item([98], File(7, [2]), End))
  }

  /** They fit in nine blocks, and what is read from the image is not what was there. */
  lemma TwoDisksClash(size: nat)
    ensures Build(size, TwoDisks()).Done? <==> BlockCount(size) >= 9
    ensures !NumbersAgree(TwoDisks())
  {
    BuildFits(size, TwoDisks());
    TwoDisksNeed();
  }

  lemma TwoDisksNeed()
    ensures Needed(TwoDisks()) == 6 && AllAllowed({0}, 2, TwoDisks()) && !NumbersAgree(TwoDisks())
  {
    var second := Item([98], File(7, [2]), End);
    assert WalkCost({0} + {7}, 3, second) == 1;
    assert AllAllowed({0} + {7}, 3, second);
  }

  // ---------- names ----------

  /** No visible name is longer than what gets written. */
  ghost predicate NamesFit(listing: Listing) {
    match listing
    case End => true
    case Item(name, node, rest) =>
      && (Dropped(name, node) || (|name| <= NAME_WRITTEN && (node.Dir? ==> NamesFit(node.listing))))
      && NamesFit(rest)
  }

  /** All names come back whole exactly if none of the visible ones is longer than 252 bytes. */
  lemma {:induction false} NamesComeBack(listing: Listing, inos: map<nat, nat>)
    ensures VisibleAll(listing, inos, NAME_WRITTEN) == VisibleAll(listing, inos, MAX_FNAME_LEN) <==> NamesFit(listing)
  {
    match listing
    case End =>
    case Item(name, node, rest) =>
      NamesComeBack(rest, inos);
      if node.Dir? { NamesComeBack(node.listing, inos); }
  }

  /** What is there once close_sfs is done. */
  ghost predicate ImageMade(img: Image, m: Model) {
    (&& img.Keys == Range(0, m.next) && FreeMapHolds(img, m)
     && 0 in img && SuperSays(img[0], m.ninos, m.ninos - m.next)) == true
  }

  lemma ClosedHolds(img: Image, m: Model, inodes: map<nat, CInode>, cache: map<nat, seq<nat>>, info: Bytes)
    requires Partitioned(m) && ClosedAs(img, m, inodes, cache, info)
    ensures FreeMapHolds(img, m) && img.Keys == Range(0, m.next)
    ensures BLKN_SUPER in img && img[BLKN_SUPER] == Pad(SuperBytes(m.ninos, m.ninos - m.next, info))
    ensures forall b {:trigger img[b]} {:trigger m.blocks[b]} :: b in m.blocks ==> b in img && img[b] == m.blocks[b]
    ensures forall x {:trigger cache[x]} :: x in cache ==> x in img && img[x] == Pad(Words(cache[x]))
    ensures forall i {:trigger inodes[i]} :: i in inodes ==> i in img && img[i] == Pad(InodeBytes(inodes[i].inode))
  {
    var super := Pad(SuperBytes(m.ninos, m.ninos - m.next, info));
    var content := CloseContent(inodes, cache, m, super);
    ContentHolds(inodes, cache, m, super);
    ContentKeys(inodes, cache, m, super);
    BlocksAndRest(m, content);
    forall b: nat | BLKN_FREEMAP <= b < FirstFree(m.ninos) ensures FreeMapBlockHolds(img, m, b) {
      assert FreeMapBlockHolds(content, m, b);
    }
  }

  lemma ClosedIsFinished(img: Image, m: Model, inodes: map<nat, CInode>, ix: Index, info: Bytes)
    requires Sound(m) && Coupled(inodes, ix, m.files) && ClosedAs(img, m, inodes, ix.words, info)
    ensures Finished(img, m, inodes, ix)
  {
    ClosedHolds(img, m, inodes, ix.words, info);
  }

  lemma ClosedIsMade(img: Image, m: Model, inodes: map<nat, CInode>, cache: map<nat, seq<nat>>, info: Bytes)
    requires Partitioned(m) && m.ninos <= MAX_NBLKS && ClosedAs(img, m, inodes, cache, info)
    ensures ImageMade(img, m)
  {
    ClosedHolds(img, m, inodes, cache, info);
    SuperSaysIt(m.ninos, m.ninos - m.next, info);
  }

  /** The free map marks what was not handed out, its first blocks suffice, and it agrees with the superblock. */
  lemma FreeMapAgrees(img: Image, m: Model)
    requires ImageMade(img, m) && m.next <= m.ninos
    ensures forall b: nat {:trigger MapBit(img, b)} :: b < FreeMapBlocks(m.ninos) * BLKBITS ==> (MapBit(img, b) <==>
        m.next <= b < m.ninos)
    ensures m.ninos <= FreeMapBlocks(m.ninos) * BLKBITS
    ensures CountBits(img, FreeMapBlocks(m.ninos) * BLKBITS) == Little32(img[0], 8)
  {
    forall b: nat | b < FreeMapBlocks(m.ninos) * BLKBITS ensures MapBit(img, b) <==> Free(m, b) {
      MapBitMeansFree(img, m, b);
    }
    CountIsFree(img, m, FreeMapBlocks(m.ninos) * BLKBITS);
  }

  lemma BuildPartitioned(size: nat, listing: Listing)
    requires Build(size, listing).Done?
    ensures Partitioned(Build(size, listing).m) == true
  {
    BuildSound(size, listing);
  }

  /** The walk, from the size of the image file on. */
  method WalkHome(size: nat, listing: Listing) returns (stop: Option<Bug>, sfs: Sfs?)
    ensures match Build(size, listing)
            case Abort(why) => stop == Some(why)
            case Done(m) => stop == None && sfs != null && fresh(sfs) && sfs.Valid() && sfs.m == m
    ensures sfs != null ==> sfs.searches == 0
  {
    stop, sfs := Sfs.CreateSfs(size);
    if stop != None { return stop, null; }
    stop := sfs.OpenDir(BLKN_ROOT, BLKN_ROOT, listing);
  }

  /** create_img, from the size of the image file on. */
  method CreateImg(size: nat, listing: Listing, info: Bytes)
    returns (stop: Option<Bug>, img: Image, ghost log: seq<nat>, ghost searches: nat)
    requires |info| == 32
    ensures Build(size, listing).Abort? ==> stop == Some(Build(size, listing).why)
    ensures Build(size, listing).Done? ==> stop == None && ImageMade(img, Build(size, listing).m)
    ensures searches == 0 && stop != Some(CacheMiss)
    ensures stop == None ==> multiset(log) == multiset(Range(0, Build(size, listing).m.next))
    ensures stop == None ==> ComesBack(img, Build(size, listing).m, listing) == true
  {
    img, log, searches := map[], [], 0;
    var sfs;
    stop, sfs := WalkHome(size, listing);
    NeverMissed(size, listing);
    if sfs != null { searches := sfs.searches; }
    if stop != None { return; }
    BuildPartitioned(size, listing);
    sfs.Settled();
    ghost var inodes, ix := sfs.inodes, sfs.Ix();
    sfs.CloseSfs(info);
    img, log, searches := sfs.img, sfs.log, sfs.searches;
    ClosedBuild(size, listing, img, inodes, ix, info);
  }

  /** No lookup of an index block fails. */
  lemma NeverMissed(size: nat, listing: Listing)
    ensures Build(size, listing) != Abort(CacheMiss)
  {
    if Create(size).Done? { CreateSound(size); }
  }

  /** A reader with fuel enough finds the home directory if and only if the numbers agree, and then files are told
      apart. In any case it finds what is expected, no way through the image meets a dotfile, and the names in every
      directory are those kept of its listing. */
  ghost predicate ComesBack(img: Image, m: Model, listing: Listing) {
    && ReadsAsExpected(img, listing) && DirsInImage(img, m, listing)
    && NoDotfiles(img) && NamesInImage(img, m, listing)
    && forall fuel {:trigger ReadsHome(img, listing, fuel)} :: fuel >= HeightAll(listing) ==>
      && (ReadsHome(img, listing, fuel) <==> NumbersAgree(listing))
      && (NumbersAgree(listing) ==> ReadsHomeApart(img, listing, fuel))
  }

  lemma ClosedBuild(size: nat, listing: Listing, img: Image, inodes: map<nat, CInode>, ix: Index, info: Bytes)
    requires Build(size, listing).Done? && Coupled(inodes, ix, Build(size, listing).m.files) == true
    requires ClosedAs(img, Build(size, listing).m, inodes, ix.words, info) == true
    ensures ImageMade(img, Build(size, listing).m) && ComesBack(img, Build(size, listing).m, listing) == true
  {
    BuildSound(size, listing);
    BuildShows(size, listing);
    ClosedIsMade(img, Build(size, listing).m, inodes, ix.words, info);
    ClosedIsFinished(img, Build(size, listing).m, inodes, ix, info);
    FinishedIsReadable(img, Build(size, listing).m, inodes, ix);
    AllComesBack(img, Build(size, listing).m, listing);
  }

  lemma AllComesBack(img: Image, m: Model, listing: Listing)
    requires Readable(img, m) && ShowsHome(m, listing)
    ensures ComesBack(img, m, listing) == true
  {
    var inos := Labels(m);
    AllIsExpected(img, m, listing, inos);
    AllDirsInImage(img, m, listing);
    AllNamesInImage(img, m, listing);
    forall fuel | fuel >= HeightAll(listing)
      ensures ReadsHome(img, listing, fuel) <==> NumbersAgree(listing)
      ensures NumbersAgree(listing) ==> ReadsHomeApart(img, listing, fuel)
    {
      RootReads(m, listing, img, inos, fuel);
    }
  }
}
