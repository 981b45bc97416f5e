/** When a run of the image builder comes to its end, and how many blocks it takes. */
module SfsFit {
  import opened Octets
  import opened SfsLayout
  import opened SfsModel
  import opened SfsRun
  import opened SfsAccounting
  import opened SfsNumbers

  function DataBlocks(len: nat): nat {
    (len + BLKSIZE - 1) / BLKSIZE
  }

  /** Blocks for the n-th entry of a directory. */
  function EntryCost(n: nat): nat {
    1 + IndexNeeded(n)
  }

  /** Host numbers that a search finds after this node. */
  function SeenNode(seen: set<nat>, name: Bytes, node: Host): set<nat>
    decreases node
  {
    if Hidden(name) then seen
    else
      match node
      case File(hino, _) => seen + {hino}
      case Link(hino, _) => seen + {hino}
      case Dir(hino, listing) => SeenAll(seen + {hino}, listing)
      case Socket => seen
      case Special => seen
  }

  function SeenAll(seen: set<nat>, listing: Listing): set<nat>
    decreases listing
  {
    match listing
    case End => seen
    case Item(name, node, rest) => SeenAll(SeenNode(seen, name, node), rest)
  }

  /** Blocks that a node takes, besides its entry. A file met again takes none. */
  function NodeCost(seen: set<nat>, node: Host): nat
    decreases node
  {
    match node
    case File(hino, data) =>
      if hino in seen then 0 else 1 + DataBlocks(|data|) + IndexCount(DataBlocks(|data|))
    case Link(_, _) => 2
    case Dir(hino, listing) => 1 + OpenCost(seen + {hino}, listing)
    case Socket => 0
    case Special => 0
  }

  /** Blocks for the entries "." and ".." of a directory, and for the rest. */
  function OpenCost(seen: set<nat>, listing: Listing): nat
    decreases listing, 1
  {
    EntryCost(0) + EntryCost(1) + WalkCost(seen, 2, listing)
  }

  /** Blocks that the rest of a directory with n entries takes. */
  function WalkCost(seen: set<nat>, n: nat, listing: Listing): nat
    decreases listing, 0
  {
    match listing
    case End => 0
    case Item(name, node, rest) =>
      if Dropped(name, node) then WalkCost(seen, n, rest)
      else NodeCost(seen, node) + EntryCost(n) + WalkCost(SeenNode(seen, name, node), n + 1, rest)
  }

  /** The limits on one node: file and link size, no directory met twice, and no socket. */
  ghost predicate NodeAllowed(seen: set<nat>, node: Host)
    decreases node
  {
    match node
    case File(hino, data) => hino in seen || DataBlocks(|data|) <= LN_NBLKS
    case Link(_, target) => |target| < BLKSIZE
    case Dir(hino, listing) => hino !in seen && AllAllowed(seen + {hino}, 2, listing)
    case Socket => false
    case Special => true
  }

  /** The limits on the rest of a directory with n entries: names, and their number. */
  ghost predicate AllAllowed(seen: set<nat>, n: nat, listing: Listing)
    decreases listing
  {
    match listing
    case End => true
    case Item(name, node, rest) =>
      && (!Hidden(name) ==> |name| <= MAX_FNAME_LEN)
      && (!Dropped(name, node) ==> NodeAllowed(seen, node) && n < LN_NBLKS)
      && AllAllowed(SeenNode(seen, name, node), if Dropped(name, node) then n else n + 1, rest)
  }

  // ---------- one block ----------

  lemma TakeIndexFits(m: Model, count: nat)
    requires m.next <= m.ninos
    ensures TakeIndex(m, count).Done? <==> m.next + count <= m.ninos
    decreases count
  {
    if 0 < count && m.next < m.ninos {
      TakeIndexFits(m.(next := m.next + 1, index := m.index + {m.next}), count - 1);
    }
  }

  ghost predicate Fits(m: Model, cost: nat) {
    m.next + cost <= m.ninos
  }

  /** Entries of a directory that has n, after the walk of the rest of it. */
  function Entries(n: nat, listing: Listing): nat
    decreases listing
  {
    match listing
    case End => n
    case Item(name, node, rest) => Entries(if Dropped(name, node) then n else n + 1, rest)
  }

  /** An operation on file f takes that many blocks, leaves f with n blocks and other files as long as they were. */
  ghost predicate Spent(m: Model, r: Model, cost: nat, f: nat, n: nat) {
    && r.ninos == m.ninos && r.next == m.next + cost && f in r.files && |r.files[f].blks| == n
    && forall g {:trigger r.files[g]} {:trigger g in r.files} :: g in m.files && g != f ==>
        g in r.files && |r.files[g].blks| == |m.files[g].blks|
  }

  /** It comes to its end exactly if the blocks suffice and it is allowed; then searches find the numbers seen.
      (The comparison with true keeps the verifier from taking the predicate apart at every use.) */
  ghost predicate Takes(m: Model, r: Outcome, cost: nat, allowed: bool, f: nat, n: nat, seen: set<nat>) {
    ((r.Done? <==> Fits(m, cost) && allowed) && (r.Done? ==>
        Spent(m, r.m, cost, f, n) && r.m.byHost.Keys == seen)) == true
  }

  /** One operation after another. */
  lemma TakesBoth(m: Model, r1: Outcome, c1: nat, ok1: bool, f1: nat, n1: nat, seen1: set<nat>,
                  r: Outcome, c2: nat, ok2: bool, f2: nat, n2: nat, seen2: set<nat>)
    requires Takes(m, r1, c1, ok1, f1, n1, seen1) && (f1 == f2 || f1 !in m.files)
    requires if r1.Done? then Takes(r1.m, r, c2, ok2, f2, n2, seen2) else r.Abort?
    ensures Takes(m, r, c1 + c2, ok1 && ok2, f2, n2, seen2)
  {
    if r1.Done? {
      assert Spent(m, r1.m, c1, f1, n1) && Fits(m, c1) && ok1;
      assert r.Done? <==> Fits(m, c1 + c2) && ok1 && ok2;
      if r.Done? {
        assert Spent(r1.m, r.m, c2, f2, n2);
        assert Spent(m, r.m, c1 + c2, f2, n2);
      }
    } else {
      assert !(Fits(m, c1) && ok1);
    }
  }

  lemma PutFits(m: Model, f: nat, data: Bytes)
    requires f in m.files && |data| <= BLKSIZE && m.next <= m.ninos
    ensures var n := |m.files[f].blks|;
      Takes(m, PutBlock(m, f, data), EntryCost(n), n < LN_NBLKS, f, n + 1, m.byHost.Keys)
  {
    if m.next < m.ninos {
      TakeIndexFits(Write(Alloc(m).m, m.next, data), IndexNeeded(|m.files[f].blks|));
    }
    if PutBlock(m, f, data).Done? { PutBlockIs(m, f, data); }
  }

  lemma EntryIsPut(m: Model, d: nat, f: nat, name: Bytes)
    requires d in m.files && f in m.files && |name| <= MAX_FNAME_LEN && |m.nameBuf| == 256
    ensures var m0 := Named(m, f, name);
      var r := PutBlock(m0, d, EntryBytes(f, m0.nameBuf));
      AddEntry(m, d, f, name) == if r.Done? then Done(LinkTo(r.m, f)) else r
  {
  }

  lemma LinkTakes(m: Model, m0: Model, r: Outcome, cost: nat, ok: bool, d: nat, n: nat, seen: set<nat>, f: nat)
    requires m0.files == m.files && m0.next == m.next && m0.ninos == m.ninos && f in m.files
    requires Takes(m0, r, cost, ok, d, n, seen) && (r.Done? ==> f in r.m.files)
    ensures Takes(m, if r.Done? then Done(LinkTo(r.m, f)) else r, cost, ok, d, n, seen)
  {
  }

  lemma EntryFits(m: Model, d: nat, f: nat, name: Bytes)
    requires d in m.files && f in m.files && |name| <= MAX_FNAME_LEN && |m.nameBuf| == 256 && m.next <= m.ninos
    ensures var n := |m.files[d].blks|;
      Takes(m, AddEntry(m, d, f, name), EntryCost(n), n < LN_NBLKS, d, n + 1, m.byHost.Keys)
  {
    var m0, n := Named(m, f, name), |m.files[d].blks|;
    var data := EntryBytes(f, m0.nameBuf);
    PutFits(m0, d, data);
    EntryIsPut(m, d, f, name);
    LinkTakes(m, m0, PutBlock(m0, d, data), EntryCost(n), n < LN_NBLKS, d, n + 1, m.byHost.Keys, f);
  }

  /** Blocks for k more blocks of a file that has n. */
  function DataCost(n: nat, k: nat): nat
    decreases k
  {
    if k == 0 then 0 else EntryCost(n) + DataCost(n + 1, k - 1)
  }

  lemma {:induction false} DataCostIs(n: nat, k: nat)
    ensures DataCost(n, k) == k + IndexCount(n + k) - IndexCount(n)
    decreases k
  {
    if k > 0 {
      DataCostIs(n + 1, k - 1);
      IndexGrows(n);
    }
  }

  lemma ChunkBlocks(data: Bytes)
    requires data != []
    ensures DataBlocks(|data|) == 1 + DataBlocks(|data[Chunk(data)..]|)
  {
  }

  ghost predicate Splits(data: Bytes, rest: Bytes) {
    (|rest| < |data| && DataBlocks(|data|) == 1 + DataBlocks(|rest|)) == true
  }

  /** The turn of the read loop for the first block of the data. */
  lemma ChunkFits(m: Model, f: nat, data: Bytes) returns (r1: Outcome, rest: Bytes)
    requires f in m.files && m.next <= m.ninos && data != []
    ensures Splits(data, rest)
    ensures Takes(m, r1, EntryCost(|m.files[f].blks|), |m.files[f].blks| < LN_NBLKS, f, |m.files[f].blks| + 1,
        m.byHost.Keys)
    ensures r1.Done? ==> f in r1.m.files
    ensures if r1.Done? then AppendData(m, f, data) == AppendData(r1.m, f, rest) else AppendData(m, f, data).Abort?
  {
    var n := Chunk(data);
    r1, rest := PutBlock(m, f, data[..n]), data[n..];
    PutFits(m, f, data[..n]);
    DataStep(m, f, data);
    ChunkBlocks(data);
  }

  lemma {:induction false} BlocksFit(m: Model, f: nat, data: Bytes, n: nat, k: nat)
    requires f in m.files && m.next <= m.ninos && n == |m.files[f].blks| && k == DataBlocks(|data|)
    ensures Takes(m, AppendData(m, f, data), DataCost(n, k), k > 0 ==> n + k <= LN_NBLKS, f, n + k, m.byHost.Keys)
    decreases |data|
  {
    if data != [] {
      var r1, rest := ChunkFits(m, f, data);
      if r1.Done? { BlocksFit(r1.m, f, rest, n + 1, k - 1); }
      OneBlockMore(m, r1, AppendData(m, f, data), f, n, k - 1, m.byHost.Keys);
    }
  }

  lemma DataFits(m: Model, f: nat, data: Bytes)
    requires f in m.files && m.next <= m.ninos
    ensures var n, k := |m.files[f].blks|, DataBlocks(|data|);
      Takes(m, AppendData(m, f, data), DataCost(n, k), k > 0 ==> n + k <= LN_NBLKS, f, n + k, m.byHost.Keys)
  {
    BlocksFit(m, f, data, |m.files[f].blks|, DataBlocks(|data|));
  }

  lemma OneBlockMore(m: Model, r1: Outcome, r: Outcome, f: nat, n: nat, k: nat, seen: set<nat>)
    requires f in m.files && Takes(m, r1, EntryCost(n), n < LN_NBLKS, f, n + 1, seen)
    requires if r1.Done? then Takes(r1.m, r, DataCost(n + 1, k), k > 0 ==> n + 1 + k <= LN_NBLKS, f, n + 1 + k, seen)
             else r.Abort?
    ensures Takes(m, r, DataCost(n, k + 1), n + 1 + k <= LN_NBLKS, f, n + 1 + k, seen)
  {
    TakesBoth(m, r1, EntryCost(n), n < LN_NBLKS, f, n + 1, seen, r,
              DataCost(n + 1, k), k > 0 ==> n + 1 + k <= LN_NBLKS, f, n + 1 + k, seen);
  }

  // ---------- nodes ----------

  lemma NewNodeFits(m: Model, hino: nat, kind: Kind)
    requires Closed(m) && m.next <= m.ninos
    ensures Takes(m, NewInode(m, hino, kind), 1, true, m.next, 0, m.byHost.Keys + {hino})
  {
  }

  lemma MakeFileFits(m: Model, hino: nat, data: Bytes)
    requires Closed(m) && m.next <= m.ninos
    ensures var k := DataBlocks(|data|);
      Takes(m, MakeFile(m, hino, data), 1 + k + IndexCount(k), k <= LN_NBLKS, m.next, k, m.byHost.Keys + {hino})
  {
    var k, seen := DataBlocks(|data|), m.byHost.Keys + {hino};
    var r1 := NewInode(m, hino, FileKind);
    NewNodeFits(m, hino, FileKind);
    DataCostIs(0, k);
    if r1.Done? { DataFits(r1.m, m.next, data); }
    TakesBoth(m, r1, 1, true, m.next, 0, seen, MakeFile(m, hino, data), k + IndexCount(k), k > 0 ==>
        k <= LN_NBLKS, m.next, k, seen);
  }

  lemma MakeLinkFits(m: Model, hino: nat, target: Bytes)
    requires Closed(m) && m.next <= m.ninos
    ensures Takes(m, MakeLink(m, hino, target), NodeCost(m.byHost.Keys, Link(hino, target)),
        NodeAllowed(m.byHost.Keys, Link(hino, target)), m.next, 1, m.byHost.Keys + {hino})
  {
    NewNodeFits(m, hino, LinkKind);
    if m.next < m.ninos && |target| < BLKSIZE {
      PutFits(NewInode(m, hino, LinkKind).m, m.next, target);
    }
  }

  /** An entry of that name may be tried. (The comparisons with true are as above.) */
  ghost predicate Room(m: Model, d: nat, name: Bytes) {
    (Ready(m, d) && |name| <= MAX_FNAME_LEN && m.next <= m.ninos) == true
  }

  /** After r1 an entry for its inode, or r1 was the end. */
  ghost predicate Enters(m: Model, r1: Outcome, d: nat, name: Bytes, r: Outcome)
    requires |name| <= MAX_FNAME_LEN
  {
    (if r1.Done? then |r1.m.nameBuf| == 256 && d in r1.m.files && m.next in r1.m.files
        && r == AddEntry(r1.m, d, m.next, name)
     else r.Abort?) == true
  }

  /** An operation takes cost blocks and those for an entry of directory d. */
  ghost predicate TakesEntry(m: Model, r: Outcome, cost: nat, ok: bool, d: nat, seen: set<nat>)
    requires d in m.files
  {
    var n := |m.files[d].blks|;
    Takes(m, r, cost + EntryCost(n), ok && n < LN_NBLKS, d, n + 1, seen)
  }

  /** A new inode that takes cost blocks, and its entry. */
  lemma EntryTakes(m: Model, r1: Outcome, cost: nat, ok: bool, k: nat, seen: set<nat>, d: nat, name: Bytes, r: Outcome)
    requires Room(m, d, name) && Takes(m, r1, cost, ok, m.next, k, seen) && Enters(m, r1, d, name, r)
    ensures TakesEntry(m, r, cost, ok, d, seen)
  {
    var n := |m.files[d].blks|;
    if r1.Done? { EntryFits(r1.m, d, m.next, name); }
    TakesBoth(m, r1, cost, ok, m.next, k, seen, r, EntryCost(n), n < LN_NBLKS, d, n + 1, seen);
  }

  lemma FileEnters(m: Model, d: nat, name: Bytes, hino: nat, data: Bytes)
    requires Room(m, d, name) && hino !in m.byHost
    ensures Enters(m, MakeFile(m, hino, data), d, name, AddFile(m, d, name, hino, data))
  {
  }

  lemma NewFileFits(m: Model, d: nat, name: Bytes, hino: nat, data: Bytes)
    requires Room(m, d, name) && hino !in m.byHost
    ensures var k := DataBlocks(|data|);
      TakesEntry(m, AddFile(m, d, name, hino, data), 1 + k + IndexCount(k), k <= LN_NBLKS, d, m.byHost.Keys + {hino})
  {
    var k := DataBlocks(|data|);
    MakeFileFits(m, hino, data);
    FileEnters(m, d, name, hino, data);
    EntryTakes(m, MakeFile(m, hino, data), 1 + k + IndexCount(k), k <= LN_NBLKS, k, m.byHost.Keys + {hino},
               d, name, AddFile(m, d, name, hino, data));
  }

  lemma FileFits(m: Model, d: nat, name: Bytes, hino: nat, data: Bytes)
    requires Room(m, d, name)
    ensures TakesEntry(m, AddFile(m, d, name, hino, data), NodeCost(m.byHost.Keys, File(hino, data)),
        NodeAllowed(m.byHost.Keys, File(hino, data)), d, m.byHost.Keys + {hino})
  {
    if hino in m.byHost {
      EntryFits(m, d, m.byHost[hino], name);
      assert m.byHost.Keys + {hino} == m.byHost.Keys;
    } else {
      NewFileFits(m, d, name, hino, data);
    }
  }

  lemma LinkEnters(m: Model, d: nat, name: Bytes, hino: nat, target: Bytes)
    requires Room(m, d, name)
    ensures Enters(m, MakeLink(m, hino, target), d, name, AddLink(m, d, name, hino, target))
  {
  }

  lemma LinkFits(m: Model, d: nat, name: Bytes, hino: nat, target: Bytes)
    requires Room(m, d, name)
    ensures TakesEntry(m, AddLink(m, d, name, hino, target), NodeCost(m.byHost.Keys, Link(hino, target)),
        NodeAllowed(m.byHost.Keys, Link(hino, target)), d, m.byHost.Keys + {hino})
  {
    var node, seen := Link(hino, target), m.byHost.Keys;
    MakeLinkFits(m, hino, target);
    LinkEnters(m, d, name, hino, target);
    EntryTakes(m, MakeLink(m, hino, target), NodeCost(seen, node), NodeAllowed(seen, node), 1, seen + {hino}, d, name,
        AddLink(m, d, name, hino, target));
  }

  lemma DotsFit(m: Model, d: nat, parent: nat)
    requires Ready(m, d) && parent in m.files && m.files[d].blks == [] && m.next <= m.ninos
    ensures Takes(m, AddDots(m, d, parent), EntryCost(0) + EntryCost(1), true, d, 2, m.byHost.Keys)
  {
    var r1, seen := AddEntry(m, d, d, DOT), m.byHost.Keys;
    EntryFits(m, d, d, DOT);
    if r1.Done? { EntryFits(r1.m, d, parent, DOTDOT); }
    TakesBoth(m, r1, EntryCost(0), 0 < LN_NBLKS, d, 1, seen, AddDots(m, d, parent), EntryCost(1), 1 < LN_NBLKS, d, 2,
        seen);
  }

  lemma OpenDirFits(m: Model, d: nat, parent: nat, listing: Listing)
    requires Ready(m, d) && parent in m.files && m.files[d].blks == [] && m.next <= m.ninos
    ensures var seen := m.byHost.Keys;
      Takes(m, OpenDir(m, d, parent, listing), OpenCost(seen, listing),
            AllAllowed(seen, 2, listing), d, Entries(2, listing), SeenAll(seen, listing))
    decreases listing, 1
  {
    var r1, seen := AddDots(m, d, parent), m.byHost.Keys;
    DotsFit(m, d, parent);
    if r1.Done? { WalkFits(r1.m, d, listing); }
    TakesBoth(m, r1, EntryCost(0) + EntryCost(1), true, d, 2, seen, OpenDir(m, d, parent, listing),
              WalkCost(seen, 2, listing), AllAllowed(seen, 2, listing), d, Entries(2, listing), SeenAll(seen, listing));
  }

  lemma NewDirFits(m: Model, parent: nat, hino: nat, listing: Listing)
    requires Ready(m, parent) && m.next <= m.ninos && hino !in m.byHost
    ensures var seen := m.byHost.Keys + {hino};
      Takes(m, MakeDir(m, parent, hino, listing), 1 + OpenCost(seen, listing),
            true && AllAllowed(seen, 2, listing), m.next, Entries(2, listing), SeenAll(seen, listing))
    decreases listing, 2
  {
    var r1, seen := NewInode(m, hino, DirKind), m.byHost.Keys + {hino};
    NewNodeFits(m, hino, DirKind);
    if r1.Done? { OpenDirFits(r1.m, m.next, parent, listing); }
    TakesBoth(m, r1, 1, true, m.next, 0, seen, MakeDir(m, parent, hino, listing),
              OpenCost(seen, listing), AllAllowed(seen, 2, listing),
              m.next, Entries(2, listing), SeenAll(seen, listing));
  }

  lemma MakeDirFits(m: Model, parent: nat, hino: nat, listing: Listing)
    requires Ready(m, parent) && m.next <= m.ninos
    ensures var seen := m.byHost.Keys;
      Takes(m, MakeDir(m, parent, hino, listing), NodeCost(seen, Dir(hino, listing)),
            NodeAllowed(seen, Dir(hino, listing)), m.next, Entries(2, listing), SeenAll(seen + {hino}, listing))
    decreases listing, 3
  {
    if hino !in m.byHost {
      NewDirFits(m, parent, hino, listing);
    }
  }

  lemma DirEnters(m: Model, d: nat, name: Bytes, hino: nat, listing: Listing)
    requires Room(m, d, name)
    ensures Enters(m, MakeDir(m, d, hino, listing), d, name, AddDir(m, d, name, hino, listing))
  {
  }

  lemma DirFits(m: Model, d: nat, name: Bytes, hino: nat, listing: Listing)
    requires Room(m, d, name)
    ensures TakesEntry(m, AddDir(m, d, name, hino, listing), NodeCost(m.byHost.Keys, Dir(hino, listing)),
        NodeAllowed(m.byHost.Keys, Dir(hino, listing)), d, SeenAll(m.byHost.Keys + {hino}, listing))
    decreases listing, 4
  {
    MakeDirFits(m, d, hino, listing);
    DirEnters(m, d, name, hino, listing);
    EntryTakes(m, MakeDir(m, d, hino, listing), NodeCost(m.byHost.Keys, Dir(hino, listing)),
        NodeAllowed(m.byHost.Keys, Dir(hino, listing)), Entries(2, listing),
        SeenAll(m.byHost.Keys + {hino}, listing), d, name, AddDir(m, d, name, hino, listing));
  }

  /** A dropped node takes nothing; only its name may still be too long. */
  ghost predicate NodeTakes(m: Model, r: Outcome, d: nat, name: Bytes, node: Host)
    requires d in m.files
  {
    if Dropped(name, node) then r == if Hidden(name) || |name| <= MAX_FNAME_LEN then Done(m) else Abort(NameTooLong)
    else TakesEntry(m, r, NodeCost(m.byHost.Keys, node), |name| <= MAX_FNAME_LEN && NodeAllowed(m.byHost.Keys, node),
                    d, SeenNode(m.byHost.Keys, name, node))
  }

  lemma NodeFits(m: Model, d: nat, name: Bytes, node: Host)
    requires Ready(m, d) && m.next <= m.ninos
    ensures NodeTakes(m, AddNode(m, d, name, node), d, name, node)
    decreases node, 4
  {
    if !Hidden(name) && |name| <= MAX_FNAME_LEN {
      match node
      case File(hino, data) => FileFits(m, d, name, hino, data);
      case Link(hino, target) => LinkFits(m, d, name, hino, target);
      case Dir(hino, listing) => DirFits(m, d, name, hino, listing);
      case Socket =>
      case Special =>
    }
  }

  /** The walk of a directory comes to its end exactly if the limits are kept and the blocks suffice. */
  lemma WalkFits(m: Model, d: nat, listing: Listing)
    requires Ready(m, d) && m.next <= m.ninos
    ensures var n, seen := |m.files[d].blks|, m.byHost.Keys;
      Takes(m, Walk(m, d, listing), WalkCost(seen, n, listing), AllAllowed(seen, n, listing), d, Entries(n, listing),
          SeenAll(seen, listing))
    decreases listing, 0
  {
    match listing
    case End =>
    case Item(name, node, rest) =>
      NodeFits(m, d, name, node);
      if AddNode(m, d, name, node).Done? {
        WalkFits(AddNode(m, d, name, node).m, d, rest);
      }
  }

  // ---------- only the first file of a number is read ----------

  /** Both are the same but for the bytes of visible regular files whose number was met before. */
  predicate SameNode(seen: set<nat>, name: Bytes, x: Host, y: Host)
    decreases x
  {
    if Hidden(name) then x == y
    else
      match x
      case File(hino, data) => y.File? && y.hino == hino && (hino in seen || y.data == data)
      case Dir(hino, listing) => y.Dir? && y.hino == hino && SameFirst(seen + {hino}, listing, y.listing)
      case _ => x == y
  }

  predicate SameFirst(seen: set<nat>, a: Listing, b: Listing)
    decreases a
  {
    if a.End? || b.End? then a == b
    else
      a.name == b.name && SameNode(seen, a.name, a.node, b.node)
      && SameFirst(SeenNode(seen, a.name, a.node), a.rest, b.rest)
  }

  lemma {:induction false} WalksSame(m: Model, d: nat, a: Listing, b: Listing)
    requires Ready(m, d) && m.next <= m.ninos && SameFirst(m.byHost.Keys, a, b)
    ensures Walk(m, d, a) == Walk(m, d, b)
    decreases a, 0
  {
    if a.Item? {
      NodesSame(m, d, a.name, a.node, b.node);
      NodeFits(m, d, a.name, a.node);
      if AddNode(m, d, a.name, a.node).Done? {
        WalksSame(AddNode(m, d, a.name, a.node).m, d, a.rest, b.rest);
      }
    }
  }

  lemma {:induction false} NodesSame(m: Model, d: nat, name: Name, x: Host, y: Host)
    requires Ready(m, d) && m.next <= m.ninos && SameNode(m.byHost.Keys, name, x, y)
    ensures AddNode(m, d, name, x) == AddNode(m, d, name, y)
    decreases x, 4
  {
    if !Hidden(name) && |name| <= MAX_FNAME_LEN && x.Dir? {
      SubdirsSame(m, d, x.hino, x.listing, y.listing);
    }
  }

  lemma {:induction false} SubdirsSame(m: Model, parent: nat, hino: nat, a: Listing, b: Listing)
    requires Ready(m, parent) && m.next <= m.ninos && SameFirst(m.byHost.Keys + {hino}, a, b)
    ensures MakeDir(m, parent, hino, a) == MakeDir(m, parent, hino, b)
    decreases a, 2
  {
    if hino !in m.byHost && NewInode(m, hino, DirKind).Done? {
      var m1 := NewInode(m, hino, DirKind).m;
      assert m1.byHost.Keys == m.byHost.Keys + {hino};
      OpensSame(m1, m.next, parent, a, b);
    }
  }

  lemma {:induction false} OpensSame(m: Model, d: nat, parent: nat, a: Listing, b: Listing)
    requires Ready(m, d) && parent in m.files && m.files[d].blks == [] && m.next <= m.ninos
    requires SameFirst(m.byHost.Keys, a, b)
    ensures OpenDir(m, d, parent, a) == OpenDir(m, d, parent, b)
    decreases a, 1
  {
    DotsFit(m, d, parent);
    if AddDots(m, d, parent).Done? {
      WalksSame(AddDots(m, d, parent).m, d, a, b);
    }
  }

  /** The numbers seen are those that what they were given to is known of. */
  lemma {:induction false} SeenKeys(seen: Seen, listing: Listing)
    ensures SeenAfterAll(seen, listing).Keys == SeenAll(seen.Keys, listing)
    decreases listing
  {
    match listing
    case End =>
    case Item(name, node, rest) =>
      NodeSeenKeys(seen, name, node);
      SeenKeys(SeenAfter(seen, name, node), rest);
  }

  lemma {:induction false} NodeSeenKeys(seen: Seen, name: Bytes, node: Host)
    ensures SeenAfter(seen, name, node).Keys == SeenNode(seen.Keys, name, node)
    decreases node
  {
    if !Hidden(name) && node.Dir? {
      assert seen[node.hino := GaveDir].Keys == seen.Keys + {node.hino};
      SeenKeys(seen[node.hino := GaveDir], node.listing);
    }
  }

  /** Of listings that are taken for the same, the numbers agree in one at most. */
  lemma {:induction false} AgreeingAreSame(seen: Seen, a: Listing, b: Listing)
    requires SameFirst(seen.Keys, a, b) && AllAgree(seen, a) && AllAgree(seen, b)
    ensures a == b
    decreases a
  {
    if a.Item? {
      var name, node, seen1 := a.name, a.node, SeenAfter(seen, a.name, a.node);
      NodeSeenKeys(seen, name, node);
      if !Hidden(name) && node.Dir? {
        assert seen[node.hino := GaveDir].Keys == seen.Keys + {node.hino};
        AgreeingAreSame(seen[node.hino := GaveDir], node.listing, b.node.listing);
      }
      assert a == Item(name, node, a.rest) && b == Item(name, node, b.rest);
      assert AllAgree(seen1, a.rest) && AllAgree(seen1, b.rest);
      AgreeingAreSame(seen1, a.rest, b.rest);
    }
  }
}
