/** What holds in every state of every run of the image builder: each block has
    one owner, the blocks in use add up, and link counts count names.
 */
module SfsAccounting {
  import opened Octets
  import opened SfsLayout
  import opened SfsModel
  import opened SfsImage
  import opened SfsRun

  // ---------- what one step changes ----------

  /** The state after a block was appended to f: it takes number next, and the index blocks it needs come after. */
  ghost function Appended(m: Model, f: nat, data: Bytes): Model
    requires f in m.files && |data| <= BLKSIZE
  {
    var next' := m.next + 1 + IndexNeeded(|m.files[f].blks|);
    m.(next := next', blocks := m.blocks[m.next := Pad(data)], index := m.index + Range(m.next + 1, next'),
       files := m.files[f := Longer(m.files[f], |data|, m.next)])
  }

  lemma PutBlockIs(m: Model, f: nat, data: Bytes)
    requires f in m.files && |data| <= BLKSIZE && PutBlock(m, f, data).Done?
    ensures PutBlock(m, f, data).m == Appended(m, f, data) && Appended(m, f, data).next <= m.ninos
    ensures |m.files[f].blks| < LN_NBLKS
  {
    var m1 := Write(Alloc(m).m, m.next, data);
    TakeIndexIs(m1, IndexNeeded(|m.files[f].blks|));
  }

  ghost function Named(m: Model, f: nat, name: Bytes): Model
    requires |name| <= MAX_FNAME_LEN && |m.nameBuf| == 256
  {
    m.(nameBuf := Strcpy(m.nameBuf, name), named := m.named[m.next := f])
  }

  lemma AddEntryIs(m: Model, d: nat, f: nat, name: Bytes)
    requires d in m.files && f in m.files && |name| <= MAX_FNAME_LEN && |m.nameBuf| == 256
        && AddEntry(m, d, f, name).Done?
    ensures var m0 := Named(m, f, name);
      && AddEntry(m, d, f, name).m == LinkTo(Appended(m0, d, EntryBytes(f, m0.nameBuf)), f)
      && Appended(m0, d, EntryBytes(f, m0.nameBuf)).next <= m.ninos
    ensures |m.files[d].blks| < LN_NBLKS
  {
    var m0 := Named(m, f, name);
    PutBlockIs(m0, d, EntryBytes(f, m0.nameBuf));
  }

  // ---------- one owner for every block ----------

  lemma AppendedPartitions(m: Model, f: nat, data: Bytes)
    requires Partitioned(m) && f in m.files && |data| <= BLKSIZE
    ensures Partitioned(Appended(m, f, data))
  {
    var m' := Appended(m, f, data);
    RangeSplit(FirstFree(m.ninos), m.next, m'.next);
    RangeFirst(m.next, m'.next);
    assert forall b :: b in Allocated(m) ==> b < m.next;
    assert m'.files.Keys == m.files.Keys && m'.blocks.Keys == m.blocks.Keys + {m.next};
    assert Allocated(m') == Allocated(m) + Range(m.next, m'.next);
  }

  lemma NewInodePartitions(m: Model, hino: nat, kind: Kind)
    requires Partitioned(m) && NewInode(m, hino, kind).Done?
    ensures Partitioned(NewInode(m, hino, kind).m)
  {
    var m' := NewInode(m, hino, kind).m;
    RangeSplit(FirstFree(m.ninos), m.next, m'.next);
    RangeFirst(m.next, m'.next);
    assert Range(m'.next, m'.next) == {};
    assert forall b :: b in Allocated(m) ==> b < m.next;
    assert m'.files.Keys == m.files.Keys + {m.next};
    assert Allocated(m') == Allocated(m) + {m.next};
  }

  predicate Owns(files: map<nat, AFile>, f: nat, k: nat, b: nat) {
    f in files && k < |files[f].blks| && files[f].blks[k] == b
  }

  /** Every data or entry block is one block of one file; entries are the blocks of directories. */
  ghost predicate Owned(m: Model) {
    && (forall f, k, b :: Owns(m.files, f, k, b) ==> b in m.blocks && (b in m.named <==> m.files[f].kind == DirKind))
    && (forall b :: b in m.blocks ==> exists f, k :: Owns(m.files, f, k, b))
    && (forall f, k, g, l, b :: Owns(m.files, f, k, b) && Owns(m.files, g, l, b) ==> f == g && k == l)
  }

  lemma AppendedOwned(m: Model, m0: Model, f: nat, data: Bytes)
    requires Partitioned(m) && Owned(m) && f in m.files && |data| <= BLKSIZE
    requires m0.files == m.files && m0.blocks == m.blocks && m0.next == m.next
    requires m0.named.Keys == if m.files[f].kind == DirKind then m.named.Keys + {m.next} else m.named.Keys
    requires m.named.Keys <= m.blocks.Keys
    ensures Owned(Appended(m0, f, data))
  {
    var m' := Appended(m0, f, data);
    var n := |m.files[f].blks|;
    assert m.next !in m.blocks by { assert forall b :: b in Allocated(m) ==> b < m.next; }
    forall g, k, b | Owns(m'.files, g, k, b) ensures Owns(m.files, g, k, b) || (g == f && k == n && b == m.next) {
    }
    forall g, k, b | Owns(m.files, g, k, b) ensures Owns(m'.files, g, k, b) {
    }
    assert Owns(m'.files, f, n, m.next);
  }

  // ---------- block accounting ----------

  /** Index blocks of a file of n blocks. */
  function IndexCount(n: nat): nat {
    if n <= NDIRECT then 0
    else if n <= L1_NBLKS then 1
    else 2 + (n - L1_NBLKS + NENTRY - 1) / NENTRY
  }

  lemma IndexGrows(n: nat)
    ensures IndexCount(n + 1) == IndexCount(n) + IndexNeeded(n)
  {
  }

  /** Blocks a file takes; the root inode has a place of its own. */
  function Weight(f: nat, a: AFile): nat {
    (if f == BLKN_ROOT then 0 else 1) + |a.blks| + IndexCount(|a.blks|)
  }

  /** Blocks the files below hi take. */
  function Used(files: map<nat, AFile>, hi: nat): nat {
    if hi == 0 then 0
    else Used(files, hi - 1) + if hi - 1 in files then Weight(hi - 1, files[hi - 1]) else 0
  }

  lemma {:induction false} UsedPut(files: map<nat, AFile>, f: nat, a: AFile, hi: nat)
    ensures Used(files[f := a], hi) + (if f < hi && f in files then Weight(f, files[f]) else 0) ==
            Used(files, hi) + if f < hi then Weight(f, a) else 0
  {
    if hi > 0 {
      UsedPut(files, f, a, hi - 1);
    }
  }

  lemma {:induction false} UsedAbove(files: map<nat, AFile>, lo: nat, hi: nat)
    requires lo <= hi && forall f :: f in files ==> f < lo
    ensures Used(files, hi) == Used(files, lo)
  {
    if lo < hi {
      UsedAbove(files, lo, hi - 1);
    }
  }

  ghost predicate Accounted(m: Model) {
    m.next == FirstFree(m.ninos) + Used(m.files, m.next)
  }

  lemma AppendedAccounted(m: Model, f: nat, data: Bytes)
    requires Accounted(m) && Closed(m) && f in m.files && |data| <= BLKSIZE
    ensures Accounted(Appended(m, f, data))
  {
    var m' := Appended(m, f, data);
    IndexGrows(|m.files[f].blks|);
    UsedPut(m.files, f, m'.files[f], m'.next);
    UsedAbove(m.files, m.next, m'.next);
  }

  lemma NewInodeAccounted(m: Model, hino: nat, kind: Kind)
    requires Accounted(m) && Closed(m) && NewInode(m, hino, kind).Done? && m.next != BLKN_ROOT
    ensures Accounted(NewInode(m, hino, kind).m)
  {
    var m' := NewInode(m, hino, kind).m;
    UsedPut(m.files, m.next, m'.files[m.next], m'.next);
  }

  lemma LinkToAccounted(m: Model, f: nat)
    requires Accounted(m) && f in m.files
    ensures Accounted(LinkTo(m, f))
  {
    UsedPut(m.files, f, LinkTo(m, f).files[f], m.next);
  }

  // ---------- link counts ----------

  /** How many of the entry blocks below hi name inode f. */
  function Names(named: map<nat, nat>, f: nat, hi: nat): nat {
    if hi == 0 then 0
    else Names(named, f, hi - 1) + if hi - 1 in named && named[hi - 1] == f then 1 else 0
  }

  lemma {:induction false} NamesPut(named: map<nat, nat>, b: nat, g: nat, f: nat, hi: nat)
    requires b !in named
    ensures Names(named[b := g], f, hi) == Names(named, f, hi) + if b < hi && g == f then 1 else 0
  {
    if hi > 0 {
      NamesPut(named, b, g, f, hi - 1);
    }
  }

  lemma {:induction false} NamesAbove(named: map<nat, nat>, f: nat, lo: nat, hi: nat)
    requires lo <= hi && forall b :: b in named ==> b < lo
    ensures Names(named, f, hi) == Names(named, f, lo)
  {
    if lo < hi {
      NamesAbove(named, f, lo, hi - 1);
    }
  }

  /** How many entry blocks name inode f. */
  function Links(m: Model, f: nat): nat {
    Names(m.named, f, m.next)
  }

  ghost predicate NamesFiles(m: Model) {
    && m.named.Keys <= m.blocks.Keys
    && forall b :: b in m.named ==> m.named[b] in m.files
  }

  ghost predicate LinksCounted(m: Model) {
    forall f {:trigger m.files[f]} :: f in m.files ==> m.files[f].nlinks == Names(m.named, f, m.next) % U16
  }

  /** What each entry block names is what a reader of it finds. */
  ghost predicate EntriesTell(m: Model) {
    forall b {:trigger m.named[b]} :: b in m.named ==>
      b in m.blocks && |m.blocks[b]| == BLKSIZE && ReadEntryIno(m.blocks[b]) == m.named[b]
  }

  lemma AppendedLinks(m: Model, f: nat, data: Bytes)
    requires LinksCounted(m) && f in m.files && |data| <= BLKSIZE && forall b :: b in m.named ==> b < m.next
    ensures LinksCounted(Appended(m, f, data))
  {
    var m' := Appended(m, f, data);
    forall g | g in m'.files ensures m'.files[g].nlinks == Names(m'.named, g, m'.next) % U16 {
      NamesAbove(m.named, g, m.next, m'.next);
      assert m'.files[g].nlinks == m.files[g].nlinks;
    }
  }

  lemma NewInodeLinks(m: Model, hino: nat, kind: Kind)
    requires LinksCounted(m) && NewInode(m, hino, kind).Done?
    requires forall b :: b in m.named ==> b < m.next && m.named[b] < m.next
    ensures LinksCounted(NewInode(m, hino, kind).m)
  {
    var m' := NewInode(m, hino, kind).m;
    forall g | g in m'.files ensures m'.files[g].nlinks == Names(m'.named, g, m'.next) % U16 {
      NamesAbove(m.named, g, m.next, m'.next);
      if g == m.next { NoNames(m.named, g, m'.next); } else { assert m'.files[g] == m.files[g]; }
    }
  }

  lemma {:induction false} NoNames(named: map<nat, nat>, f: nat, hi: nat)
    requires forall b :: b in named ==> named[b] != f
    ensures Names(named, f, hi) == 0
  {
    if hi > 0 {
      NoNames(named, f, hi - 1);
    }
  }

  lemma EntryLinks(m: Model, d: nat, f: nat, name: Bytes)
    requires LinksCounted(m) && d in m.files && f in m.files && |name| <= MAX_FNAME_LEN && |m.nameBuf| == 256
    requires forall b :: b in m.named ==> b < m.next
    ensures var m0 := Named(m, f, name); LinksCounted(LinkTo(Appended(m0, d, EntryBytes(f, m0.nameBuf)), f))
  {
    var m0 := Named(m, f, name);
    var m1 := Appended(m0, d, EntryBytes(f, m0.nameBuf));
    var m' := LinkTo(m1, f);
    forall g | g in m'.files ensures m'.files[g].nlinks == Names(m'.named, g, m'.next) % U16 {
      NamesPut(m.named, m.next, f, g, m'.next);
      NamesAbove(m.named, g, m.next, m'.next);
      CountsOneMore(m.files[g].nlinks, Names(m.named, g, m.next));
      assert m'.files[g].nlinks == if g == f then (m.files[g].nlinks + 1) % U16 else m.files[g].nlinks;
    }
  }

  lemma CountsOneMore(nlinks: nat, names: nat)
    requires nlinks == names % U16
    ensures (nlinks + 1) % U16 == (names + 1) % U16
  {
  }

  // ---------- whole runs ----------

  /** A search by host number finds an inode with that host number. */
  ghost predicate HostNumbers(m: Model) {
    forall h :: h in m.byHost ==> m.byHost[h] in m.files && m.files[m.byHost[h]].hino == h
  }

  ghost predicate Sized(a: AFile) {
    |a.blks| <= LN_NBLKS && a.size <= BLKSIZE * |a.blks|
  }

  /** All of this. (The comparison with true keeps the verifier from taking the predicate apart at every use.) */
  ghost predicate Sound(m: Model) {
    (&& m.next <= m.ninos <= MAX_NBLKS && |m.nameBuf| == 256 && Closed(m) && HostNumbers(m)
     && (forall f {:trigger m.files[f]} :: f in m.files ==> Sized(m.files[f]))
     && Partitioned(m) && Owned(m)
     && Accounted(m)
     && NamesFiles(m) && LinksCounted(m) && EntriesTell(m)) == true
  }

  lemma BelowNext(m: Model)
    requires Sound(m)
    ensures forall b :: b in m.blocks || b in m.named || b in m.index || b in m.files ==> b < m.next && b != 0
  {
    assert forall b :: b in Allocated(m) ==> 0 < b < m.next;
  }

  lemma NewNodeKeeps(m: Model, hino: nat, kind: Kind)
    requires Sound(m) && NewInode(m, hino, kind).Done?
    ensures Sound(NewInode(m, hino, kind).m)
  {
    BelowNext(m);
    NewInodePartitions(m, hino, kind);
    NewInodeAccounted(m, hino, kind);
    NewInodeLinks(m, hino, kind);
    NewInodeOwned(m, hino, kind);
    NewInodeRest(m, hino, kind);
  }

  lemma NewInodeRest(m: Model, hino: nat, kind: Kind)
    requires Closed(m) && HostNumbers(m) && NamesFiles(m) && EntriesTell(m) && NewInode(m, hino, kind).Done?
    ensures var r := NewInode(m, hino, kind).m; Closed(r) && HostNumbers(r) && NamesFiles(r) && EntriesTell(r)
  {
  }

  lemma NewInodeOwned(m: Model, hino: nat, kind: Kind)
    requires Owned(m) && Closed(m) && NewInode(m, hino, kind).Done?
    ensures Owned(NewInode(m, hino, kind).m)
  {
    var m' := NewInode(m, hino, kind).m;
    assert forall f, k, b :: Owns(m'.files, f, k, b) <==> Owns(m.files, f, k, b);
  }

  lemma PutDataKeeps(m: Model, f: nat, data: Bytes)
    requires Sound(m) && Allowed(m, PutData(f, data)) && PutBlock(m, f, data).Done?
    ensures Sound(PutBlock(m, f, data).m)
  {
    BelowNext(m);
    PutBlockIs(m, f, data);
    AppendedPartitions(m, f, data);
    AppendedOwned(m, m, f, data);
    AppendedAccounted(m, f, data);
    AppendedLinks(m, f, data);
    AppendedRest(m, f, data);
  }

  lemma AppendedRest(m: Model, f: nat, data: Bytes)
    requires Closed(m) && HostNumbers(m) && NamesFiles(m) && EntriesTell(m) && m.next !in m.blocks
    requires f in m.files && |data| <= BLKSIZE
    ensures var r := Appended(m, f, data); Closed(r) && HostNumbers(r) && NamesFiles(r) && EntriesTell(r)
  {
  }

  lemma EntryTells(m: Model, f: nat, name: Bytes)
    requires Sound(m) && f in m.files && |name| <= MAX_FNAME_LEN
    ensures var buf := Named(m, f, name).nameBuf; ReadEntryIno(Pad(EntryBytes(f, buf))) == f
  {
    BelowNext(m);
    var b := Pad(EntryBytes(f, Strcpy(m.nameBuf, name)));
    assert b[0..4] == Word32(f);
    Word32RoundTrip(f, b, 0);
  }

  ghost function EntryAdded(m: Model, d: nat, f: nat, name: Bytes): Model
    requires d in m.files && f in m.files && |name| <= MAX_FNAME_LEN && |m.nameBuf| == 256
  {
    LinkTo(Appended(Named(m, f, name), d, EntryBytes(f, Named(m, f, name).nameBuf)), f)
  }

  lemma EntryOwned(m: Model, d: nat, f: nat, name: Bytes)
    requires Sound(m) && Allowed(m, PutEntry(d, f, name))
    ensures Partitioned(EntryAdded(m, d, f, name)) && Owned(EntryAdded(m, d, f, name))
        && Accounted(EntryAdded(m, d, f, name))
  {
    var m0 := Named(m, f, name);
    var data := EntryBytes(f, m0.nameBuf);
    var m1 := Appended(m0, d, data);
    AppendedPartitions(m0, d, data);
    AppendedAccounted(m0, d, data);
    AppendedOwned(m, m0, d, data);
    LinkToAccounted(m1, f);
    LinkToOwned(m1, f);
  }

  lemma LinkToOwned(m: Model, f: nat)
    requires Owned(m) && Partitioned(m) && f in m.files
    ensures Owned(LinkTo(m, f)) && Partitioned(LinkTo(m, f))
  {
    assert LinkTo(m, f).files.Keys == m.files.Keys;
    assert forall g, k, b :: Owns(LinkTo(m, f).files, g, k, b) <==> Owns(m.files, g, k, b);
  }

  lemma EntryNamed(m: Model, d: nat, f: nat, name: Bytes)
    requires Sound(m) && Allowed(m, PutEntry(d, f, name))
    ensures NamesFiles(EntryAdded(m, d, f, name)) && EntriesTell(EntryAdded(m, d, f, name))
  {
    EntryTells(m, f, name);
    EntryTold(m, d, f, name);
  }

  lemma EntryTold(m: Model, d: nat, f: nat, name: Bytes)
    requires NamesFiles(m) && EntriesTell(m) && Allowed(m, PutEntry(d, f, name))
    requires ReadEntryIno(Pad(EntryBytes(f, Named(m, f, name).nameBuf))) == f
    ensures NamesFiles(EntryAdded(m, d, f, name)) && EntriesTell(EntryAdded(m, d, f, name))
  {
    var m' := EntryAdded(m, d, f, name);
    assert m'.named == m.named[m.next := f] && m'.files.Keys == m.files.Keys;
    assert forall b :: b in m.blocks ==> b in m'.blocks && (b != m.next ==> m'.blocks[b] == m.blocks[b]);
  }

  lemma PutEntryKeeps(m: Model, d: nat, f: nat, name: Bytes)
    requires Sound(m) && Allowed(m, PutEntry(d, f, name)) && AddEntry(m, d, f, name).Done?
    ensures Sound(AddEntry(m, d, f, name).m)
  {
    AddEntryIs(m, d, f, name);
    EntryOwned(m, d, f, name);
    EntryNamed(m, d, f, name);
    EntryCounted(m, d, f, name);
    EntryRest(m, d, f, name);
  }

  lemma EntryCounted(m: Model, d: nat, f: nat, name: Bytes)
    requires Sound(m) && Allowed(m, PutEntry(d, f, name))
    ensures LinksCounted(EntryAdded(m, d, f, name))
  {
    BelowNext(m);
    EntryLinks(m, d, f, name);
  }

  lemma EntryRest(m: Model, d: nat, f: nat, name: Bytes)
    requires Sound(m) && Allowed(m, PutEntry(d, f, name)) && |m.files[d].blks| < LN_NBLKS
    ensures var r := EntryAdded(m, d, f, name);
      Closed(r) && HostNumbers(r) && forall g {:trigger r.files[g]} :: g in r.files ==> Sized(r.files[g])
  {
  }

  lemma StepKeeps(m: Model, s: Step)
    requires Sound(m) && Allowed(m, s) && Take(m, s).Done?
    ensures Sound(Take(m, s).m)
  {
    match s
    case NewNode(hino, kind) => NewNodeKeeps(m, hino, kind);
    case PutData(f, data) => PutDataKeeps(m, f, data);
    case PutEntry(d, f, name) => PutEntryKeeps(m, d, f, name);
  }

  lemma {:induction false} RunKeeps(m: Model, steps: seq<Step>, m': Model)
    requires Sound(m) && Reaches(m, steps, m')
    ensures Sound(m')
    decreases |steps|
  {
    if steps != [] {
      StepKeeps(m, steps[0]);
      RunKeeps(Take(m, steps[0]).m, steps[1..], m');
    }
  }

  // ---------- one inode for each host number ----------

  /** Symbolic links aside, no two inodes are for one host number. */
  ghost predicate OneEach(m: Model) {
    && (forall f {:trigger m.files[f]} :: f in m.files ==> m.files[f].hino in m.byHost)
    && forall f, g {:trigger m.files[f], m.files[g]} ::
        f in m.files && g in m.files && SameNumber(m.files[f], m.files[g]) ==> f == g
  }

  predicate SameNumber(a: AFile, b: AFile) {
    a.kind != LinkKind && b.kind != LinkKind && a.hino == b.hino
  }

  lemma SameKindsOneEach(m: Model, r: Model)
    requires OneEach(m) && SameKinds(m, r) && r.files.Keys == m.files.Keys && r.byHost == m.byHost
    ensures OneEach(r)
  {
  }

  lemma NewInodeOneEach(m: Model, hino: nat, kind: Kind)
    requires OneEach(m) && Allowed(m, NewNode(hino, kind)) && NewInode(m, hino, kind).Done?
    ensures OneEach(NewInode(m, hino, kind).m)
  {
  }

  lemma StepKeepsOneEach(m: Model, s: Step)
    requires OneEach(m) && Allowed(m, s) && Take(m, s).Done?
    ensures OneEach(Take(m, s).m)
  {
    match s
    case NewNode(hino, kind) => NewInodeOneEach(m, hino, kind);
    case PutData(f, data) =>
      PutBlockIs(m, f, data);
      SameKindsOneEach(m, Take(m, s).m);
    case PutEntry(d, f, name) =>
      AddEntryIs(m, d, f, name);
      SameKindsOneEach(m, Take(m, s).m);
  }

  lemma {:induction false} RunKeepsOneEach(m: Model, steps: seq<Step>, m': Model)
    requires OneEach(m) && Reaches(m, steps, m')
    ensures OneEach(m')
    decreases |steps|
  {
    if steps != [] {
      StepKeepsOneEach(m, steps[0]);
      RunKeepsOneEach(Take(m, steps[0]).m, steps[1..], m');
    }
  }

  ghost predicate Look(m: Model) { true }

  /** All that holds in every state of every run. (The quantifier keeps the verifier from looking inside until it is
      asked to, as in InOrderIs.) */
  ghost predicate InOrder(m: Model) {
    forall x {:trigger Look(x)} :: Look(x) && x == m ==> Sound(x) && OneEach(x)
  }

  lemma InOrderIs(m: Model)
    ensures InOrder(m) <==> Sound(m) && OneEach(m)
  {
    assert Look(m);
  }

  lemma NumbersInOrder(m: Model)
    requires InOrder(m)
    ensures forall b :: b in m.blocks || b in m.named || b in m.index || b in m.files ==> b < m.next && b != 0
    ensures m.next <= MAX_NBLKS
  {
    InOrderIs(m);
    BelowNext(m);
  }

  lemma StaysInOrder(m: Model, steps: seq<Step>, m': Model)
    requires InOrder(m) && Reaches(m, steps, m')
    ensures InOrder(m')
  {
    InOrderIs(m);
    InOrderIs(m');
    RunKeeps(m, steps, m');
    RunKeepsOneEach(m, steps, m');
  }

  lemma CreateSound(size: nat)
    requires Create(size).Done?
    ensures Sound(Create(size).m) && OneEach(Create(size).m)
  {
    var m := Create(size).m;
    assert Range(m.next, m.next) == {};
    assert Used(m.files, m.next) == 0 by {
      UsedPut(map[], BLKN_ROOT, m.files[BLKN_ROOT], m.next);
      UsedNone(m.next);
      assert map[][BLKN_ROOT := m.files[BLKN_ROOT]] == m.files;
    }
    NoNames(m.named, BLKN_ROOT, m.next);
  }

  lemma {:induction false} UsedNone(hi: nat)
    ensures Used(map[], hi) == 0
  {
    if hi > 0 { UsedNone(hi - 1); }
  }
}
