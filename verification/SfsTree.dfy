/** What a completed walk has put into the abstract state: the host's tree, as far as its numbers tell files apart. */
module SfsTree {
  import opened Octets
  import opened SfsLayout
  import opened SfsModel
  import opened SfsNumbers
  import opened SfsRun
  import opened SfsAccounting

  // ---------- what a state shows ----------

  ghost predicate ByteHeld(m: Model, blks: seq<nat>, i: nat, x: byte) {
    var k := i / BLKSIZE;
    k < |blks| && blks[k] in m.blocks && |m.blocks[blks[k]]| == BLKSIZE && m.blocks[blks[k]][i % BLKSIZE] == x
  }

  ghost predicate BytesHeld(m: Model, blks: seq<nat>, data: Bytes) {
    forall i {:trigger ByteHeld(m, blks, i, data[i])} :: 0 <= i < |data| ==> ByteHeld(m, blks, i, data[i])
  }

  /** Inode ino has that kind and those bytes. */
  ghost predicate Holds(m: Model, ino: nat, kind: Kind, data: Bytes) {
    && ino in m.files && m.files[ino].kind == kind
    && m.files[ino].size == |data| && BytesHeld(m, m.files[ino].blks, data)
  }

  ghost predicate EntryFor(m: Model, b: nat, f: nat, name: Bytes) {
    && b in m.blocks && |m.blocks[b]| == BLKSIZE && b in m.named && m.named[b] == f
    && ReadEntryIno(m.blocks[b]) == f && ReadEntryName(m.blocks[b]) == Cut(name, NAME_WRITTEN)
  }

  /** Inode ino was made for that host number, and is what the number was last given to. */
  ghost predicate Leads(m: Model, ino: nat, hino: nat, last: Last) {
    && ino in m.files && m.files[ino].hino == hino
    && match last
       case GaveFile(data) => Holds(m, ino, FileKind, data)
       case GaveLink(target) => Holds(m, ino, LinkKind, target)
       case GaveDir => IsDir(m, ino)
  }

  /** Inode ino, named in directory parent, is what this node's name leads to; hits are the numbers of files whose names
      led to directories so far. */
  ghost predicate Shows(m: Model, ino: nat, node: Host, seen: Seen, parent: nat, hits: multiset<nat>)
    decreases node, 2
  {
    match node
    case File(hino, data) => Leads(m, ino, hino, Meant(seen, hino, data))
    case Link(hino, target) => Leads(m, ino, hino, GaveLink(target))
    case Dir(hino, listing) =>
      parent < ino && Leads(m, ino, hino, GaveDir) && ShowsDir(m, ino, listing, seen[hino := GaveDir], parent, hits)
    case Socket => false
    case Special => false
  }

  /** Directory d has "." and "..", an entry for each visible node, and 2 links, besides those of its subdirectories and
      of the files whose names lead to it. */
  ghost predicate ShowsDir(m: Model, d: nat, listing: Listing, seen: Seen, parent: nat, hits: multiset<nat>)
    decreases listing, 1
  {
    && IsDir(m, d) && |m.files[d].blks| >= 2
    && EntryFor(m, m.files[d].blks[0], d, DOT) && EntryFor(m, m.files[d].blks[1], parent, DOTDOT)
    && ShowsAll(m, m.files[d].blks[2..], listing, seen, d, hits)
    && Links(m, d) == 2 + Subdirs(listing) + hits[m.files[d].hino]
  }

  /** The entry blocks bs of directory d name the visible nodes of the listing, in order. */
  ghost predicate ShowsAll(m: Model, bs: seq<nat>, listing: Listing, seen: Seen, d: nat, hits: multiset<nat>)
    decreases listing, 0
  {
    match listing
    case End => bs == []
    case Item(name, node, rest) =>
      if Dropped(name, node) then ShowsAll(m, bs, rest, seen, d, hits)
      else
        && bs != [] && bs[0] in m.named && EntryFor(m, bs[0], m.named[bs[0]], name)
        && Shows(m, m.named[bs[0]], node, seen, d, hits)
        && ShowsAll(m, bs[1..], rest, SeenAfter(seen, name, node), d, hits)
  }

  /** A search for a number finds the inode of what it was last given to. */
  ghost predicate Known(m: Model, seen: Seen) {
    && m.byHost.Keys == seen.Keys
    && forall h {:trigger m.byHost[h]} :: h in m.byHost ==> Leads(m, m.byHost[h], h, seen[h])
  }

  // ---------- what later steps leave alone ----------

  ghost predicate SameBut(a: AFile, a': AFile) {
    a'.kind == a.kind && a'.hino == a.hino && a'.size == a.size && a'.blks == a.blks
  }

  /** Only directory d got entries; of the directories, besides d and up, only those of the numbers in hits got links,
      one for each time. */
  ghost predicate Extends(m: Model, m': Model, d: nat, up: nat, hits: multiset<nat>) {
    && m.next <= m'.next
    && (forall f {:trigger m'.files[f]} {:trigger f in m'.files} :: f in m.files ==>
          f in m'.files && (f != d ==> SameBut(m.files[f], m'.files[f])))
    && (IsDir(m, d) ==>
        IsDir(m', d) && m'.files[d].hino == m.files[d].hino && m.files[d].blks <= m'.files[d].blks)
    && (forall f {:trigger Links(m', f)} :: IsDir(m, f) && f != d && f != up ==>
          Links(m', f) == Links(m, f) + hits[m.files[f].hino])
    && (forall b {:trigger m'.blocks[b]} {:trigger b in m'.blocks} :: b in m.blocks ==>
        b in m'.blocks && m'.blocks[b] == m.blocks[b])
    && (forall b {:trigger m'.named[b]} {:trigger b in m'.named} :: b in m.named ==>
        b in m'.named && m'.named[b] == m.named[b])
  }

  lemma BytesKept(m: Model, m': Model, d: nat, up: nat, hits: multiset<nat>, blks: seq<nat>, data: Bytes)
    requires Extends(m, m', d, up, hits) && BytesHeld(m, blks, data)
    ensures BytesHeld(m', blks, data)
  {
    forall i | 0 <= i < |data| ensures ByteHeld(m', blks, i, data[i]) {
      assert ByteHeld(m, blks, i, data[i]);
    }
  }

  lemma LeadsKept(m: Model, m': Model, d: nat, up: nat, hits: multiset<nat>, ino: nat, hino: nat, last: Last)
    requires Extends(m, m', d, up, hits) && IsDir(m, d) && Leads(m, ino, hino, last)
    ensures Leads(m', ino, hino, last)
  {
    match last
    case GaveFile(data) => BytesKept(m, m', d, up, hits, m.files[ino].blks, data);
    case GaveLink(target) => BytesKept(m, m', d, up, hits, m.files[ino].blks, target);
    case GaveDir =>
  }

  lemma KnownKept(m: Model, m': Model, d: nat, up: nat, hits: multiset<nat>, seen: Seen)
    requires Extends(m, m', d, up, hits) && IsDir(m, d) && Known(m, seen) && m'.byHost == m.byHost
    ensures Known(m', seen)
  {
    forall h | h in m'.byHost ensures Leads(m', m'.byHost[h], h, seen[h]) {
      LeadsKept(m, m', d, up, hits, m.byHost[h], h, seen[h]);
    }
  }

  /** What is shown below a directory stays, whatever happens to it and to the ones above it; only hits add up. */
  lemma {:induction false} ShowsKept(m: Model, m': Model, d: nat, up: nat, ino: nat, node: Host, seen: Seen,
      parent: nat, hits: multiset<nat>, more: multiset<nat>)
    requires Extends(m, m', d, up, more) && IsDir(m, d)
    requires Shows(m, ino, node, seen, parent, hits) && d <= parent && up <= parent
    ensures Shows(m', ino, node, seen, parent, hits + more)
    decreases node, 1
  {
    match node
    case File(hino, data) => LeadsKept(m, m', d, up, more, ino, hino, Meant(seen, hino, data));
    case Link(hino, target) => LeadsKept(m, m', d, up, more, ino, hino, GaveLink(target));
    case Dir(hino, listing) =>
      ShowsAllKept(m, m', d, up, m.files[ino].blks[2..], listing, seen[hino := GaveDir], ino, hits, more);
    case Socket =>
    case Special =>
  }

  lemma {:induction false} ShowsAllKept(m: Model, m': Model, d: nat, up: nat, bs: seq<nat>, listing: Listing,
      seen: Seen, parent: nat, hits: multiset<nat>, more: multiset<nat>)
    requires Extends(m, m', d, up, more) && IsDir(m, d)
    requires ShowsAll(m, bs, listing, seen, parent, hits) && d <= parent && up <= parent
    ensures ShowsAll(m', bs, listing, seen, parent, hits + more)
    decreases listing, 0
  {
    match listing
    case End =>
    case Item(name, node, rest) =>
      if Dropped(name, node) {
        ShowsAllKept(m, m', d, up, bs, rest, seen, parent, hits, more);
      } else {
        ShowsKept(m, m', d, up, m.named[bs[0]], node, seen, parent, hits, more);
        ShowsAllKept(m, m', d, up, bs[1..], rest, SeenAfter(seen, name, node), parent, hits, more);
      }
  }

  // ---------- files and links ----------

  /** Nothing changed but file f and blocks that were not there before. */
  ghost predicate OnlyFile(m: Model, r: Model, f: nat) {
    && m.next <= r.next && r.named == m.named && r.byHost == m.byHost
    && f in r.files && r.files == m.files[f := r.files[f]]
    && forall b {:trigger r.blocks[b]} {:trigger b in r.blocks} :: b in m.blocks ==>
        b in r.blocks && r.blocks[b] == m.blocks[b]
  }

  ghost predicate Below(m: Model) {
    forall b {:trigger b in m.blocks} :: b in m.blocks ==> b < m.next
  }

  /** A block of data put at the end of a file whose blocks are full so far. */
  lemma PutShows(m: Model, f: nat, kind: Kind, whole: Bytes, data: Bytes)
    requires Below(m) && |data| <= BLKSIZE
    requires Holds(m, f, kind, whole) && |whole| == |m.files[f].blks| * BLKSIZE && PutBlock(m, f, data).Done?
    ensures var r := PutBlock(m, f, data).m;
      Below(r) && Holds(r, f, kind, whole + data) && OnlyFile(m, r, f) && |r.files[f].blks| == |m.files[f].blks| + 1
  {
    PutBlockIs(m, f, data);
    var r, all := PutBlock(m, f, data).m, whole + data;
    forall i | 0 <= i < |all| ensures ByteHeld(r, r.files[f].blks, i, all[i]) {
      if i < |whole| {
        assert ByteHeld(m, m.files[f].blks, i, whole[i]);
      } else {
        assert r.blocks[m.next][i - |whole|] == data[i - |whole|];
      }
    }
  }

  lemma OnlyFileThrough(m: Model, m1: Model, r: Model, f: nat)
    requires OnlyFile(m, m1, f) && OnlyFile(m1, r, f)
    ensures OnlyFile(m, r, f)
  {
  }

  /** open_file leaves the bytes it read. */
  lemma {:induction false} DataShows(m: Model, f: nat, whole: Bytes, data: Bytes)
    requires Below(m) && Holds(m, f, FileKind, whole) && |whole| == |m.files[f].blks| * BLKSIZE
    requires AppendData(m, f, data).Done?
    ensures var r := AppendData(m, f, data).m; Holds(r, f, FileKind, whole + data) && OnlyFile(m, r, f)
    decreases |data|
  {
    if data == [] {
      assert whole + data == whole;
    } else {
      var n := Chunk(data);
      var now, later := data[..n], data[n..];
      DataStep(m, f, data);
      PutShows(m, f, FileKind, whole, now);
      assert whole + now + later == whole + data;
      if n == BLKSIZE {
        DataShows(PutBlock(m, f, now).m, f, whole + now, later);
        OnlyFileThrough(m, PutBlock(m, f, now).m, AppendData(m, f, data).m, f);
      } else {
        assert later == [] && whole + now == whole + data;
      }
    }
  }

  /** A new inode, and blocks for it. */
  ghost predicate NewFile(m: Model, r: Model, hino: nat) {
    (&& m.next <= r.next && r.named == m.named && r.byHost == m.byHost[hino := m.next]
     && (forall f {:trigger r.files[f]} {:trigger f in r.files} :: f in m.files ==>
         f in r.files && r.files[f] == m.files[f])
     && forall b {:trigger r.blocks[b]} {:trigger b in r.blocks} :: b in m.blocks ==>
         b in r.blocks && r.blocks[b] == m.blocks[b]) == true
  }

  lemma MakeFileShows(m: Model, hino: nat, data: Bytes)
    requires Closed(m) && Below(m) && MakeFile(m, hino, data).Done?
    ensures var r := MakeFile(m, hino, data).m; Leads(r, m.next, hino, GaveFile(data)) && NewFile(m, r, hino)
  {
    var m1 := NewInode(m, hino, FileKind).m;
    DataShows(m1, m.next, [], data);
    assert [] + data == data;
    assert SameKinds(m1, MakeFile(m, hino, data).m);
  }

  lemma MakeLinkShows(m: Model, hino: nat, target: Bytes)
    requires Closed(m) && Below(m) && MakeLink(m, hino, target).Done?
    ensures var r := MakeLink(m, hino, target).m; Leads(r, m.next, hino, GaveLink(target)) && NewFile(m, r, hino)
  {
    var m1 := NewInode(m, hino, LinkKind).m;
    PutShows(m1, m.next, LinkKind, [], target);
    assert [] + target == target;
    assert SameKinds(m1, MakeLink(m, hino, target).m);
  }

  // ---------- entries ----------

  // In these, the comparison with true keeps the verifier from taking the predicates apart at every use.

  /** Directory d got one entry, the last one, for inode f. */
  ghost predicate EntryPut(m: Model, r: Model, d: nat, f: nat, name: Bytes) {
    (&& Extends(m, r, d, f, multiset{}) && r.byHost == m.byHost && IsDir(m, d) && IsDir(r, d)
     && r.files[d].blks == m.files[d].blks + [m.next] && EntryFor(r, m.next, f, name)
     && (forall g {:trigger Links(r, g)} :: g in m.files ==> Links(r, g) == Links(m, g) + if g == f then 1 else 0))
    == true
  }

  lemma EntryLinked(m: Model, d: nat, f: nat, name: Bytes, g: nat)
    requires (forall b :: b in m.named ==> b < m.next) && m.next !in m.named && d in m.files && f in m.files
    requires |name| <= MAX_FNAME_LEN && |m.nameBuf| == 256
    ensures Links(EntryAdded(m, d, f, name), g) == Links(m, g) + if g == f then 1 else 0
  {
    var r := EntryAdded(m, d, f, name);
    NamesPut(m.named, m.next, f, g, r.next);
    NamesAbove(m.named, g, m.next, r.next);
  }

  lemma EntryPutIs(m: Model, d: nat, f: nat, name: Bytes)
    requires Below(m) && (forall b :: b in m.named ==> b < m.next) && f < U32 && IsDir(m, d) && f in m.files
    requires |name| <= MAX_FNAME_LEN && NoNul(name) && |m.nameBuf| == 256
    ensures EntryPut(m, EntryAdded(m, d, f, name), d, f, name)
  {
    EntryRoundTrip(f, m.nameBuf, name);
    forall g | g in m.files ensures Links(EntryAdded(m, d, f, name), g) == Links(m, g) + if g == f then 1 else 0 {
      EntryLinked(m, d, f, name, g);
    }
    EntryExtends(m, d, f, name);
  }

  lemma EntryExtends(m: Model, d: nat, f: nat, name: Bytes)
    requires Below(m) && (forall b :: b in m.named ==> b < m.next) && IsDir(m, d) && f in m.files
    requires |name| <= MAX_FNAME_LEN && |m.nameBuf| == 256
    ensures Extends(m, EntryAdded(m, d, f, name), d, f, multiset{})
  {
    var r := EntryAdded(m, d, f, name);
    forall g | IsDir(m, g) && g != d && g != f ensures Links(r, g) == Links(m, g) {
      EntryLinked(m, d, f, name, g);
    }
  }

  lemma EntryInOrder(m: Model, d: nat, f: nat, name: Bytes)
    requires InOrder(m) && Ready(m, d) && IsDir(m, d) && f in m.files && |name| <= MAX_FNAME_LEN
        && AddEntry(m, d, f, name).Done?
    ensures InOrder(AddEntry(m, d, f, name).m)
  {
    InOrderIs(m);
    InOrderIs(AddEntry(m, d, f, name).m);
    StepKeeps(m, PutEntry(d, f, name));
    StepKeepsOneEach(m, PutEntry(d, f, name));
  }

  lemma AddEntryShows(m: Model, d: nat, f: nat, name: Bytes)
    requires InOrder(m) && Ready(m, d) && IsDir(m, d) && f in m.files && |name| <= MAX_FNAME_LEN && NoNul(name)
        && AddEntry(m, d, f, name).Done?
    ensures EntryPut(m, AddEntry(m, d, f, name).m, d, f, name) && InOrder(AddEntry(m, d, f, name).m)
  {
    NumbersInOrder(m);
    EntryInOrder(m, d, f, name);
    AddEntryIs(m, d, f, name);
    EntryPutIs(m, d, f, name);
  }

  /** The number of inode f, if that is a directory: a link to it is a hit. */
  ghost function HitOn(m: Model, f: nat): multiset<nat> {
    if IsDir(m, f) then multiset{m.files[f].hino} else multiset{}
  }

  /** No two directories have one number, so that a link to one of them is told from links to others. */
  lemma EntryHits(m: Model, r: Model, d: nat, f: nat, name: Bytes)
    requires EntryPut(m, r, d, f, name) && InOrder(m) && f in m.files
    ensures Extends(m, r, d, d, HitOn(m, f)) && Links(r, d) == Links(m, d) + HitOn(m, f)[m.files[d].hino]
  {
    forall g | IsDir(m, g) ensures Links(r, g) == Links(m, g) + HitOn(m, f)[m.files[g].hino] {
      OneOfANumber(m, f, g);
    }
  }

  lemma OneOfANumber(m: Model, f: nat, g: nat)
    requires InOrder(m) && f in m.files && IsDir(m, g)
    ensures IsDir(m, f) && m.files[g].hino == m.files[f].hino ==> f == g
  {
    InOrderIs(m);
    if IsDir(m, f) && m.files[g].hino == m.files[f].hino { assert SameNumber(m.files[g], m.files[f]); }
  }

  // ---------- the walk ----------

  /** Entry k of directory d, and the inode it names, are the visible node. */
  ghost predicate ShowsEntry(m: Model, d: nat, k: nat, name: Bytes, node: Host, seen: Seen, hits: multiset<nat>) {
    && IsDir(m, d) && k < |m.files[d].blks| && m.files[d].blks[k] in m.named
    && EntryFor(m, m.files[d].blks[k], m.named[m.files[d].blks[k]], name)
    && Shows(m, m.named[m.files[d].blks[k]], node, seen, d, hits)
  }

  /** One visible node was added to directory d. */
  ghost predicate NodeAdded(m: Model, r: Model, d: nat, name: Bytes, node: Host, seen: Seen, hits: multiset<nat>)
    requires IsDir(m, d)
  {
    (&& Extends(m, r, d, d, NodeHits(seen, node))
     && ShowsEntry(r, d, |m.files[d].blks|, name, node, seen, hits + NodeHits(seen, node))
     && |r.files[d].blks| == |m.files[d].blks| + 1
     && Links(r, d) == Links(m, d) + (if node.Dir? then 1 else 0) + NodeHits(seen, node)[m.files[d].hino]) == true
  }

  ghost predicate NodeTaken(m: Model, r: Model, d: nat, name: Bytes, node: Host, seen: Seen, hits: multiset<nat>)
    requires IsDir(m, d)
  {
    if Dropped(name, node) then r == m else NodeAdded(m, r, d, name, node, seen, hits)
  }

  /** A walk of directory d goes on; hits were on numbers seen. */
  ghost predicate Going(m: Model, d: nat, seen: Seen, hits: multiset<nat>) {
    InOrder(m) && Ready(m, d) && IsDir(m, d) && Known(m, seen) && forall h :: h in hits ==> h in seen
  }

  lemma NewFileExtends(m: Model, r: Model, hino: nat, d: nat)
    requires NewFile(m, r, hino) && IsDir(m, d) && (forall b :: b in m.named ==> b < m.next)
    ensures Extends(m, r, d, d, multiset{}) && forall f :: Links(r, f) == Links(m, f)
  {
    forall f ensures Links(r, f) == Links(m, f) {
      NamesAbove(m.named, f, m.next, r.next);
    }
  }

  lemma NewFileKnown(m: Model, r: Model, hino: nat, d: nat, seen: Seen, last: Last)
    requires NewFile(m, r, hino) && IsDir(m, d) && Known(m, seen) && Leads(r, m.next, hino, last)
    requires Extends(m, r, d, d, multiset{})
    ensures Known(r, seen[hino := last])
  {
    forall h | h in r.byHost ensures Leads(r, r.byHost[h], h, seen[hino := last][h]) {
      if h != hino {
        LeadsKept(m, r, d, d, multiset{}, m.byHost[h], h, seen[h]);
      }
    }
  }

  lemma ExtendsThrough(m: Model, m1: Model, r: Model, d: nat, f: nat, hits: multiset<nat>, more: multiset<nat>)
    requires IsDir(m, d) && Extends(m, m1, d, d, hits) && Extends(m1, r, d, f, more) && (f == d || !IsDir(m, f))
    ensures Extends(m, r, d, d, hits + more)
  {
    forall g | IsDir(m, g) && g != d ensures Links(r, g) == Links(m, g) + (hits + more)[m.files[g].hino] {
      assert Links(m1, g) == Links(m, g) + hits[m.files[g].hino];
      assert m1.files[g].hino == m.files[g].hino;
    }
  }

  /** The entry for what a file's or link's name leads to, inode f, which is complete in m1. */
  lemma EntryAdds(m: Model, m1: Model, r: Model, d: nat, f: nat, name: Bytes, node: Host, seen: Seen,
      hits: multiset<nat>)
    requires IsDir(m, d) && Extends(m, m1, d, d, multiset{}) && Links(m1, d) == Links(m, d) && InOrder(m1)
    requires IsDir(m1, d) && m1.files[d] == m.files[d] && EntryPut(m1, r, d, f, name)
    requires (node.File? || node.Link?) && Shows(m1, f, node, seen, d, hits)
    ensures NodeAdded(m, r, d, name, node, seen, hits)
  {
    var more := HitOn(m1, f);
    FileHits(m1, d, f, node, seen, hits);
    EntryHits(m1, r, d, f, name);
    ExtendsThrough(m, m1, r, d, d, multiset{}, more);
    assert multiset{} + more == more;
    ShowsKept(m1, r, d, d, f, node, seen, d, hits, more);
  }

  lemma FileHits(m: Model, d: nat, f: nat, node: Host, seen: Seen, hits: multiset<nat>)
    requires (node.File? || node.Link?) && Shows(m, f, node, seen, d, hits)
    ensures f in m.files && HitOn(m, f) == NodeHits(seen, node)
  {
  }

  lemma FileShows(m: Model, d: nat, name: Name, hino: nat, data: Bytes, seen: Seen, hits: multiset<nat>)
    requires Going(m, d, seen, hits) && |name| <= MAX_FNAME_LEN && AddFile(m, d, name, hino, data).Done?
    ensures var r := AddFile(m, d, name, hino, data).m;
      NodeAdded(m, r, d, name, File(hino, data), seen, hits) && InOrder(r)
      && Known(r, seen[hino := Meant(seen, hino, data)])
  {
    if hino in m.byHost {
      OldFileShows(m, d, name, hino, data, seen, hits);
    } else {
      NewFileShows(m, d, name, hino, data, seen, hits);
    }
  }

  lemma OldFileShows(m: Model, d: nat, name: Name, hino: nat, data: Bytes, seen: Seen, hits: multiset<nat>)
    requires Going(m, d, seen, hits) && |name| <= MAX_FNAME_LEN && AddFile(m, d, name, hino, data).Done?
    requires hino in m.byHost
    ensures var r := AddFile(m, d, name, hino, data).m;
      NodeAdded(m, r, d, name, File(hino, data), seen, hits) && InOrder(r)
      && Known(r, seen[hino := Meant(seen, hino, data)])
  {
    var f, r := m.byHost[hino], AddFile(m, d, name, hino, data).m;
    assert seen[hino := seen[hino]] == seen;
    AddEntryShows(m, d, f, name);
    SameExtends(m, d);
    EntryAdds(m, m, r, d, f, name, File(hino, data), seen, hits);
    KnownKept(m, r, d, f, multiset{}, seen);
  }

  lemma SameExtends(m: Model, d: nat)
    requires IsDir(m, d)
    ensures Extends(m, m, d, d, multiset{})
  {
  }

  lemma NewFileShows(m: Model, d: nat, name: Name, hino: nat, data: Bytes, seen: Seen, hits: multiset<nat>)
    requires Going(m, d, seen, hits) && |name| <= MAX_FNAME_LEN && AddFile(m, d, name, hino, data).Done?
    requires hino !in m.byHost
    ensures var r := AddFile(m, d, name, hino, data).m;
      NodeAdded(m, r, d, name, File(hino, data), seen, hits) && InOrder(r) && Known(r, seen[hino := GaveFile(data)])
  {
    var m1, r := MakeFile(m, hino, data).m, AddFile(m, d, name, hino, data).m;
    NumbersInOrder(m);
    MakeFileShows(m, hino, data);
    MakeFileSound(m, hino, data);
    NewFileExtends(m, m1, hino, d);
    NewFileKnown(m, m1, hino, d, seen, GaveFile(data));
    AddEntryShows(m1, d, m.next, name);
    EntryAdds(m, m1, r, d, m.next, name, File(hino, data), seen, hits);
    KnownKept(m1, r, d, m.next, multiset{}, seen[hino := GaveFile(data)]);
  }

  lemma MakeFileSound(m: Model, hino: nat, data: Bytes)
    requires InOrder(m) && hino !in m.byHost && MakeFile(m, hino, data).Done?
    ensures InOrder(MakeFile(m, hino, data).m)
  {
    var steps, last := MakeFileRuns(m, hino, data);
    StaysInOrder(m, steps, last);
  }

  lemma MakeLinkSound(m: Model, name: Name, hino: nat, target: Bytes)
    requires InOrder(m) && !Hidden(name) && |name| <= MAX_FNAME_LEN && MakeLink(m, hino, target).Done?
    ensures InOrder(MakeLink(m, hino, target).m)
  {
    var steps, last := MakeLinkRuns(m, name, hino, target);
    StaysInOrder(m, steps, last);
  }

  lemma LinkShows(m: Model, d: nat, name: Name, hino: nat, target: Bytes, seen: Seen, hits: multiset<nat>)
    requires Going(m, d, seen, hits) && !Hidden(name) && |name| <= MAX_FNAME_LEN
    requires AddLink(m, d, name, hino, target).Done?
    ensures var r := AddLink(m, d, name, hino, target).m;
      NodeAdded(m, r, d, name, Link(hino, target), seen, hits) && InOrder(r)
      && Known(r, seen[hino := GaveLink(target)])
  {
    var m1, r := MakeLink(m, hino, target).m, AddLink(m, d, name, hino, target).m;
    NumbersInOrder(m);
    MakeLinkShows(m, hino, target);
    MakeLinkSound(m, name, hino, target);
    NewFileExtends(m, m1, hino, d);
    NewFileKnown(m, m1, hino, d, seen, GaveLink(target));
    AddEntryShows(m1, d, m.next, name);
    EntryAdds(m, m1, r, d, m.next, name, Link(hino, target), seen, hits);
    KnownKept(m1, r, d, m.next, multiset{}, seen[hino := GaveLink(target)]);
  }

  // ---------- directories ----------

  /** Directory d after open_dir, before it has an entry in its parent. */
  ghost predicate Opened(m: Model, d: nat, listing: Listing, seen: Seen, parent: nat, hits: multiset<nat>) {
    (&& IsDir(m, d) && |m.files[d].blks| >= 2
     && EntryFor(m, m.files[d].blks[0], d, DOT) && EntryFor(m, m.files[d].blks[1], parent, DOTDOT)
     && ShowsAll(m, m.files[d].blks[2..], listing, seen, d, hits)
     && Links(m, d) == (if parent == d then 2 else 1) + Subdirs(listing) + hits[m.files[d].hino]) == true
  }

  /** Directory d has its first two entries. */
  ghost predicate DotsIn(m: Model, r: Model, d: nat, parent: nat)
    requires IsDir(m, parent)
  {
    (&& Extends(m, r, d, parent, multiset{}) && IsDir(r, d) && IsDir(r, parent) && |r.files[d].blks| == 2
     && EntryFor(r, r.files[d].blks[0], d, DOT) && EntryFor(r, r.files[d].blks[1], parent, DOTDOT)
     && Links(r, d) == (if parent == d then 2 else 1)
     && (parent != d ==> Links(r, parent) == Links(m, parent) + 1)) == true
  }

  lemma DotsPut(m: Model, m1: Model, r: Model, d: nat, parent: nat)
    requires IsDir(m, d) && IsDir(m, parent) && m.files[d].blks == [] && Links(m, d) == 0
    requires EntryPut(m, m1, d, d, DOT) && EntryPut(m1, r, d, parent, DOTDOT)
    ensures DotsIn(m, r, d, parent)
  {
    assert Links(m1, d) == 1 && (parent != d ==> Links(m1, parent) == Links(m, parent));
    assert Links(r, d) == (if parent == d then 2 else 1);
    assert r.files[d].blks == [m.next, m1.next];
    assert EntryFor(r, m.next, d, DOT);
    DotsExtend(m, m1, r, d, parent);
  }

  lemma DotsExtend(m: Model, m1: Model, r: Model, d: nat, parent: nat)
    requires IsDir(m, d) && Extends(m, m1, d, d, multiset{}) && Extends(m1, r, d, parent, multiset{})
    ensures Extends(m, r, d, parent, multiset{})
  {
    forall g | IsDir(m, g) && g != d && g != parent ensures Links(r, g) == Links(m, g) {
      assert Links(m1, g) == Links(m, g);
    }
  }

  lemma DotDotPut(m: Model, m1: Model, d: nat, parent: nat)
    requires IsDir(m, d) && IsDir(m, parent) && m.files[d].blks == [] && Links(m, d) == 0
    requires InOrder(m1) && Ready(m1, d) && EntryPut(m, m1, d, d, DOT) && parent in m1.files
        && AddEntry(m1, d, parent, DOTDOT).Done?
    ensures var r := AddEntry(m1, d, parent, DOTDOT).m; InOrder(r) && DotsIn(m, r, d, parent) && r.byHost == m.byHost
  {
    AddEntryShows(m1, d, parent, DOTDOT);
    DotsPut(m, m1, AddEntry(m1, d, parent, DOTDOT).m, d, parent);
  }

  lemma DotsShow(m: Model, d: nat, parent: nat, seen: Seen, hits: multiset<nat>)
    requires Going(m, d, seen, hits) && IsDir(m, parent) && m.files[d].blks == [] && Links(m, d) == 0
        && AddDots(m, d, parent).Done?
    ensures Going(AddDots(m, d, parent).m, d, seen, hits) && DotsIn(m, AddDots(m, d, parent).m, d, parent)
  {
    AddEntryShows(m, d, d, DOT);
    DotDotPut(m, AddEntry(m, d, d, DOT).m, d, parent);
    KnownKept(m, AddDots(m, d, parent).m, d, parent, multiset{}, seen);
  }

  lemma OpenDirShows(m: Model, d: nat, parent: nat, listing: Listing, seen: Seen, hits: multiset<nat>)
    requires Going(m, d, seen, hits) && IsDir(m, parent) && m.files[d].blks == [] && Links(m, d) == 0
    requires hits[m.files[d].hino] == 0 && OpenDir(m, d, parent, listing).Done?
    ensures var r, more := OpenDir(m, d, parent, listing).m, Hits(seen, listing);
      && InOrder(r) && Known(r, SeenAfterAll(seen, listing)) && Extends(m, r, d, parent, more)
      && Opened(r, d, listing, seen, parent, hits + more)
      && (parent != d ==> Links(r, parent) == Links(m, parent) + 1 + more[m.files[parent].hino])
    decreases listing, 1
  {
    var m1 := AddDots(m, d, parent).m;
    DotsShow(m, d, parent, seen, hits);
    WalkShows(m1, d, listing, seen, hits);
    OpenedIs(m, m1, Walk(m1, d, listing).m, d, parent, listing, seen, hits);
  }

  lemma OpenedIs(m: Model, m1: Model, r: Model, d: nat, parent: nat, listing: Listing, seen: Seen,
      hits: multiset<nat>)
    requires IsDir(m, d) && IsDir(m, parent) && DotsIn(m, m1, d, parent)
    requires Walked(m1, r, d, listing, seen, hits) && m.files[d].blks == [] && hits[m.files[d].hino] == 0
    ensures var more := Hits(seen, listing);
      && Extends(m, r, d, parent, more) && Opened(r, d, listing, seen, parent, hits + more)
      && (parent != d ==> Links(r, parent) == Links(m, parent) + 1 + more[m.files[parent].hino])
  {
    var more := Hits(seen, listing);
    forall g | IsDir(m, g) && g != d && g != parent ensures Links(r, g) == Links(m, g) + more[m.files[g].hino] {
      assert Links(m1, g) == Links(m, g) && m1.files[g].hino == m.files[g].hino;
    }
  }

  /** Directory d got an entry for each visible node of the listing. */
  ghost predicate Walked(m: Model, r: Model, d: nat, listing: Listing, seen: Seen, hits: multiset<nat>)
    requires IsDir(m, d)
  {
    (&& Extends(m, r, d, d, Hits(seen, listing))
     && ShowsAll(r, r.files[d].blks[|m.files[d].blks|..], listing, seen, d, hits + Hits(seen, listing))
     && Links(r, d) == Links(m, d) + Subdirs(listing) + Hits(seen, listing)[m.files[d].hino]) == true
  }

  lemma WalkShows(m: Model, d: nat, listing: Listing, seen: Seen, hits: multiset<nat>)
    requires Going(m, d, seen, hits) && Walk(m, d, listing).Done?
    ensures Going(Walk(m, d, listing).m, d, SeenAfterAll(seen, listing), hits + Hits(seen, listing))
        && Walked(m, Walk(m, d, listing).m, d, listing, seen, hits)
    decreases listing, 0
  {
    match listing
    case End => WalkEnd(m, d, seen, hits);
    case Item(name, node, rest) =>
      var m1, seen1 := AddNode(m, d, name, node).m, SeenAfter(seen, name, node);
      var now := if Dropped(name, node) then multiset{} else NodeHits(seen, node);
      NodeShows(m, d, name, node, seen, hits);
      WalkShows(m1, d, rest, seen1, hits + now);
      HitsOfItem(seen, name, node, rest, hits);
      WalkStep(m, m1, Walk(m1, d, rest).m, d, name, node, rest, seen, hits);
  }

  lemma WalkEnd(m: Model, d: nat, seen: Seen, hits: multiset<nat>)
    requires IsDir(m, d)
    ensures Walked(m, m, d, End, seen, hits) && hits + Hits(seen, End) == hits
  {
    SameExtends(m, d);
  }

  lemma WalkStep(m: Model, m1: Model, r: Model, d: nat, name: Name, node: Host, rest: Listing, seen: Seen,
      hits: multiset<nat>)
    requires IsDir(m, d) && NodeTaken(m, m1, d, name, node, seen, hits)
    requires IsDir(m1, d)
    requires var now := if Dropped(name, node) then multiset{} else NodeHits(seen, node);
      Walked(m1, r, d, rest, SeenAfter(seen, name, node), hits + now)
    ensures Walked(m, r, d, Item(name, node, rest), seen, hits)
  {
    var more := Hits(SeenAfter(seen, name, node), rest);
    if Dropped(name, node) {
      assert multiset{} + more == more && hits + multiset{} == hits;
    } else {
      WalkOn(m, m1, r, d, name, node, rest, seen, SeenAfter(seen, name, node), hits, NodeHits(seen, node), more);
      assert Hits(seen, Item(name, node, rest)) == NodeHits(seen, node) + more;
    }
  }

  lemma WalkOn(m: Model, m1: Model, r: Model, d: nat, name: Name, node: Host, rest: Listing, seen: Seen, seen1: Seen,
      hits: multiset<nat>, now: multiset<nat>, more: multiset<nat>)
    requires IsDir(m, d) && !Dropped(name, node) && NodeAdded(m, m1, d, name, node, seen, hits)
    requires now == NodeHits(seen, node) && more == Hits(seen1, rest) && seen1 == SeenAfter(seen, name, node)
    requires IsDir(m1, d) && Walked(m1, r, d, rest, seen1, hits + now)
    ensures Extends(m, r, d, d, now + more)
    ensures ShowsAll(r, r.files[d].blks[|m.files[d].blks|..], Item(name, node, rest), seen, d, hits + (now + more))
    ensures Links(r, d) == Links(m, d) + Subdirs(Item(name, node, rest)) + (now + more)[m.files[d].hino]
  {
    ExtendsThrough(m, m1, r, d, d, now, more);
    var k := |m.files[d].blks|;
    var b, bs := m1.files[d].blks[k], r.files[d].blks[k..];
    assert bs[0] == b && bs[1..] == r.files[d].blks[|m1.files[d].blks|..];
    ShowsKept(m1, r, d, d, m1.named[b], node, seen, d, hits + now, more);
    assert hits + now + more == hits + (now + more);
  }

  /** One turn of the readdir loop, and it may go on. */
  lemma NodeShows(m: Model, d: nat, name: Name, node: Host, seen: Seen, hits: multiset<nat>)
    requires Going(m, d, seen, hits) && AddNode(m, d, name, node).Done?
    ensures NodeTaken(m, AddNode(m, d, name, node).m, d, name, node, seen, hits)
    ensures var now := if Dropped(name, node) then multiset{} else NodeHits(seen, node);
      Going(AddNode(m, d, name, node).m, d, SeenAfter(seen, name, node), hits + now)
    decreases node, 4
  {
    NodeHitsAreSeen(seen, name, node);
    if !Hidden(name) {
      match node
      case File(hino, data) => FileShows(m, d, name, hino, data, seen, hits);
      case Link(hino, target) => LinkShows(m, d, name, hino, target, seen, hits);
      case Dir(hino, listing) => DirShows(m, d, name, hino, listing, seen, hits);
      case Socket =>
      case Special =>
    }
  }

  /** What add_dir has done before it adds the entry: directory c is open, and ".." in it is a link to d. */
  ghost predicate DirMade(m: Model, m2: Model, d: nat, c: nat, listing: Listing, seen: Seen, hits: multiset<nat>)
    requires IsDir(m, d)
  {
    (&& Extends(m, m2, d, d, Hits(seen, listing)) && IsDir(m2, d) && m2.files[d].blks == m.files[d].blks
     && Links(m2, d) == Links(m, d) + 1 + Hits(seen, listing)[m.files[d].hino]
     && Opened(m2, c, listing, seen, d, hits + Hits(seen, listing))) == true
  }

  lemma DirMadeIs(m: Model, m1: Model, m2: Model, d: nat, c: nat, listing: Listing, seen: Seen, hits: multiset<nat>)
    requires IsDir(m, d) && c !in m.files && d != c
    requires Extends(m, m1, d, d, multiset{}) && IsDir(m1, d) && m1.files[d] == m.files[d]
    requires Links(m1, d) == Links(m, d) && Extends(m1, m2, c, d, Hits(seen, listing))
    requires Opened(m2, c, listing, seen, d, hits + Hits(seen, listing))
    requires Links(m2, d) == Links(m1, d) + 1 + Hits(seen, listing)[m.files[d].hino]
    ensures DirMade(m, m2, d, c, listing, seen, hits)
  {
    var more := Hits(seen, listing);
    forall g | IsDir(m, g) && g != d ensures Links(m2, g) == Links(m, g) + more[m.files[g].hino] {
      assert Links(m1, g) == Links(m, g) && m1.files[g].hino == m.files[g].hino;
    }
  }

  lemma MakeDirShows(m: Model, d: nat, hino: nat, listing: Listing, seen: Seen, hits: multiset<nat>)
    requires Going(m, d, seen, hits) && MakeDir(m, d, hino, listing).Done?
    ensures var r := MakeDir(m, d, hino, listing).m;
      DirMade(m, r, d, m.next, listing, seen[hino := GaveDir], hits) && InOrder(r)
      && Leads(r, m.next, hino, GaveDir) && Known(r, SeenAfterAll(seen[hino := GaveDir], listing))
    decreases listing, 2
  {
    var m1 := NewInode(m, hino, DirKind).m;
    DirBegins(m, d, hino, seen, hits);
    OpenDirShows(m1, m.next, d, listing, seen[hino := GaveDir], hits);
    DirMadeIs(m, m1, OpenDir(m1, m.next, d, listing).m, d, m.next, listing, seen[hino := GaveDir], hits);
  }

  lemma DirBegins(m: Model, d: nat, hino: nat, seen: Seen, hits: multiset<nat>)
    requires Going(m, d, seen, hits) && hino !in m.byHost && NewInode(m, hino, DirKind).Done?
    ensures var m1 := NewInode(m, hino, DirKind).m;
      && Going(m1, m.next, seen[hino := GaveDir], hits) && IsDir(m1, d) && m1.files[d] == m.files[d]
      && m.next !in m.files && d < m.next && Links(m1, m.next) == 0 && hits[hino] == 0
      && Extends(m, m1, d, d, multiset{}) && Links(m1, d) == Links(m, d)
  {
    var m1 := NewInode(m, hino, DirKind).m;
    NumbersInOrder(m);
    NewDirInOrder(m, hino);
    InodeIsNew(m, hino, DirKind);
    NewFileExtends(m, m1, hino, d);
    NewFileKnown(m, m1, hino, d, seen, GaveDir);
  }

  lemma InodeIsNew(m: Model, hino: nat, kind: Kind)
    requires Closed(m) && NewInode(m, hino, kind).Done?
    ensures NewFile(m, NewInode(m, hino, kind).m, hino)
  {
  }

  lemma NewDirInOrder(m: Model, hino: nat)
    requires InOrder(m) && hino !in m.byHost && NewInode(m, hino, DirKind).Done?
    ensures InOrder(NewInode(m, hino, DirKind).m) && Links(NewInode(m, hino, DirKind).m, m.next) == 0
  {
    InOrderIs(m);
    InOrderIs(NewInode(m, hino, DirKind).m);
    BelowNext(m);
    NewNodeKeeps(m, hino, DirKind);
    NewInodeOneEach(m, hino, DirKind);
    NotNamed(m, m.next, NewInode(m, hino, DirKind).m.next);
  }

  lemma NotNamed(m: Model, f: nat, hi: nat)
    requires Sound(m) && f !in m.files
    ensures Names(m.named, f, hi) == 0
  {
    assert forall b :: b in m.named ==> m.named[b] in m.files;
    NoNames(m.named, f, hi);
  }

  lemma DirShows(m: Model, d: nat, name: Name, hino: nat, listing: Listing, seen: Seen, hits: multiset<nat>)
    requires Going(m, d, seen, hits) && |name| <= MAX_FNAME_LEN && AddDir(m, d, name, hino, listing).Done?
    ensures var r := AddDir(m, d, name, hino, listing).m;
      NodeAdded(m, r, d, name, Dir(hino, listing), seen, hits) && InOrder(r)
      && Known(r, SeenAfterAll(seen[hino := GaveDir], listing))
    decreases listing, 3
  {
    var c, m2, r := m.next, MakeDir(m, d, hino, listing).m, AddDir(m, d, name, hino, listing).m;
    NumbersInOrder(m);
    MakeDirShows(m, d, hino, listing, seen, hits);
    AddEntryShows(m2, d, c, name);
    KnownKept(m2, r, d, c, multiset{}, SeenAfterAll(seen[hino := GaveDir], listing));
    DirAdds(m, m2, r, d, c, name, hino, listing, seen, hits);
  }

  /** The entry for a directory c that is open in m2. */
  lemma DirAdds(m: Model, m2: Model, r: Model, d: nat, c: nat, name: Bytes, hino: nat, listing: Listing, seen: Seen,
      hits: multiset<nat>)
    requires IsDir(m, d) && c == m.next && d < c && c !in m.files
    requires DirMade(m, m2, d, c, listing, seen[hino := GaveDir], hits)
    requires Leads(m2, c, hino, GaveDir) && EntryPut(m2, r, d, c, name)
    ensures NodeAdded(m, r, d, name, Dir(hino, listing), seen, hits)
  {
    var more := Hits(seen[hino := GaveDir], listing);
    SubdirOpened(m2, r, d, c, name, listing, seen[hino := GaveDir], hits + more);
    LeadsKept(m2, r, d, c, multiset{}, c, hino, GaveDir);
    ExtendsThrough(m, m2, r, d, c, more, multiset{});
    assert more + multiset{} == more;
    assert EntryFor(r, m2.next, c, name);
    assert Links(r, d) == Links(m2, d);
  }

  /** With its entry, a directory has all its links. */
  lemma SubdirOpened(m: Model, r: Model, d: nat, c: nat, name: Bytes, listing: Listing, seen: Seen,
      hits: multiset<nat>)
    requires IsDir(m, d) && d < c && EntryPut(m, r, d, c, name) && Opened(m, c, listing, seen, d, hits)
    ensures ShowsDir(r, c, listing, seen, d, hits)
  {
    ShowsAllKept(m, r, d, c, m.files[c].blks[2..], listing, seen, c, hits, multiset{});
    assert hits + multiset{} == hits;
    assert Links(r, c) == Links(m, c) + 1;
  }
}
