/** What lab8/tools/mksfs.c does to an image, with every file seen as the list of its blocks.

    The functions here are the specification of the methods in module Mksfs,
    which work on inodes, index blocks and hash chains. A run that ends in
    bug(...) or a failed assert aborts.
 */
module SfsModel {
  import opened Octets
  import opened SfsLayout

  /** A node of the host's tree; hino is its inode number there. Sockets cannot be opened; the other special files are
      those the tool warns about and skips. */
  datatype Host =
    | File(hino: nat, data: Bytes)
    | Link(hino: nat, target: Bytes)
    | Dir(hino: nat, listing: Listing)
    | Socket
    | Special

  /** A name on the host: a C string, before its NUL. */
  type Name = s: Bytes | NoNul(s) witness []

  /** What readdir hands out, "." and ".." aside. */
  datatype Listing = End | Item(name: Name, node: Host, rest: Listing)

  /** Why a run ends early; the last two are failed asserts. */
  datatype Bug =
    | ImageTooSmall
    | OutOfSpace
    | FileTooBig
    | NameTooLong
    | LinkTooLong
    | OpenFailed
    | DirectorySeenBefore
    | CacheMiss

  /** A cached inode. */
  datatype AFile = AFile(kind: Kind, hino: nat, size: nat, nlinks: nat, blks: seq<nat>)

  datatype Model = Model(
    ninos: nat,                 // blocks of the image
    next: nat,                  // first block number not yet handed out
    files: map<nat, AFile>,     // cached inodes by their block number
    byHost: map<nat, nat>,      // what a search for a host inode number finds
    blocks: map<nat, Bytes>,    // data and entry blocks written so far
    named: map<nat, nat>,       // entry blocks, and the inode each one names
    index: set<nat>,            // block numbers handed out for index blocks
    nameBuf: Bytes)             // the name field of the static struct sfs_entry

  datatype Outcome = Done(m: Model) | Abort(why: Bug) {
    predicate IsFailure() { Abort? }
    function PropagateFailure(): Outcome requires Abort? { this }
    function Extract(): Model requires Done? { m }
  }

  /** A search for a host inode number finds a cached inode, and inode numbers were handed out. */
  ghost predicate Closed(m: Model) {
    && (forall h :: h in m.byHost ==> m.byHost[h] in m.files)
    && (forall f :: f in m.files ==> f < m.next)
  }

  /** Files stay cached as what they are, and the entry buffer keeps its size; the lookup of an index block never
      fails. */
  ghost predicate Keeps(m: Model, r: Outcome) {
    match r
    case Abort(why) => why != CacheMiss
    case Done(_) =>
      && m.files.Keys <= r.m.files.Keys && |r.m.nameBuf| == |m.nameBuf|
      && (Closed(m) ==> Closed(r.m) && SameKinds(m, r.m))
  }

  ghost predicate SameKinds(m: Model, m': Model) {
    forall f {:trigger m'.files[f]} :: f in m.files ==>
      f in m'.files && m'.files[f].kind == m.files[f].kind && m'.files[f].hino == m.files[f].hino
  }

  function Alloc(m: Model): Outcome {
    if m.next < m.ninos then Done(m.(next := m.next + 1)) else Abort(OutOfSpace)
  }

  /** Index blocks that appending to a file of n blocks brings into being. */
  function IndexNeeded(n: nat): nat {
    if n == NDIRECT then 1
    else if n == L1_NBLKS then 2
    else if n > L1_NBLKS && (n - L1_NBLKS) % NENTRY == 0 then 1
    else 0
  }

  function TakeIndex(m: Model, count: nat): (r: Outcome)
    ensures r.Done? ==> r.m == m.(next := m.next + count, index := r.m.index)
    ensures r.Abort? ==> r.why == OutOfSpace
    decreases count
  {
    if count == 0 then Done(m)
    else if m.next < m.ninos then TakeIndex(m.(next := m.next + 1, index := m.index + {m.next}), count - 1)
    else Abort(OutOfSpace)
  }

  function Longer(a: AFile, size: nat, b: nat): AFile {
    a.(size := a.size + size, blks := a.blks + [b])
  }

  function Append(m: Model, f: nat, size: nat, b: nat): (r: Outcome)
    requires f in m.files
    ensures Keeps(m, r)
  {
    var a := m.files[f];
    if |a.blks| >= LN_NBLKS then Abort(FileTooBig)
    else
      var m1 :- TakeIndex(m, IndexNeeded(|a.blks|));
      Done(m1.(files := m1.files[f := Longer(m1.files[f], size, b)]))
  }

  function Write(m: Model, b: nat, data: Bytes): Model
    requires |data| <= BLKSIZE
  {
    m.(blocks := m.blocks[b := Pad(data)])
  }

  /** nlinks is a uint16_t. */
  function LinkTo(m: Model, f: nat): Model
    requires f in m.files
  {
    m.(files := m.files[f := m.files[f].(nlinks := (m.files[f].nlinks + 1) % U16)])
  }

  function AddEntry(m: Model, d: nat, f: nat, name: Bytes): (r: Outcome)
    requires d in m.files && f in m.files && |name| <= MAX_FNAME_LEN && |m.nameBuf| == 256
    ensures Keeps(m, r)
  {
    var buf := Strcpy(m.nameBuf, name);
    var m1 :- Alloc(m.(nameBuf := buf));
    var m2 :- Append(Write(m1, m.next, EntryBytes(f, buf)).(named := m1.named[m.next := f]), d, 256, m.next);
    Done(LinkTo(m2, f))
  }

  /** alloc_cache_inode for a node that has no number yet; it gets the number m.next. */
  function NewInode(m: Model, hino: nat, kind: Kind): (r: Outcome)
    ensures Keeps(m, r)
    ensures r.Done? ==> m.next in r.m.files
  {
    var m1 :- Alloc(m);
    Done(m1.(files := m1.files[m.next := AFile(kind, hino, 0, 0, [])], byHost := m1.byHost[hino := m.next]))
  }

  ghost predicate IsDir(m: Model, d: nat) {
    d in m.files && m.files[d].kind == DirKind
  }

  function Chunk(data: Bytes): nat {
    if |data| < BLKSIZE then |data| else BLKSIZE
  }

  /** The loop of open_file, from the bytes not yet read on. */
  function AppendData(m: Model, f: nat, data: Bytes): (r: Outcome)
    requires f in m.files
    ensures Keeps(m, r)
    decreases |data|
  {
    if data == [] then Done(m)
    else
      var n := Chunk(data);
      var m1 :- Alloc(m);
      var m2 :- Append(Write(m1, m.next, data[..n]), f, n, m.next);
      AppendData(m2, f, data[n..])
  }

  /** open_link; readlink fills the whole buffer when the target does not fit. */
  function AppendTarget(m: Model, f: nat, target: Bytes): (r: Outcome)
    requires f in m.files
    ensures Keeps(m, r)
  {
    var m1 :- Alloc(m);
    if |target| >= BLKSIZE then Abort(LinkTooLong)
    else Append(Write(m1, m.next, target), f, |target|, m.next)
  }

  ghost predicate Ready(m: Model, d: nat) {
    d in m.files && |m.nameBuf| == 256 && Closed(m)
  }

  function MakeFile(m: Model, hino: nat, data: Bytes): (r: Outcome)
    ensures Keeps(m, r) && (r.Done? ==> m.next in r.m.files)
  {
    var m1 :- NewInode(m, hino, FileKind);
    AppendData(m1, m.next, data)
  }

  function AddFile(m: Model, d: nat, name: Bytes, hino: nat, data: Bytes): (r: Outcome)
    requires Ready(m, d) && |name| <= MAX_FNAME_LEN
    ensures Keeps(m, r)
  {
    if hino in m.byHost then AddEntry(m, d, m.byHost[hino], name)
    else
      var m1 :- MakeFile(m, hino, data);
      AddEntry(m1, d, m.next, name)
  }

  function MakeLink(m: Model, hino: nat, target: Bytes): (r: Outcome)
    ensures Keeps(m, r) && (r.Done? ==> m.next in r.m.files)
  {
    var m1 :- NewInode(m, hino, LinkKind);
    AppendTarget(m1, m.next, target)
  }

  /** There is no search here: a symbolic link with several names gets one inode for each. */
  function AddLink(m: Model, d: nat, name: Bytes, hino: nat, target: Bytes): (r: Outcome)
    requires Ready(m, d) && |name| <= MAX_FNAME_LEN
    ensures Keeps(m, r)
  {
    var m1 :- MakeLink(m, hino, target);
    AddEntry(m1, d, m.next, name)
  }

  function MakeDir(m: Model, parent: nat, hino: nat, listing: Listing): (r: Outcome)
    requires Ready(m, parent)
    ensures Keeps(m, r) && (r.Done? ==> m.next in r.m.files)
    decreases listing, 2
  {
    if hino in m.byHost then Abort(DirectorySeenBefore)
    else
      var m1 :- NewInode(m, hino, DirKind);
      OpenDir(m1, m.next, parent, listing)
  }

  function AddDir(m: Model, d: nat, name: Bytes, hino: nat, listing: Listing): (r: Outcome)
    requires Ready(m, d) && |name| <= MAX_FNAME_LEN
    ensures Keeps(m, r)
    decreases listing, 3
  {
    var m1 :- MakeDir(m, d, hino, listing);
    AddEntry(m1, d, m.next, name)
  }

  function AddDots(m: Model, d: nat, parent: nat): (r: Outcome)
    requires Ready(m, d) && parent in m.files
    ensures Keeps(m, r)
  {
    var m1 :- AddEntry(m, d, d, DOT);
    AddEntry(m1, d, parent, DOTDOT)
  }

  function OpenDir(m: Model, d: nat, parent: nat, listing: Listing): (r: Outcome)
    requires Ready(m, d) && parent in m.files
    ensures Keeps(m, r)
    decreases listing, 1
  {
    var m1 :- AddDots(m, d, parent);
    Walk(m1, d, listing)
  }

  const DOT: Bytes := [46]
  const DOTDOT: Bytes := [46, 46]

  predicate Hidden(name: Bytes) {
    name != [] && name[0] == 46
  }

  /** The loop of open_dir, from the directory entries not yet read on. */
  function Walk(m: Model, d: nat, listing: Listing): (r: Outcome)
    requires Ready(m, d)
    ensures Keeps(m, r)
    decreases listing, 0
  {
    match listing
    case End => Done(m)
    case Item(name, node, rest) =>
      var m1 :- AddNode(m, d, name, node);
      Walk(m1, d, rest)
  }

  function AddNode(m: Model, d: nat, name: Bytes, node: Host): (r: Outcome)
    requires Ready(m, d)
    ensures Keeps(m, r)
    decreases node, 4
  {
    if Hidden(name) then Done(m)
    else if |name| > MAX_FNAME_LEN then Abort(NameTooLong)
    else
      match node
      case File(hino, data) => AddFile(m, d, name, hino, data)
      case Link(hino, target) => AddLink(m, d, name, hino, target)
      case Dir(hino, listing) => AddDir(m, d, name, hino, listing)
      case Socket => Abort(OpenFailed)
      case Special => Done(m)
  }
}
