/** Every run of the image builder is a sequence of three kinds of steps. What
    each of them keeps holds in every state of every run: who owns which block,
    how many blocks are in use, and what the link counts say.
 */
module SfsRun {
  import opened Octets
  import opened SfsLayout
  import opened SfsModel
  import opened SfsImage

  datatype Step =
    | NewNode(hino: nat, kind: Kind)
    | PutData(f: nat, data: Bytes)              // one turn of the read loop, or the target of a link
    | PutEntry(d: nat, f: nat, name: Bytes)

  /** What the builder sees to before a step; a file or directory gets an inode only if its number was not met. */
  ghost predicate Allowed(m: Model, s: Step) {
    match s
    case NewNode(hino, kind) => kind == LinkKind || hino !in m.byHost
    case PutData(f, data) => f in m.files && m.files[f].kind != DirKind && |data| <= BLKSIZE
    case PutEntry(d, f, name) =>
      d in m.files && m.files[d].kind == DirKind && f in m.files && |name| <= MAX_FNAME_LEN && |m.nameBuf| == 256
  }

  function PutBlock(m: Model, f: nat, data: Bytes): Outcome
    requires f in m.files && |data| <= BLKSIZE
  {
    var m1 :- Alloc(m);
    Append(Write(m1, m.next, data), f, |data|, m.next)
  }

  ghost function Take(m: Model, s: Step): Outcome
    requires Allowed(m, s)
  {
    match s
    case NewNode(hino, kind) => NewInode(m, hino, kind)
    case PutData(f, data) => PutBlock(m, f, data)
    case PutEntry(d, f, name) => AddEntry(m, d, f, name)
  }

  ghost predicate Reaches(m: Model, steps: seq<Step>, m': Model)
    decreases |steps|
  {
    if steps == [] then m' == m
    else Allowed(m, steps[0]) && Take(m, steps[0]).Done? && Reaches(Take(m, steps[0]).m, steps[1..], m')
  }

  lemma {:induction false} ThenReaches(m: Model, a: seq<Step>, m1: Model, b: seq<Step>, m2: Model)
    requires Reaches(m, a, m1) && Reaches(m1, b, m2)
    ensures Reaches(m, a + b, m2)
    decreases |a|
  {
    if a == [] {
      assert a + b == b;
    } else {
      var c, m' := a + b, Take(m, a[0]).m;
      assert c[0] == a[0] && c[1..] == a[1..] + b;
      ThenReaches(m', a[1..], m1, b, m2);
      assert Reaches(m', c[1..], m2);
    }
  }

  lemma OneStep(m: Model, s: Step)
    requires Allowed(m, s) && Take(m, s).Done?
    ensures Reaches(m, [s], Take(m, s).m)
  {
    assert [s][1..] == [];
  }

  // ---------- the operations of the builder are runs ----------

  /** The walk comes across this node; it does not look into directories it passes over. */
  ghost predicate Occurs(listing: Listing, name: Name, node: Host)
    decreases listing
  {
    match listing
    case End => false
    case Item(n, x, rest) =>
      || (n == name && x == node)
      || (!Hidden(n) && x.Dir? && Occurs(x.listing, name, node))
      || Occurs(rest, name, node)
  }

  ghost predicate Within(part: Listing, whole: Listing) {
    forall name, node :: Occurs(part, name, node) ==> Occurs(whole, name, node)
  }

  /** The inode of a link was made, and there is a block for its target. */
  ghost predicate LinkBegun(m: Model, hino: nat) {
    hino in m.byHost && m.byHost[hino] in m.files && m.files[m.byHost[hino]] == AFile(LinkKind, hino, 0, 0, [])
    && m.next < m.ninos
  }

  /** A check between the steps fails in state m, for the node that is being taken. */
  ghost predicate Refused(m: Model, name: Name, node: Host, why: Bug) {
    !Hidden(name)
    && match why
       case NameTooLong => |name| > MAX_FNAME_LEN
       case LinkTooLong => |name| <= MAX_FNAME_LEN && node.Link? && |node.target| >= BLKSIZE && LinkBegun(m, node.hino)
       case OpenFailed => |name| <= MAX_FNAME_LEN && node.Socket?
       case DirectorySeenBefore => |name| <= MAX_FNAME_LEN && node.Dir? && node.hino in m.byHost
       case _ => false
  }

  /** Why a walk of the listing stands still in state m: a step that can be tried fails, or a check of a node. */
  ghost predicate Stuck(m: Model, listing: Listing, why: Bug) {
    || (exists s :: Allowed(m, s) && Take(m, s) == Abort(why))
    || (exists name, node :: Occurs(listing, name, node) && Refused(m, name, node, why))
  }

  /** The steps lead from m to last. Where r comes to its end, that is its state; otherwise the walk of the listing
      stands still there. */
  ghost predicate RunsTo(m: Model, steps: seq<Step>, last: Model, listing: Listing, r: Outcome) {
    Reaches(m, steps, last) && if r.Done? then last == r.m else Stuck(last, listing, r.why)
  }

  lemma TakeRuns(m: Model, s: Step) returns (steps: seq<Step>, last: Model)
    requires Allowed(m, s)
    ensures RunsTo(m, steps, last, End, Take(m, s))
  {
    if Take(m, s).Done? {
      OneStep(m, s);
      steps, last := [s], Take(m, s).m;
    } else {
      steps, last := [], m;
    }
  }

  lemma DataStep(m: Model, f: nat, data: Bytes)
    requires f in m.files && data != []
    ensures var n := Chunk(data);
      if PutBlock(m, f, data[..n]).Done? then AppendData(m, f, data) ==
          AppendData(PutBlock(m, f, data[..n]).m, f, data[n..])
      else AppendData(m, f, data).Abort?
  {
  }

  /** What comes after the steps of a. */
  lemma RunsOn(m: Model, a: seq<Step>, m1: Model, b: seq<Step>, last: Model, part: Listing, r: Outcome, whole: Listing)
    requires Reaches(m, a, m1) && RunsTo(m1, b, last, part, r) && Within(part, whole)
    ensures RunsTo(m, a + b, last, whole, r)
  {
    ThenReaches(m, a, m1, b, last);
  }

  lemma RunsIn(m: Model, steps: seq<Step>, last: Model, part: Listing, r: Outcome, whole: Listing)
    requires RunsTo(m, steps, last, part, r) && Within(part, whole)
    ensures RunsTo(m, steps, last, whole, r)
  {
  }

  lemma {:induction false} DataRuns(m: Model, f: nat, data: Bytes) returns (steps: seq<Step>, last: Model)
    requires f in m.files && m.files[f].kind != DirKind
    ensures RunsTo(m, steps, last, End, AppendData(m, f, data))
    decreases |data|
  {
    if data == [] {
      steps, last := [], m;
    } else {
      var n := Chunk(data);
      var s := PutData(f, data[..n]);
      steps, last := TakeRuns(m, s);
      if Take(m, s).Done? {
        var a, m1 := steps, last;
        steps, last := DataRuns(m1, f, data[n..]);
        RunsOn(m, a, m1, steps, last, End, AppendData(m, f, data), End);
        steps := a + steps;
      }
    }
  }

  /** An entry, after the steps of a. */
  lemma EntryRuns(m: Model, a: seq<Step>, m1: Model, d: nat, f: nat, name: Bytes)
    returns (steps: seq<Step>, last: Model)
    requires Reaches(m, a, m1) && Allowed(m1, PutEntry(d, f, name))
    ensures RunsTo(m, steps, last, End, AddEntry(m1, d, f, name))
  {
    steps, last := TakeRuns(m1, PutEntry(d, f, name));
    RunsOn(m, a, m1, steps, last, End, AddEntry(m1, d, f, name), End);
    steps := a + steps;
  }

  lemma MakeFileRuns(m: Model, hino: nat, data: Bytes) returns (steps: seq<Step>, last: Model)
    requires hino !in m.byHost
    ensures RunsTo(m, steps, last, End, MakeFile(m, hino, data))
  {
    steps, last := TakeRuns(m, NewNode(hino, FileKind));
    if NewInode(m, hino, FileKind).Done? {
      var a, m1 := steps, last;
      steps, last := DataRuns(m1, m.next, data);
      RunsOn(m, a, m1, steps, last, End, MakeFile(m, hino, data), End);
      steps := a + steps;
    }
  }

  lemma FileRuns(m: Model, d: nat, name: Bytes, hino: nat, data: Bytes) returns (steps: seq<Step>, last: Model)
    requires Ready(m, d) && IsDir(m, d) && |name| <= MAX_FNAME_LEN
    ensures RunsTo(m, steps, last, End, AddFile(m, d, name, hino, data))
  {
    if hino in m.byHost {
      steps, last := EntryRuns(m, [], m, d, m.byHost[hino], name);
    } else {
      steps, last := MakeFileRuns(m, hino, data);
      if MakeFile(m, hino, data).Done? {
        steps, last := EntryRuns(m, steps, last, d, m.next, name);
      }
    }
  }

  function Only(name: Name, node: Host): Listing {
    Item(name, node, End)
  }

  lemma OnlyIn(name: Name, node: Host, rest: Listing)
    ensures Within(Only(name, node), Item(name, node, rest)) && Within(rest, Item(name, node, rest))
    ensures Occurs(Only(name, node), name, node)
    ensures !Hidden(name) && node.Dir? ==> Within(node.listing, Only(name, node))
  {
  }

  lemma TargetRuns(m: Model, f: nat, name: Name, hino: nat, target: Bytes) returns (steps: seq<Step>, last: Model)
    requires !Hidden(name) && |name| <= MAX_FNAME_LEN && hino in m.byHost && m.byHost[hino] == f
    requires f in m.files && m.files[f] == AFile(LinkKind, hino, 0, 0, [])
    ensures RunsTo(m, steps, last, Only(name, Link(hino, target)), AppendTarget(m, f, target))
  {
    if |target| < BLKSIZE {
      steps, last := TakeRuns(m, PutData(f, target));
      RunsIn(m, steps, last, End, AppendTarget(m, f, target), Only(name, Link(hino, target)));
    } else {
      steps, last := [], m;
      if m.next >= m.ninos {
        assert Take(m, PutData(f, [])) == Abort(OutOfSpace);
      } else {
        OnlyIn(name, Link(hino, target), End);
        assert Refused(m, name, Link(hino, target), LinkTooLong);
      }
    }
  }

  lemma MakeLinkRuns(m: Model, name: Name, hino: nat, target: Bytes) returns (steps: seq<Step>, last: Model)
    requires !Hidden(name) && |name| <= MAX_FNAME_LEN
    ensures RunsTo(m, steps, last, Only(name, Link(hino, target)), MakeLink(m, hino, target))
  {
    var node := Link(hino, target);
    steps, last := TakeRuns(m, NewNode(hino, LinkKind));
    if NewInode(m, hino, LinkKind).Done? {
      var a, m1 := steps, last;
      steps, last := TargetRuns(m1, m.next, name, hino, target);
      RunsOn(m, a, m1, steps, last, Only(name, node), MakeLink(m, hino, target), Only(name, node));
      steps := a + steps;
    }
  }

  lemma LinkRuns(m: Model, d: nat, name: Name, hino: nat, target: Bytes) returns (steps: seq<Step>, last: Model)
    requires Ready(m, d) && IsDir(m, d) && !Hidden(name) && |name| <= MAX_FNAME_LEN
    ensures RunsTo(m, steps, last, Only(name, Link(hino, target)), AddLink(m, d, name, hino, target))
  {
    steps, last := MakeLinkRuns(m, name, hino, target);
    if MakeLink(m, hino, target).Done? {
      steps, last := EntryRuns(m, steps, last, d, m.next, name);
    }
  }

  lemma DotsRun(m: Model, d: nat, parent: nat) returns (steps: seq<Step>, last: Model)
    requires Ready(m, d) && IsDir(m, d) && IsDir(m, parent)
    ensures RunsTo(m, steps, last, End, AddDots(m, d, parent))
  {
    steps, last := EntryRuns(m, [], m, d, d, DOT);
    if AddEntry(m, d, d, DOT).Done? {
      steps, last := EntryRuns(m, steps, last, d, parent, DOTDOT);
    }
  }

  /** Every walk, whether it comes to its end or not, is a run of steps. */
  lemma DirRuns(m: Model, d: nat, parent: nat, listing: Listing) returns (steps: seq<Step>, last: Model)
    requires Ready(m, d) && IsDir(m, d) && IsDir(m, parent)
    ensures RunsTo(m, steps, last, listing, OpenDir(m, d, parent, listing))
    decreases listing, 1
  {
    steps, last := DotsRun(m, d, parent);
    if AddDots(m, d, parent).Done? {
      var a, m1 := steps, last;
      steps, last := WalkRuns(m1, d, listing);
      RunsOn(m, a, m1, steps, last, listing, OpenDir(m, d, parent, listing), listing);
      steps := a + steps;
    }
  }

  lemma WalkRuns(m: Model, d: nat, listing: Listing) returns (steps: seq<Step>, last: Model)
    requires Ready(m, d) && IsDir(m, d)
    ensures RunsTo(m, steps, last, listing, Walk(m, d, listing))
    decreases listing, 0
  {
    match listing
    case End => steps, last := [], m;
    case Item(name, node, rest) =>
      OnlyIn(name, node, rest);
      steps, last := NodeRuns(m, d, name, node);
      RunsIn(m, steps, last, Only(name, node), AddNode(m, d, name, node), listing);
      if AddNode(m, d, name, node).Done? {
        var a, m1 := steps, last;
        steps, last := WalkRuns(m1, d, rest);
        RunsOn(m, a, m1, steps, last, rest, Walk(m, d, listing), listing);
        steps := a + steps;
      }
  }

  lemma NodeRefused(m: Model, name: Name, node: Host, why: Bug)
    requires Refused(m, name, node, why)
    ensures RunsTo(m, [], m, Only(name, node), Abort(why))
  {
    OnlyIn(name, node, End);
  }

  lemma NodeRuns(m: Model, d: nat, name: Name, node: Host) returns (steps: seq<Step>, last: Model)
    requires Ready(m, d) && IsDir(m, d)
    ensures RunsTo(m, steps, last, Only(name, node), AddNode(m, d, name, node))
    decreases node, 4
  {
    steps, last := [], m;
    if !Hidden(name) && |name| > MAX_FNAME_LEN {
      NodeRefused(m, name, node, NameTooLong);
    } else if !Hidden(name) {
      match node
      case File(hino, data) =>
        steps, last := FileRuns(m, d, name, hino, data);
        RunsIn(m, steps, last, End, AddFile(m, d, name, hino, data), Only(name, node));
      case Link(hino, target) => steps, last := LinkRuns(m, d, name, hino, target);
      case Dir(hino, listing) => steps, last := SubdirRuns(m, d, name, hino, listing);
      case Socket => NodeRefused(m, name, node, OpenFailed);
      case Special =>
    }
  }

  lemma MakeDirRuns(m: Model, parent: nat, name: Name, hino: nat, listing: Listing)
    returns (steps: seq<Step>, last: Model)
    requires Ready(m, parent) && IsDir(m, parent) && !Hidden(name) && |name| <= MAX_FNAME_LEN
    ensures RunsTo(m, steps, last, Only(name, Dir(hino, listing)), MakeDir(m, parent, hino, listing))
    decreases listing, 2
  {
    var node := Dir(hino, listing);
    steps, last := [], m;
    if hino in m.byHost {
      NodeRefused(m, name, node, DirectorySeenBefore);
    } else {
      OnlyIn(name, node, End);
      steps, last := TakeRuns(m, NewNode(hino, DirKind));
      if NewInode(m, hino, DirKind).Done? {
        var a, m1 := steps, last;
        steps, last := DirRuns(m1, m.next, parent, listing);
        RunsOn(m, a, m1, steps, last, listing, MakeDir(m, parent, hino, listing), Only(name, node));
        steps := a + steps;
      }
    }
  }

  lemma SubdirRuns(m: Model, d: nat, name: Name, hino: nat, listing: Listing) returns (steps: seq<Step>, last: Model)
    requires Ready(m, d) && IsDir(m, d) && !Hidden(name) && |name| <= MAX_FNAME_LEN
    ensures RunsTo(m, steps, last, Only(name, Dir(hino, listing)), AddDir(m, d, name, hino, listing))
    decreases listing, 3
  {
    steps, last := MakeDirRuns(m, d, name, hino, listing);
    if MakeDir(m, d, hino, listing).Done? {
      steps, last := EntryRuns(m, steps, last, d, m.next, name);
      RunsIn(m, steps, last, End, AddDir(m, d, name, hino, listing), Only(name, Dir(hino, listing)));
    }
  }

  // ---------- what one step changes ----------

  lemma TakeIndexIs(m: Model, count: nat)
    requires TakeIndex(m, count).Done? && m.next <= m.ninos
    ensures var m' := TakeIndex(m, count).m;
      && m'.next == m.next + count <= m.ninos
      && m' == m.(next := m.next + count, index := m.index + Range(m.next, m.next + count))
    decreases count
  {
    if count > 0 {
      var m1 := m.(next := m.next + 1, index := m.index + {m.next});
      TakeIndexIs(m1, count - 1);
      RangeFirst(m.next, m.next + count);
      assert m.index + {m.next} + Range(m.next + 1, m.next + count) == m.index + Range(m.next, m.next + count);
    } else {
      assert m.index + Range(m.next, m.next) == m.index;
    }
  }
}
