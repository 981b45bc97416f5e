/** What an image must be for a host tree to fit in it, in plain numbers: closed formulas, with nothing of the tool's own
    steps and constants.
 */
module SfsLimits {
  import opened Octets
  import opened SfsLayout
  import opened SfsModel
  import opened SfsNumbers
  import opened SfsImage
  import opened SfsAccounting
  import opened SfsFit
  import opened SfsPlain

  /** n / k, rounded up. */
  function Ceil(n: nat, k: nat): nat
    requires k > 0
  {
    (n + k - 1) / k
  }

  /** Index blocks of n blocks. */
  function IndexBlocks(n: nat): nat {
    if n <= 12 then 0 else if n <= 1036 then 1 else 2 + Ceil(n - 1036, 1024)
  }

  /** The host numbers met, after this node. */
  function Met(met: set<nat>, name: Bytes, node: Host): set<nat>
    decreases node
  {
    if StartsWithDot(name) then met
    else
      match node
      case File(hino, _) => met + {hino}
      case Link(hino, _) => met + {hino}
      case Dir(hino, listing) => MetAll(met + {hino}, listing)
      case _ => met
  }

  function MetAll(met: set<nat>, listing: Listing): set<nat>
    decreases listing
  {
    match listing
    case End => met
    case Item(name, node, rest) => MetAll(Met(met, name, node), rest)
  }

  /** Entries of a directory, "." and ".." among them. */
  function EntryCount(listing: Listing): nat {
    2 + |KeptNames(listing)|
  }

  /** Names have at most 255 bytes, files that were not met before at most 128 MiB, link targets less than 4096 bytes,
      directories at most 32768 entries; no directory is met twice, and no socket at all. */
  predicate WithinLimits(met: set<nat>, listing: Listing)
    decreases listing
  {
    match listing
    case End => true
    case Item(name, node, rest) =>
      && (StartsWithDot(name) || (|name| <= 255 && NodeWithin(met, node)))
      && WithinLimits(Met(met, name, node), rest)
  }

  predicate NodeWithin(met: set<nat>, node: Host)
    decreases node
  {
    match node
    case File(hino, data) => hino in met || |data| <= 134217728
    case Link(_, target) => |target| < 4096
    case Dir(hino, listing) => hino !in met && EntryCount(listing) <= 32768 && WithinLimits(met + {hino}, listing)
    case Socket => false
    case Special => true
  }

  /** Blocks of a directory: its entries, their index blocks, and what is in it. */
  function DirBlocks(met: set<nat>, listing: Listing): nat
    decreases listing, 1
  {
    EntryCount(listing) + IndexBlocks(EntryCount(listing)) + Contents(met, listing)
  }

  function Contents(met: set<nat>, listing: Listing): nat
    decreases listing, 0
  {
    match listing
    case End => 0
    case Item(name, node, rest) =>
      (if StartsWithDot(name) then 0 else NodeBlocks(met, node)) + Contents(Met(met, name, node), rest)
  }

  /** An inode and its blocks; a file met before takes none. */
  function NodeBlocks(met: set<nat>, node: Host): nat
    decreases node
  {
    match node
    case File(hino, data) =>
      if hino in met then 0 else 1 + Ceil(|data|, 4096) + IndexBlocks(Ceil(|data|, 4096))
    case Link(_, _) => 2
    case Dir(hino, listing) => 1 + DirBlocks(met + {hino}, listing)
    case _ => 0
  }

  // ---------- the tool's own account ----------

  lemma {:induction false} MetIsSeen(met: set<nat>, listing: Listing)
    ensures MetAll(met, listing) == SeenAll(met, listing)
    decreases listing
  {
    match listing
    case End =>
    case Item(name, node, rest) =>
      NodeMetIsSeen(met, name, node);
      MetIsSeen(Met(met, name, node), rest);
  }

  lemma {:induction false} NodeMetIsSeen(met: set<nat>, name: Bytes, node: Host)
    ensures Met(met, name, node) == SeenNode(met, name, node)
    decreases node
  {
    if node.Dir? { MetIsSeen(met + {node.hino}, node.listing); }
  }

  lemma IndexBlocksAre(n: nat)
    ensures IndexBlocks(n) == IndexCount(n)
  {
  }

  /** Entry by entry, a walk takes what the closed formulas say. */
  lemma {:induction false} WalkIsClosed(met: set<nat>, n: nat, listing: Listing)
    ensures var k := |KeptNames(listing)|;
      WalkCost(met, n, listing) + IndexCount(n) == k + IndexCount(n + k) + Contents(met, listing)
    decreases listing, 0
  {
    match listing
    case End =>
    case Item(name, node, rest) =>
      NodeMetIsSeen(met, name, node);
      if Dropped(name, node) {
        WalkIsClosed(met, n, rest);
      } else {
        NodeIsClosed(met, node);
        WalkIsClosed(Met(met, name, node), n + 1, rest);
        IndexGrows(n);
      }
  }

  lemma {:induction false} OpenIsClosed(met: set<nat>, listing: Listing)
    ensures OpenCost(met, listing) == DirBlocks(met, listing)
    decreases listing, 1
  {
    WalkIsClosed(met, 2, listing);
    IndexBlocksAre(EntryCount(listing));
  }

  lemma {:induction false} NodeIsClosed(met: set<nat>, node: Host)
    ensures NodeCost(met, node) == NodeBlocks(met, node)
    decreases node, 2
  {
    match node
    case File(_, data) => IndexBlocksAre(Ceil(|data|, 4096));
    case Link(_, _) =>
    case Dir(hino, listing) => OpenIsClosed(met + {hino}, listing);
    case _ =>
  }

  lemma {:induction false} LimitsAre(met: set<nat>, n: nat, listing: Listing)
    ensures AllAllowed(met, n, listing) <==>
      WithinLimits(met, listing) && (KeptNames(listing) == [] || n + |KeptNames(listing)| <= 32768)
    decreases listing, 0
  {
    match listing
    case End =>
    case Item(name, node, rest) =>
      NodeMetIsSeen(met, name, node);
      if Dropped(name, node) {
        LimitsAre(Met(met, name, node), n, rest);
      } else {
        NodeLimitsAre(met, node);
        LimitsAre(Met(met, name, node), n + 1, rest);
      }
  }

  lemma {:induction false} NodeLimitsAre(met: set<nat>, node: Host)
    ensures NodeAllowed(met, node) <==> NodeWithin(met, node)
    decreases node, 1
  {
    match node
    case File(_, data) =>
    case Link(_, _) =>
    case Dir(hino, listing) => LimitsAre(met + {hino}, 2, listing);
    case _ =>
  }

  // ---------- the size of an image ----------

  /** As many blocks of 4096 bytes as fit in the file, modulo 2^32, and 524288 at most. */
  lemma BlocksFit(size: nat)
    ensures var n := BlockCount(size);
      && n * 4096 <= size && n <= 524288
      && (size < 4096 * 0x1_0000_0000 && n < 524288 ==> size < (n + 1) * 4096)
      && (524288 * 4096 <= size < 4096 * 0x1_0000_0000 ==> n == 524288)
  {
  }

  /** The free map takes the blocks from 2 on, as few as have a bit for every block. */
  lemma MapIsLeast(n: nat)
    ensures FirstFree(n) == 2 + Ceil(n, 32768)
    ensures n <= (FirstFree(n) - 2) * 32768 < n + 32768
  {
  }
}
