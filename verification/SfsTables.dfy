/** The two hash tables of the image builder, as the numbers along their chains. */
module SfsTables {
  import opened Octets
  import opened SfsLayout
  import opened SfsModel
  import opened SfsBlockMap
  import opened SfsImage

  const HASH_LIST_SIZE: nat := 1024

  /** hash32; hash64 truncates its argument first. */
  function Hash(val: nat): (h: nat)
    ensures h < HASH_LIST_SIZE
  {
    val % U32 * 0x9e370001 % U32 / 0x40_0000
  }

  // ---------- hash chains ----------

  /** Walking one chain for a host inode number; 0 stands for NULL. */
  function FindInode(chain: seq<nat>, inodes: map<nat, CInode>, hino: nat): nat {
    if chain == [] then 0
    else if chain[0] in inodes && inodes[chain[0]].hino == hino then chain[0]
    else FindInode(chain[1..], inodes, hino)
  }

  /** Every cached inode is in the chain of its host number, and a search finds the one cached last under it. */
  ghost predicate InodeTable(chains: seq<seq<nat>>, inodes: map<nat, CInode>, byHost: map<nat, nat>) {
    && |chains| == HASH_LIST_SIZE
    && (forall h {:trigger NoneTwice(chains[h])} :: 0 <= h < |chains| ==> NoneTwice(chains[h]))
    && (forall h, k :: 0 <= h < |chains| && 0 <= k < |chains[h]| ==>
        chains[h][k] in inodes && Hash(inodes[chains[h][k]].hino) == h)
    && (forall i {:trigger chains[Hash(inodes[i].hino)]} :: i in inodes ==> i in chains[Hash(inodes[i].hino)])
    && (forall hino: nat :: FindInode(chains[Hash(hino)], inodes, hino) == if hino in byHost then byHost[hino] else 0)
  }

  /** alloc_cache_block hashes its argument, which is 0 for every fresh block: all of them are in one chain. */
  ghost predicate BlockTable(chains: seq<seq<nat>>, cache: map<nat, seq<nat>>) {
    && |chains| == HASH_LIST_SIZE
    && (forall h :: 0 <= h < |chains| && h != Hash(0) ==> chains[h] == [])
    && NoneTwice(chains[Hash(0)])
    && (forall b :: b in chains[Hash(0)] <==> b in cache)
  }

  /** The table only looks at the keys and the host numbers. */
  ghost predicate SameHinos(inodes: map<nat, CInode>, inodes': map<nat, CInode>) {
    inodes'.Keys == inodes.Keys && forall i :: i in inodes ==> inodes'[i].hino == inodes[i].hino
  }

  lemma InodeTableKept(chains: seq<seq<nat>>, inodes: map<nat, CInode>, inodes': map<nat, CInode>,
      byHost: map<nat, nat>)
    requires InodeTable(chains, inodes, byHost) && SameHinos(inodes, inodes')
    ensures InodeTable(chains, inodes', byHost)
  {
    forall hino: nat ensures FindInode(chains[Hash(hino)], inodes', hino) ==
        FindInode(chains[Hash(hino)], inodes, hino) {
      FindKept(chains[Hash(hino)], inodes, inodes', hino);
    }
  }

  lemma {:induction false} FindKept(chain: seq<nat>, inodes: map<nat, CInode>, inodes': map<nat, CInode>, hino: nat)
    requires SameHinos(inodes, inodes')
    ensures FindInode(chain, inodes', hino) == FindInode(chain, inodes, hino)
  {
    if chain != [] { FindKept(chain[1..], inodes, inodes', hino); }
  }

  lemma InodeTableAdd(chains: seq<seq<nat>>, inodes: map<nat, CInode>, byHost: map<nat, nat>, ino: nat, c: CInode)
    requires InodeTable(chains, inodes, byHost) && ino !in inodes
    ensures var h := Hash(c.hino);
      InodeTable(chains[h := [ino] + chains[h]], inodes[ino := c], byHost[c.hino := ino])
  {
    var h := Hash(c.hino);
    var chains', inodes' := chains[h := [ino] + chains[h]], inodes[ino := c];
    forall hino: nat ensures FindInode(chains'[Hash(hino)], inodes', hino) ==
                             if hino == c.hino then ino else FindInode(chains[Hash(hino)], inodes, hino) {
      FindElsewhere(chains[Hash(hino)], inodes, ino, c, hino);
    }
    forall i | i in inodes' ensures i in chains'[Hash(inodes'[i].hino)] {
      if i != ino { assert i in chains[Hash(inodes[i].hino)]; }
    }
    forall k | 0 <= k < |chains'| ensures NoneTwice(chains'[k]) {
      assert NoneTwice(chains[k]);
    }
  }

  function EmptyChains(): (chains: seq<seq<nat>>)
    ensures |chains| == HASH_LIST_SIZE && forall h :: 0 <= h < HASH_LIST_SIZE ==> chains[h] == []
  {
    seq(HASH_LIST_SIZE, _ => [])
  }

  lemma FreshTables()
    ensures BlockTable(EmptyChains(), map[]) && InodeTable(EmptyChains(), map[], map[])
  {
    assert NoneTwice([]);
  }

  lemma {:induction false} FindElsewhere(chain: seq<nat>, inodes: map<nat, CInode>, ino: nat, c: CInode, hino: nat)
    requires forall k :: 0 <= k < |chain| ==> chain[k] in inodes
    requires ino !in inodes
    ensures FindInode(chain, inodes[ino := c], hino) == FindInode(chain, inodes, hino)
  {
    if chain != [] { FindElsewhere(chain[1..], inodes, ino, c, hino); }
  }

  lemma BlockTableAdd(chains: seq<seq<nat>>, cache: map<nat, seq<nat>>, cb: nat)
    requires BlockTable(chains, cache) && cb !in cache
    ensures BlockTable(chains[Hash(0) := [cb] + chains[Hash(0)]], cache[cb := EmptyIndexBlock()])
  {
  }

  // ---------- flushing ----------

  /** The chains of both tables below h, in the order close_sfs flushes them. */
  ghost function FlushOrder(blockChains: seq<seq<nat>>, inodeChains: seq<seq<nat>>, h: nat): seq<nat>
    requires h <= |blockChains| && h <= |inodeChains|
  {
    if h == 0 then []
    else FlushOrder(blockChains, inodeChains, h - 1) + blockChains[h - 1] + inodeChains[h - 1]
  }

  lemma JoinDistinct(a: seq<nat>, b: seq<nat>)
    requires NoneTwice(a) && NoneTwice(b) && forall x :: x in a ==> x !in b
    ensures NoneTwice(a + b)
  {
    forall k, k' | 0 <= k < k' < |a + b| ensures (a + b)[k] != (a + b)[k'] {
      if k < |a| <= k' { assert (a + b)[k] in a && (a + b)[k'] in b; }
    }
  }

  ghost predicate InChain(chains: seq<seq<nat>>, h: nat, b: nat) {
    h < |chains| && b in chains[h]
  }

  /** No number is in two chains. */
  ghost predicate Apart(chains: seq<seq<nat>>) {
    && (forall h {:trigger NoneTwice(chains[h])} :: 0 <= h < |chains| ==> NoneTwice(chains[h]))
    && forall g, h, b {:trigger InChain(chains, g, b), InChain(chains, h, b)} ::
         InChain(chains, g, b) && InChain(chains, h, b) ==> g == h
  }

  /** The chains below h. */
  ghost predicate InChains(chains: seq<seq<nat>>, h: nat, b: nat) {
    exists g: nat :: g < h && InChain(chains, g, b)
  }

  lemma {:induction false} FlushOnce(blockChains: seq<seq<nat>>, inodeChains: seq<seq<nat>>, h: nat)
    requires h <= |blockChains| && h <= |inodeChains| && Apart(blockChains) && Apart(inodeChains)
    requires forall b :: !InChains(blockChains, |blockChains|, b) || !InChains(inodeChains, |inodeChains|, b)
    ensures NoneTwice(FlushOrder(blockChains, inodeChains, h))
    ensures forall b :: b in FlushOrder(blockChains, inodeChains, h) <==>
        InChains(blockChains, h, b) || InChains(inodeChains, h, b)
  {
    if h > 0 {
      FlushOnce(blockChains, inodeChains, h - 1);
      var done, cbs, cis := FlushOrder(blockChains, inodeChains, h - 1), blockChains[h - 1], inodeChains[h - 1];
      forall b ensures b in cbs ==> InChains(blockChains, h, b) && b !in done {
        if b in cbs { assert InChain(blockChains, h - 1, b); assert InChains(blockChains, |blockChains|, b); }
      }
      forall b ensures b in cis ==> InChains(inodeChains, h, b) && b !in done && b !in cbs {
        if b in cis { assert InChain(inodeChains, h - 1, b); assert InChains(inodeChains, |inodeChains|, b); }
      }
      assert NoneTwice(cbs) && NoneTwice(cis);
      JoinDistinct(done, cbs);
      JoinDistinct(done + cbs, cis);
      forall b ensures b in done + cbs + cis <==> InChains(blockChains, h, b) || InChains(inodeChains, h, b) {
        InChainsStep(blockChains, h, b);
        InChainsStep(inodeChains, h, b);
      }
    }
  }

  lemma InChainsStep(chains: seq<seq<nat>>, h: nat, b: nat)
    requires 0 < h <= |chains|
    ensures InChains(chains, h, b) <==> InChains(chains, h - 1, b) || b in chains[h - 1]
  {
    if b in chains[h - 1] { assert InChain(chains, h - 1, b); }
  }

  lemma BlockTableLists(chains: seq<seq<nat>>, cache: map<nat, seq<nat>>)
    requires BlockTable(chains, cache)
    ensures Apart(chains) && forall b :: InChains(chains, |chains|, b) <==> b in cache
  {
    forall b ensures InChains(chains, |chains|, b) <==> b in cache {
      if b in cache { assert InChain(chains, Hash(0), b); }
    }
    assert forall g, b :: InChain(chains, g, b) ==> g == Hash(0);
    assert NoneTwice([]);
  }

  lemma InodeTableLists(chains: seq<seq<nat>>, inodes: map<nat, CInode>, byHost: map<nat, nat>)
    requires InodeTable(chains, inodes, byHost)
    ensures Apart(chains) && forall i :: InChains(chains, |chains|, i) <==> i in inodes
  {
    forall h: nat, i: nat | InChain(chains, h, i) ensures i in inodes && Hash(inodes[i].hino) == h {
      var k :| 0 <= k < |chains[h]| && chains[h][k] == i;
    }
    forall i ensures InChains(chains, |chains|, i) <==> i in inodes {
      if i in inodes { assert InChain(chains, Hash(inodes[i].hino), i); }
    }
  }

  /** The last loop of close_sfs passes every cached index block and inode once. */
  lemma FlushesAllOnce(blockChains: seq<seq<nat>>, inodeChains: seq<seq<nat>>, cache: map<nat, seq<nat>>,
                       inodes: map<nat, CInode>, byHost: map<nat, nat>)
    requires BlockTable(blockChains, cache) && InodeTable(inodeChains, inodes, byHost) && cache.Keys !! inodes.Keys
    ensures var list := FlushOrder(blockChains, inodeChains, |blockChains|);
      NoneTwice(list) && forall b :: b in list <==> b in cache || b in inodes
  {
    BlockTableLists(blockChains, cache);
    InodeTableLists(inodeChains, inodes, byHost);
    FlushOnce(blockChains, inodeChains, |blockChains|);
  }

  /** All that close_sfs writes, in order. */
  ghost function CloseOrder(ninos: nat, blockChains: seq<seq<nat>>, inodeChains: seq<seq<nat>>): seq<nat>
    requires |blockChains| == |inodeChains| == HASH_LIST_SIZE
  {
    Upto(BLKN_FREEMAP, FirstFree(ninos)) + [BLKN_SUPER] + FlushOrder(blockChains, inodeChains, |blockChains|)
  }

  /** Block numbers that close_sfs has something for. */
  ghost predicate Closes(m: Model, b: nat) {
    b == BLKN_SUPER || BLKN_FREEMAP <= b < FirstFree(m.ninos) || b in m.index || b in m.files
  }

  lemma ClosesOnce(m: Model, blockChains: seq<seq<nat>>, inodeChains: seq<seq<nat>>, inodes: map<nat, CInode>,
      cache: map<nat, seq<nat>>)
    requires Partitioned(m) && inodes.Keys == m.files.Keys && cache.Keys == m.index
    requires BlockTable(blockChains, cache) && InodeTable(inodeChains, inodes, m.byHost)
    ensures NoneTwice(CloseOrder(m.ninos, blockChains, inodeChains))
    ensures forall b: nat :: b in CloseOrder(m.ninos, blockChains, inodeChains) <==> Closes(m, b)
  {
    var first, rest := Upto(BLKN_FREEMAP, FirstFree(m.ninos)), FlushOrder(blockChains, inodeChains, |blockChains|);
    FlushesAllOnce(blockChains, inodeChains, cache, inodes, m.byHost);
    AllocatedIs(m);
    UptoHolds(BLKN_FREEMAP, FirstFree(m.ninos));
    JoinDistinct(first, [BLKN_SUPER]);
    assert forall b: nat :: b in rest ==> b in Allocated(m);
    JoinDistinct(first + [BLKN_SUPER], rest);
  }

  lemma UptoHolds(lo: nat, hi: nat)
    requires lo <= hi
    ensures NoneTwice(Upto(lo, hi)) && forall b: nat :: b in Upto(lo, hi) <==> lo <= b < hi
  {
    forall b: nat | lo <= b < hi ensures b in Upto(lo, hi) {
      assert Upto(lo, hi)[b - lo] == b;
    }
  }

  /** Writing each block of content once, to places not written yet. */
  lemma PutAll(img: Image, log: seq<nat>, list: seq<nat>, content: Image)
    requires WrittenOnce(log, img) && NoneTwice(list)
    requires forall b: nat :: b in list <==> b in content
    requires forall b :: b in list ==> b !in img
    ensures Put(img, list, content) == img + content && WrittenOnce(log + list, img + content)
  {
    PutOnce(log, img, list, content);
    PutHolds(img, list, content);
    assert Put(img, list, content) == img + content;
  }

  lemma BlocksAndRest(m: Model, content: Image)
    requires Partitioned(m) && forall b: nat :: b in content <==> Closes(m, b)
    ensures (m.blocks + content).Keys == Range(0, m.next)
    ensures forall b :: b in m.blocks ==> b !in content
  {
    AllocatedIs(m);
    var img := m.blocks + content;
    forall b: nat ensures b in img <==> b in Range(0, m.next) {
      assert b in Allocated(m) <==> b in m.blocks || b in m.files || b in m.index;
    }
    forall b | b in m.blocks ensures b !in content {
      assert b in Allocated(m);
    }
  }

  /** Every block number below next, and only those, is written once: now or when its data came. */
  lemma CloseWritesTheRest(m: Model, log: seq<nat>, list: seq<nat>, content: Image)
    requires Partitioned(m) && WrittenOnce(log, m.blocks)
    requires NoneTwice(list) && forall b: nat :: b in list <==> Closes(m, b)
    requires forall b: nat :: b in content <==> Closes(m, b)
    ensures Put(m.blocks, list, content) == m.blocks + content
    ensures multiset(log + list) == multiset(Range(0, m.next))
  {
    BlocksAndRest(m, content);
    PutAll(m.blocks, log, list, content);
  }

  lemma AllocatedIs(m: Model)
    requires Partitioned(m)
    ensures forall b: nat :: b in Allocated(m) <==> b == BLKN_ROOT || FirstFree(m.ninos) <= b < m.next
    ensures forall b: nat :: b in Range(0, m.next) <==> b < m.next
  {
    forall b: nat ensures b in Range(FirstFree(m.ninos), m.next) <==> FirstFree(m.ninos) <= b < m.next {
      assert Within(FirstFree(m.ninos), b, m.next) <==> FirstFree(m.ninos) <= b < m.next;
    }
    forall b: nat ensures b in Range(0, m.next) <==> b < m.next {
      assert Within(0, b, m.next) <==> b < m.next;
    }
  }

  lemma ContentKeys(inodes: map<nat, CInode>, cache: map<nat, seq<nat>>, m: Model, super: Bytes)
    requires Flushable(inodes, cache)
    ensures forall b: nat :: b in CloseContent(inodes, cache, m, super) <==>
      b == BLKN_SUPER || BLKN_FREEMAP <= b < FirstFree(m.ninos) || b in cache || b in inodes
  {
    forall b: nat ensures b in FreeMapContent(m) <==> BLKN_FREEMAP <= b < FirstFree(m.ninos) {
      assert Within(BLKN_FREEMAP, b, FirstFree(m.ninos)) <==> BLKN_FREEMAP <= b < FirstFree(m.ninos);
    }
  }

  /** Nothing close_sfs writes is for the same block as something else. */
  lemma ContentHolds(inodes: map<nat, CInode>, cache: map<nat, seq<nat>>, m: Model, super: Bytes)
    requires Flushable(inodes, cache) && Partitioned(m) && inodes.Keys == m.files.Keys && cache.Keys == m.index
    ensures var content := CloseContent(inodes, cache, m, super);
      && FreeMapHolds(content, m) && content[BLKN_SUPER] == super
      && (forall b :: b in cache ==> b in content && content[b] == Pad(Words(cache[b])))
      && (forall i :: i in inodes ==> i in content && content[i] == Pad(InodeBytes(inodes[i].inode)))
  {
    AllocatedIs(m);
    assert BLKN_SUPER !in Allocated(m);
    FreeMapIsThere(inodes, cache, m, super);
    CacheIsThere(inodes, cache, m, super);
    InodesAreThere(inodes, cache, m, super);
  }

  lemma FreeMapIsThere(inodes: map<nat, CInode>, cache: map<nat, seq<nat>>, m: Model, super: Bytes)
    requires Flushable(inodes, cache) && Partitioned(m) && inodes.Keys == m.files.Keys && cache.Keys == m.index
    ensures FreeMapHolds(CloseContent(inodes, cache, m, super), m)
  {
    AllocatedIs(m);
    var content := CloseContent(inodes, cache, m, super);
    forall b: nat | BLKN_FREEMAP <= b < FirstFree(m.ninos) ensures FreeMapBlockHolds(content, m, b) {
      assert Within(BLKN_FREEMAP, b, FirstFree(m.ninos));
      assert b !in Allocated(m);
    }
  }

  lemma CacheIsThere(inodes: map<nat, CInode>, cache: map<nat, seq<nat>>, m: Model, super: Bytes)
    requires Flushable(inodes, cache) && Partitioned(m) && inodes.Keys == m.files.Keys && cache.Keys == m.index
    ensures var content := CloseContent(inodes, cache, m, super);
      forall b :: b in cache ==> b in content && content[b] == Pad(Words(cache[b]))
  {
  }

  lemma InodesAreThere(inodes: map<nat, CInode>, cache: map<nat, seq<nat>>, m: Model, super: Bytes)
    requires Flushable(inodes, cache)
    ensures var content := CloseContent(inodes, cache, m, super);
      forall i :: i in inodes ==> i in content && content[i] == Pad(InodeBytes(inodes[i].inode))
  {
  }

  /** What close_sfs does to the image of a state. */
  ghost predicate ClosedAs(img: Image, m: Model, inodes: map<nat, CInode>, cache: map<nat, seq<nat>>, info: Bytes) {
    && inodes.Keys == m.files.Keys && cache.Keys == m.index && Flushable(inodes, cache) && |info| == 32
        && m.next <= m.ninos
    && img == m.blocks + CloseContent(inodes, cache, m, Pad(SuperBytes(m.ninos, m.ninos - m.next, info)))
  }

  lemma PutThree(img: Image, a: seq<nat>, b: seq<nat>, c: seq<nat>, content: Image)
    ensures Put(Put(Put(img, a, content), b, content), c, content) == Put(img, a + b + c, content)
  {
    var ab := a + b;
    assert Put(Put(img, a, content), b, content) == Put(img, ab, content) by { PutTwice(img, a, b, content); }
    PutTwice(img, ab, c, content);
  }

  lemma JoinFour(a: seq<nat>, b: seq<nat>, c: seq<nat>, d: seq<nat>)
    ensures a + b + c + d == a + (b + c + d)
  {
  }

  /** After close_sfs every block below next was written once, and the image has in it what is cached. */
  lemma CloseFinishes(m: Model, log: seq<nat>, blockChains: seq<seq<nat>>, inodeChains: seq<seq<nat>>,
                      inodes: map<nat, CInode>, cache: map<nat, seq<nat>>, super: Bytes)
    requires Partitioned(m) && Flushable(inodes, cache) && inodes.Keys == m.files.Keys && cache.Keys == m.index
    requires BlockTable(blockChains, cache) && InodeTable(inodeChains, inodes, m.byHost) && WrittenOnce(log, m.blocks)
    ensures var list, content := CloseOrder(m.ninos, blockChains, inodeChains), CloseContent(inodes, cache, m, super);
      && Put(m.blocks, list, content) == m.blocks + content
      && multiset(log + list) == multiset(Range(0, m.next))
  {
    ContentKeys(inodes, cache, m, super);
    ClosesOnce(m, blockChains, inodeChains, inodes, cache);
    CloseWritesTheRest(m, log, CloseOrder(m.ninos, blockChains, inodeChains), CloseContent(inodes, cache, m, super));
  }

  ghost predicate CachedBlock(cache: map<nat, seq<nat>>, content: Image, ninos: nat, b: nat) {
    b in cache && b < ninos && |cache[b]| == NENTRY && b in content && content[b] == Pad(Words(cache[b]))
  }

  ghost predicate CachedInode(inodes: map<nat, CInode>, content: Image, ninos: nat, i: nat) {
    && i in inodes && i < ninos && |inodes[i].inode.direct| == NDIRECT
    && i in content && content[i] == Pad(InodeBytes(inodes[i].inode))
  }

  ghost predicate BlocksListed(cache: map<nat, seq<nat>>, content: Image, ninos: nat, chain: seq<nat>) {
    forall k {:trigger CachedBlock(cache, content, ninos, chain[k])} ::
      0 <= k < |chain| ==> CachedBlock(cache, content, ninos, chain[k])
  }

  ghost predicate InodesListed(inodes: map<nat, CInode>, content: Image, ninos: nat, chain: seq<nat>) {
    forall k {:trigger CachedInode(inodes, content, ninos, chain[k])} ::
      0 <= k < |chain| ==> CachedInode(inodes, content, ninos, chain[k])
  }

  /** Every entry of both tables is one that a flush of its chain writes as content says. */
  ghost predicate AllListed(blockChains: seq<seq<nat>>, inodeChains: seq<seq<nat>>, cache: map<nat, seq<nat>>,
                            inodes: map<nat, CInode>, content: Image, ninos: nat) {
    && |blockChains| == |inodeChains| == HASH_LIST_SIZE
    && forall h {:trigger blockChains[h]} {:trigger inodeChains[h]} :: 0 <= h < HASH_LIST_SIZE ==>
         BlocksListed(cache, content, ninos, blockChains[h]) && InodesListed(inodes, content, ninos, inodeChains[h])
  }

  lemma ChainsListed(m: Model, blockChains: seq<seq<nat>>, inodeChains: seq<seq<nat>>,
                     inodes: map<nat, CInode>, cache: map<nat, seq<nat>>, content: Image)
    requires BlockTable(blockChains, cache) && InodeTable(inodeChains, inodes, m.byHost) && Flushable(inodes, cache)
    requires forall b :: b in cache ==> b < m.ninos && b in content && content[b] == Pad(Words(cache[b]))
    requires forall i :: i in inodes ==> i < m.ninos && i in content && content[i] == Pad(InodeBytes(inodes[i].inode))
    ensures AllListed(blockChains, inodeChains, cache, inodes, content, m.ninos)
  {
    forall h | 0 <= h < HASH_LIST_SIZE ensures BlocksListed(cache, content, m.ninos, blockChains[h]) {
      assert forall k :: 0 <= k < |blockChains[h]| ==> blockChains[h][k] in cache;
    }
  }

  /** What close_sfs is to write, and the image it makes. */
  lemma ClosingOf(m: Model, log: seq<nat>, blockChains: seq<seq<nat>>, inodeChains: seq<seq<nat>>,
                  inodes: map<nat, CInode>, cache: map<nat, seq<nat>>, info: Bytes) returns (content: Image,
                      image: Image)
    requires Partitioned(m) && Flushable(inodes, cache) && inodes.Keys == m.files.Keys && cache.Keys == m.index
        && m.next <= m.ninos
    requires BlockTable(blockChains, cache) && InodeTable(inodeChains, inodes, m.byHost)
        && WrittenOnce(log, m.blocks) && |info| == 32
    ensures ClosedAs(image, m, inodes, cache, info) == true
    ensures FreeMapHolds(content, m) && BLKN_SUPER in content
        && content[BLKN_SUPER] == Pad(SuperBytes(m.ninos, m.ninos - m.next, info))
    ensures AllListed(blockChains, inodeChains, cache, inodes, content, m.ninos)
    ensures Put(m.blocks, CloseOrder(m.ninos, blockChains, inodeChains), content) == image
    ensures multiset(log + CloseOrder(m.ninos, blockChains, inodeChains)) == multiset(Range(0, m.next))
  {
    var super := Pad(SuperBytes(m.ninos, m.ninos - m.next, info));
    content := CloseContent(inodes, cache, m, super);
    image := m.blocks + content;
    assert ClosedAs(image, m, inodes, cache, info);
    ContentHolds(inodes, cache, m, super);
    AllocatedIs(m);
    assert forall b :: b in m.files || b in m.index ==> b in Allocated(m);
    ChainsListed(m, blockChains, inodeChains, inodes, cache, content);
    CloseFinishes(m, log, blockChains, inodeChains, inodes, cache, super);
  }
}
