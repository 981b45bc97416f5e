/** The image builder of lab8/tools/mksfs.c in its own form: an object whose
    fields the methods reassign. Cached inodes and index blocks are entries of
    two tables, reached through hash chains and through the l1/l2 fields of the
    inodes. Each method is proved against the function of the same purpose in
    SfsModel.
 */
module Mksfs {
  import opened Octets
  import opened SfsLayout
  import opened Wrappers
  import opened SfsModel
  import opened SfsBlockMap
  import opened SfsImage
  import opened SfsTables

  function EmptyInode(kind: Kind): Inode {
    Inode(0, kind, 0, 0, seq(NDIRECT, _ => 0), 0, 0)
  }

  // ---------- the invariant ----------

  ghost predicate IndexTable(chains: seq<seq<nat>>, cache: map<nat, seq<nat>>, role: map<nat, Role>, index: set<nat>) {
    && cache.Keys == role.Keys == index && BlockTable(chains, cache)
    && forall b :: b in cache ==> |cache[b]| == NENTRY
  }

  /** Block numbers in use are neither 0 nor past the allocator. */
  ghost predicate Numbered(m: Model) {
    && m.ninos <= MAX_NBLKS && 3 <= m.next <= m.ninos && |m.nameBuf| == 256 && Closed(m)
    && (forall i :: i in m.files ==> 0 < i < m.next)
    && (forall b :: b in m.index ==> 0 < b < m.next)
    && (forall b :: b in m.blocks ==> b < m.next)
  }

  class Sfs {
    const ninos: nat
    var nextIno: nat
    var unused: nat                       // super.unused_blocks
    var img: map<nat, Bytes>              // blocks written with pwrite
    var inodes: map<nat, CInode>          // every struct cache_inode, by its ino
    var cache: map<nat, seq<nat>>         // the words of every struct cache_block, by its ino
    var inodeChains: seq<seq<nat>>        // the hash chains, as the numbers along them
    var blockChains: seq<seq<nat>>
    var entryName: Bytes                  // the name field of the static struct sfs_entry

    ghost var m: Model                    // the abstract state
    ghost var role: map<nat, Role>        // what each index block is for
    ghost var searches: nat               // how often search_cache_block was called
    ghost var log: seq<nat>               // block numbers passed to pwrite, in order

    ghost function Ix(): Index
      reads this`cache, this`role
    {
      Index(cache, role)
    }

    ghost predicate Counters()
      reads this`nextIno, this`unused, this`img, this`entryName, this`m
    {
      (m.ninos == ninos && m.next == nextIno && m.next <= m.ninos && unused == m.ninos - m.next
       && m.blocks == img && m.nameBuf == entryName) == true
    }

    // In these, the comparison with true keeps the verifier from taking the predicates apart at every use.

    /** The part of the invariant that the index-block methods work under. */
    ghost predicate IndexBlocks()
      reads this`nextIno, this`unused, this`img, this`entryName, this`m, this`cache, this`role, this`blockChains
    {
      (Counters() && Numbered(m) && IndexTable(blockChains, cache, role, m.index)) == true
    }

    ghost predicate Valid()
      reads this
    {
      (IndexBlocks() && searches == 0
       && InodeTable(inodeChains, inodes, m.byHost) && Coupled(inodes, Ix(), m.files) && WrittenOnce(log, img)) == true
    }

    /** The run stopped or went on, as the abstract step r says; no index block was searched for. */
    ghost predicate Follows(r: Outcome, stop: Option<Bug>)
      reads this
    {
      (match r
       case Abort(why) => stop == Some(why) && searches == 0
       case Done(m') => stop == None && m == m' && Valid()) == true
    }

    /** The object create_sfs fills in, once the image is known to be big enough. */
    constructor (ninos: nat, nextIno: nat)
      requires ninos <= MAX_NBLKS && nextIno == FirstFree(ninos) < ninos
      ensures Valid() && m == Fresh(ninos)
    {
      this.ninos, this.nextIno, unused := ninos, nextIno, ninos - nextIno;
      var c := CInode(EmptyInode(DirKind), 0, 0, 0, 0);
      img, cache, inodes, entryName := map[], map[], map[BLKN_ROOT := c], Zeros(256);
      blockChains, inodeChains := EmptyChains(), EmptyChains()[Hash(0) := [BLKN_ROOT]];
      m, role, searches, log := Fresh(ninos), map[], 0, [];
      new;
      FreshTables();
      assert [BLKN_ROOT] + EmptyChains()[Hash(0)] == [BLKN_ROOT];
      assert inodes == map[][BLKN_ROOT := c] && m.byHost == map[][0 := BLKN_ROOT];
      InodeTableAdd(EmptyChains(), map[], map[], BLKN_ROOT, c);
      CoupledAdd(map[], Ix(), map[], BLKN_ROOT, c, m.files[BLKN_ROOT]);
    }

    /** create_sfs */
    static method CreateSfs(size: nat) returns (stop: Option<Bug>, sfs: Sfs?)
      ensures match Create(size)
              case Abort(why) => stop == Some(why)
              case Done(m0) => stop == None && sfs != null && fresh(sfs) && sfs.Valid() && sfs.m == m0
    {
      sfs := null;
      var ninos := size / BLKSIZE % U32;
      if ninos > MAX_NBLKS {
        ninos := MAX_NBLKS;
      }
      var nextIno := BLKN_FREEMAP + (ninos + BLKBITS - 1) / BLKBITS;
      if nextIno >= ninos {
        return Some(ImageTooSmall), null;
      }
      sfs := new Sfs(ninos, nextIno);
      stop := None;
    }

    /** sfs_alloc_ino */
    method AllocIno() returns (stop: Option<Bug>, ino: nat)
      requires IndexBlocks()
      modifies this`nextIno, this`unused, this`m
      ensures Took(Alloc(old(m)), stop, m)
      ensures stop == None ==> IndexBlocks() && ino == old(m.next)
    {
      if nextIno < ninos {
        unused := unused - 1;
        ino := nextIno;
        nextIno := nextIno + 1;
        m := m.(next := m.next + 1);
        stop := None;
      } else {
        stop, ino := Some(OutOfSpace), 0;
      }
    }

    /** alloc_cache_block(sfs, 0): the new block goes to the front of the chain of the argument, 0. */
    method AllocCacheBlock(ghost r: Role) returns (stop: Option<Bug>, cb: nat)
      requires IndexBlocks()
      modifies this`nextIno, this`unused, this`m, this`cache, this`blockChains, this`role
      ensures TookIndex(old(m), stop, m)
      ensures stop == None ==>
        && IndexBlocks()
        && cb == old(m.next) && Ix() == NewIndexBlock(old(Ix()), cb, r)
    {
      stop, cb := AllocIno();
      if stop != None { return; }
      var head := Hash(0);
      IndexTableAdd(blockChains, cache, role, m.index, cb, r);
      NumberedIndex(m, cb);
      cache := cache[cb := EmptyIndexBlock()];
      blockChains := blockChains[head := [cb] + blockChains[head]];
      role := role[cb := r];
      m := m.(index := m.index + {cb});
    }

    /** search_cache_block: finds an index block only if its own number hashes to the chain that fresh blocks are put
        in. */
    method SearchCacheBlock(ino: nat) returns (cb: nat)
      requires IndexBlocks() && ino != 0
      modifies this`searches
      ensures searches == old(searches) + 1
      ensures cb == if ino in cache && Hash(ino) == Hash(0) then ino else 0
    {
      searches := searches + 1;
      var chain := blockChains[Hash(ino)];
      var k := 0;
      while k < |chain| && chain[k] != ino
        invariant k <= |chain|
        invariant forall i :: 0 <= i < k ==> chain[i] != ino
      {
        k := k + 1;
      }
      cb := if k < |chain| then chain[k] else 0;
    }

    /** update_cache: brings the index block that slot names, or a fresh one, behind the pointer cb. */
    method UpdateCache(cb: nat, slot: nat, ghost r: Role) returns (stop: Option<Bug>, cb': nat, slot': nat)
      requires IndexBlocks()
      modifies this`nextIno, this`unused, this`m, this`cache, this`blockChains, this`role, this`searches
      ensures stop == None ==> IndexBlocks()
      ensures slot == 0 ==> TookIndex(old(m), stop, m) && searches == old(searches)
      ensures slot == 0 && stop == None ==> cb' == slot' == old(m.next) && Ix() == NewIndexBlock(old(Ix()), cb', r)
      ensures slot != 0 && cb == slot ==>
        stop == None && cb' == cb && slot' == slot && m == old(m) && Ix() == old(Ix()) && searches == old(searches)
      ensures slot != 0 && cb != slot ==>
        searches == old(searches) + 1 && (stop == None <==> slot in old(cache) && Hash(slot) == Hash(0))
    {
      stop, cb', slot' := None, cb, slot;
      if slot == 0 {
        stop, cb' := AllocCacheBlock(r);
        slot' := cb';
      } else if cb == 0 || cb != slot {
        cb' := SearchCacheBlock(slot);
        if !(cb' != 0 && cb' == slot) {
          stop := Some(CacheMiss);
        }
      }
    }

    /** The single-indirect branch of append_block: entry k of the indirect block; c becomes c'. */
    method StoreIndirect(f: nat, c: CInode, k: nat, ino: nat) returns (stop: Option<Bug>, c': CInode, ghost ix1: Index)
      requires IndexBlocks() && k < NENTRY
      requires c.inode.indirect != 0 ==> c.l1 == c.inode.indirect && c.l1 in cache
      modifies this`nextIno, this`unused, this`m, this`cache, this`blockChains, this`role, this`searches
      ensures searches == old(searches)
      ensures if c.inode.indirect == 0 then TookIndex(old(m), stop, m) else stop == None && m == old(m)
      ensures stop == None ==>
        && IndexBlocks() && c' == WithIndirect(c, c'.l1)
        && ReadySlot(c.inode.indirect, c'.l1, old(Ix()), ix1, old(m.next), Indirect(f))
        && HasWord(ix1, c'.l1, k) && |ix1.words[c'.l1]| == NENTRY && Ix() == PutWord(ix1, c'.l1, k, ino)
    {
      var cb, slot;
      stop, cb, slot := UpdateCache(c.l1, c.inode.indirect, Indirect(f));
      c', ix1 := c.(l1 := cb, inode := c.inode.(indirect := slot)), Ix();
      if stop != None { return; }
      IndexTablePut(blockChains, cache, role, m.index, cb, k, ino);
      cache := cache[cb := SetSlot(cache[cb], k, ino)];
    }

    /** update_cache(sfs, &l1, &data2[j]), where data2 is the index block y. */
    method UpdateLeaf(l1: nat, y: nat, j: nat, ghost r: Role) returns (stop: Option<Bug>, cb: nat)
      requires IndexBlocks() && y in cache && j < NENTRY
      requires cache[y][j] != 0 ==> l1 == cache[y][j] && l1 in cache
      modifies this`nextIno, this`unused, this`m, this`cache, this`blockChains, this`role, this`searches
      ensures searches == old(searches)
      ensures if old(cache)[y][j] == 0 then TookIndex(old(m), stop, m) else stop == None && m == old(m)
      ensures stop == None ==>
        && IndexBlocks() && cb in cache
        && (if old(cache)[y][j] == 0 then cb == old(m.next)
            && Ix() == PutWord(NewIndexBlock(old(Ix()), cb, r), y, j, cb)
            else cb == l1 && Ix() == old(Ix()))
    {
      var slot;
      stop, cb, slot := UpdateCache(l1, cache[y][j], r);
      if stop != None { return; }
      SameSlot(cache, y, j);
      IndexTablePut(blockChains, cache, role, m.index, y, j, slot);
      cache := cache[y := SetSlot(cache[y], j, slot)];
    }

    /** Both calls of update_cache in the double-indirect branch. */
    method ReadyLeaf(f: nat, c: CInode, j: nat)
      returns (stop: Option<Bug>, cb2: nat, slot2: nat, cb1: nat, ghost ix1: Index)
      requires IndexBlocks() && j < NENTRY && LeafCached(c, cache, j)
      modifies this`nextIno, this`unused, this`m, this`cache, this`blockChains, this`role, this`searches
      ensures searches == old(searches)
      ensures Took(TakeIndex(old(m), LeafCost(c.inode.dbIndirect, old(cache), j)), stop, m)
      ensures stop == None ==>
        && IndexBlocks() && cb1 in cache && slot2 == cb2
        && LeafStored(c, old(Ix()), old(m.next), f, j, cb2, cb1, ix1, Ix())
    {
      cb1 := 0;
      ghost var cost := LeafCost(c.inode.dbIndirect, cache, j);
      TakeMore(m, cost);
      stop, cb2, slot2 := UpdateCache(c.l2, c.inode.dbIndirect, Double(f));
      ix1 := Ix();
      if stop != None { return; }
      if cost == 2 { cost := 1; }
      TakeMore(m, cost);
      TakeMore(m.(next := m.next + 1, index := m.index + {m.next}), 0);
      stop, cb1 := UpdateLeaf(c.l1, cb2, j, Leaf(f, j));
    }

    /** The double-indirect branch: entry k of the leaf that the double-indirect block names in entry j. */
    method StoreDouble(f: nat, c: CInode, j: nat, k: nat, ino: nat)
      returns (stop: Option<Bug>, c': CInode, ghost ix1: Index, ghost ix2: Index)
      requires IndexBlocks() && j < NENTRY && k < NENTRY && LeafCached(c, cache, j)
      modifies this`nextIno, this`unused, this`m, this`cache, this`blockChains, this`role, this`searches
      ensures searches == old(searches)
      ensures Took(TakeIndex(old(m), LeafCost(c.inode.dbIndirect, old(cache), j)), stop, m)
      ensures stop == None ==>
        && IndexBlocks() && c' == WithDouble(c, c'.l2, c'.l1)
        && LeafStored(c, old(Ix()), old(m.next), f, j, c'.l2, c'.l1, ix1, ix2)
        && HasWord(ix2, c'.l1, k) && |ix2.words[c'.l1]| == NENTRY && Ix() == PutWord(ix2, c'.l1, k, ino)
    {
      var cb2, slot2, cb1;
      stop, cb2, slot2, cb1, ix1 := ReadyLeaf(f, c, j);
      c', ix2 := c.(l1 := cb1, l2 := cb2, inode := c.inode.(dbIndirect := slot2)), Ix();
      if stop != None { return; }
      IndexTablePut(blockChains, cache, role, m.index, cb1, k, ino);
      cache := cache[cb1 := SetSlot(cache[cb1], k, ino)];
    }

    /** append_block */
    method AppendBlock(f: nat, size: nat, ino: nat) returns (stop: Option<Bug>)
      requires Valid() && f in inodes && size <= BLKSIZE
      modifies this`nextIno, this`unused, this`m, this`cache, this`blockChains, this`role, this`searches, this`inodes
      ensures Follows(Append(old(m), f, size, ino), stop)
    {
      var nblks := inodes[f].nblks;
      assert Describes(f, inodes[f], Ix(), m.files[f]);
      if nblks >= LN_NBLKS {
        stop := Some(FileTooBig);
      } else if nblks < NDIRECT {
        AppendDirectBlock(f, size, ino);
        stop := None;
      } else if nblks < L1_NBLKS {
        stop := AppendIndirectBlock(f, size, ino);
      } else {
        stop := AppendDoubleBlock(f, size, ino);
      }
    }

    method AppendDirectBlock(f: nat, size: nat, ino: nat)
      requires Valid() && f in inodes && size <= BLKSIZE && inodes[f].nblks < NDIRECT
      modifies this`m, this`inodes
      ensures Follows(Append(old(m), f, size, ino), None)
    {
      var c := inodes[f];
      assert Describes(f, c, Ix(), m.files[f]);
      assert TakeIndex(m, 0) == Done(m);
      var c' := c.(inode := c.inode.(direct := SetSlot(c.inode.direct, c.nblks, ino)));
      AppendDirect(f, c, Ix(), m.files[f].blks, size, ino, Grown(c', size));
      Grow(f, c', size, ino, Ix());
    }

    method AppendIndirectBlock(f: nat, size: nat, ino: nat) returns (stop: Option<Bug>)
      requires Valid() && f in inodes && size <= BLKSIZE && NDIRECT <= inodes[f].nblks < L1_NBLKS
      modifies this`nextIno, this`unused, this`m, this`cache, this`blockChains, this`role, this`searches, this`inodes
      ensures Follows(Append(old(m), f, size, ino), stop)
    {
      ghost var ix0 := Ix();
      assert Describes(f, inodes[f], Ix(), m.files[f]);
      var c';
      stop, c' := MapIndirect(f, size, ino);
      if stop != None { return; }
      Grow(f, c', size, ino, ix0);
    }

    /** The block maps are right again, once the record grows. */
    method MapIndirect(f: nat, size: nat, ino: nat) returns (stop: Option<Bug>, c': CInode)
      requires Valid() && f in inodes && NDIRECT <= inodes[f].nblks < L1_NBLKS
      modifies this`nextIno, this`unused, this`m, this`cache, this`blockChains, this`role, this`searches
      ensures f in old(m).files && Took(TakeIndex(old(m), IndexNeeded(|old(m).files[f].blks|)), stop, m)
      ensures searches == 0
      ensures stop == None ==>
        && IndexBlocks() && SameMeta(c', inodes[f])
        && (MapsTo(f, Grown(c', size), Ix(), old(m).files[f].blks + [ino]) && Current(Grown(c', size), Ix())) == true
        && forall i :: i != f ==> SameFor(i, old(Ix()), Ix())
    {
      ghost var ix0, blks := Ix(), m.files[f].blks;
      var c := inodes[f];
      IndirectReady(f);
      ghost var ix1;
      stop, c', ix1 := StoreIndirect(f, c, c.nblks - NDIRECT, ino);
      if stop != None { return; }
      AppendIndirectFrom(f, c, ix0, blks, size, ino, old(m.next), c'.l1, ix1, Ix());
    }

    /** What the single-indirect branch finds. */
    lemma IndirectReady(f: nat)
      requires Valid() && f in inodes && NDIRECT <= inodes[f].nblks < L1_NBLKS
      ensures f in m.files
      ensures var c, blks := inodes[f], m.files[f].blks;
        && c.nblks == |blks| && (MapsTo(f, c, Ix(), blks) && Current(c, Ix())) == true
        && m.next != 0 && m.next !in Ix().words
        && (c.inode.indirect != 0 ==> c.l1 == c.inode.indirect && c.l1 in cache)
        && TakeIndex(m, IndexNeeded(|blks|)) ==
           if c.inode.indirect != 0 then Done(m)
           else if m.next < m.ninos then Done(m.(next := m.next + 1, index := m.index + {m.next}))
           else Abort(OutOfSpace)
    {
      var c, blks := inodes[f], m.files[f].blks;
      assert Describes(f, c, Ix(), m.files[f]);
      IndirectIsCached(f, c, Ix(), blks);
      assert (c.inode.indirect == 0) == (IndexNeeded(|blks|) == 1);
      TakeMore(m, IndexNeeded(|blks|));
      TakeMore(m.(next := m.next + 1, index := m.index + {m.next}), 0);
    }

    method AppendDoubleBlock(f: nat, size: nat, ino: nat) returns (stop: Option<Bug>)
      requires Valid() && f in inodes && size <= BLKSIZE && L1_NBLKS <= inodes[f].nblks < LN_NBLKS
      modifies this`nextIno, this`unused, this`m, this`cache, this`blockChains, this`role, this`searches, this`inodes
      ensures Follows(Append(old(m), f, size, ino), stop)
    {
      ghost var ix0 := Ix();
      assert Describes(f, inodes[f], Ix(), m.files[f]);
      var c';
      stop, c' := MapDouble(f, size, ino);
      if stop != None { return; }
      Grow(f, c', size, ino, ix0);
    }

    /** The block maps are right again, once the record grows. */
    method MapDouble(f: nat, size: nat, ino: nat) returns (stop: Option<Bug>, c': CInode)
      requires Valid() && f in inodes && L1_NBLKS <= inodes[f].nblks < LN_NBLKS
      modifies this`nextIno, this`unused, this`m, this`cache, this`blockChains, this`role, this`searches
      ensures f in old(m).files && Took(TakeIndex(old(m), IndexNeeded(|old(m).files[f].blks|)), stop, m)
      ensures searches == 0
      ensures stop == None ==>
        && IndexBlocks() && SameMeta(c', inodes[f])
        && (MapsTo(f, Grown(c', size), Ix(), old(m).files[f].blks + [ino]) && Current(Grown(c', size), Ix())) == true
        && forall i :: i != f ==> SameFor(i, old(Ix()), Ix())
    {
      ghost var ix0, blks := Ix(), m.files[f].blks;
      var c := inodes[f];
      var nblks := c.nblks - L1_NBLKS;
      DoubleReady(f);
      ghost var ix1, ix2;
      stop, c', ix1, ix2 := StoreDouble(f, c, nblks / NENTRY, nblks % NENTRY, ino);
      if stop != None { return; }
      AppendDoubleFrom(f, c, ix0, blks, size, ino, old(m.next), c'.l2, c'.l1, ix1, ix2, Ix());
    }

    /** What the double-indirect branch finds. */
    lemma DoubleReady(f: nat)
      requires Valid() && f in inodes && L1_NBLKS <= inodes[f].nblks < LN_NBLKS
      ensures f in m.files
      ensures var c, blks := inodes[f], m.files[f].blks;
        && c.nblks == |blks| && (MapsTo(f, c, Ix(), blks) && Current(c, Ix())) == true
        && m.next != 0 && m.next !in Ix().words
        && NextLeaf(|blks|) < NENTRY && LeafCached(c, cache, NextLeaf(|blks|))
        && LeafCost(c.inode.dbIndirect, cache, NextLeaf(|blks|)) == IndexNeeded(|blks|)
    {
      assert Describes(f, inodes[f], Ix(), m.files[f]);
      LeafIsReady(f, inodes[f], Ix(), m.files[f].blks);
    }

    /** The tail of append_block: the record of file f, by now c, grows by one block. */
    method Grow(f: nat, c: CInode, size: nat, ino: nat, ghost ix0: Index)
      requires IndexBlocks() && InodeTable(inodeChains, inodes, m.byHost) && searches == 0 && WrittenOnce(log, img)
      requires f in inodes && Coupled(inodes, ix0, m.files) == true && SameMeta(c, inodes[f])
      requires (MapsTo(f, Grown(c, size), Ix(), m.files[f].blks + [ino]) && Current(Grown(c, size), Ix())) == true
      requires forall i :: i != f ==> SameFor(i, ix0, Ix())
      modifies this`m, this`inodes
      ensures Valid() && m == old(m).(files := old(m).files[f := Longer(old(m).files[f], size, ino)])
    {
      var inodes' := inodes[f := Grown(c, size)];
      ghost var files' := m.files[f := Longer(m.files[f], size, ino)];
      assert Describes(f, inodes[f], ix0, m.files[f]);
      CoupledPut(inodes, ix0, m.files, f, inodes', Ix(), files');
      InodeTableKept(inodeChains, inodes, inodes', m.byHost);
      NumberedKept(m, files');
      inodes := inodes';
      m := m.(files := files');
    }

    /** write_block; its assert is the caller's duty. */
    method WriteBlock(data: Bytes, ino: nat)
      requires |data| <= BLKSIZE && ino < ninos
      modifies this`img, this`log
      ensures img == old(img)[ino := Pad(data)] && log == old(log) + [ino]
    {
      var buffer := data;
      if |data| != BLKSIZE {
        buffer := data + Zeros(BLKSIZE - |data|);
      }
      assert buffer == Pad(data);
      img := img[ino := buffer];
      log := log + [ino];
    }

    /** Writing the block whose number was just handed out. */
    method WriteFreshBlock(data: Bytes, ino: nat)
      requires Valid() && |data| <= BLKSIZE && ino < m.next && ino !in img
      modifies this`img, this`log, this`m
      ensures Valid() && m == Write(old(m), ino, data)
    {
      WriteOnce(log, img, ino, Pad(data));
      NumberedWrite(m, ino, data);
      WriteBlock(data, ino);
      m := Write(m, ino, data);
    }

    /** sfs_alloc_ino, between other operations. */
    method AllocBlock() returns (stop: Option<Bug>, ino: nat)
      requires Valid()
      modifies this`nextIno, this`unused, this`m
      ensures Took(Alloc(old(m)), stop, m)
      ensures stop == None ==> Valid() && ino == old(m.next)
    {
      stop, ino := AllocIno();
    }

    /** strcpy(entry->name, name) */
    method CopyName(name: Bytes)
      requires Valid() && |name| <= MAX_FNAME_LEN
      modifies this`entryName, this`m
      ensures Valid() && m == old(m).(nameBuf := Strcpy(old(m).nameBuf, name)) && entryName == m.nameBuf
    {
      entryName := Strcpy(entryName, name);
      m := m.(nameBuf := entryName);
    }

    /** entry->ino = file->ino, in the abstract state. */
    ghost method NameInode(b: nat, f: nat)
      requires Valid()
      modifies this`m
      ensures Valid() && m == old(m).(named := old(m).named[b := f])
    {
      m := m.(named := m.named[b := f]);
    }

    /** add_entry, up to append_block. */
    method WriteEntry(f: nat, name: Bytes) returns (stop: Option<Bug>, entryIno: nat)
      requires Valid() && f in m.files && |name| <= MAX_FNAME_LEN
      modifies this
      ensures searches == 0
      ensures var m0 := old(m).(nameBuf := Strcpy(old(m).nameBuf, name));
        if Alloc(m0).Abort? then stop == Some(Alloc(m0).why)
        else
          && stop == None && Valid() && entryIno == old(m.next)
          && m == Write(Alloc(m0).m, entryIno, EntryBytes(f, m0.nameBuf)).(named := m0.named[entryIno := f])
    {
      CopyName(name);
      stop, entryIno := AllocBlock();
      if stop != None { return; }
      WriteFreshBlock(EntryBytes(f, entryName), entryIno);
      NameInode(entryIno, f);
    }

    /** add_entry */
    method AddEntry(d: nat, f: nat, name: Bytes) returns (stop: Option<Bug>)
      requires Valid() && IsDir(m, d) && f in m.files && |name| <= MAX_FNAME_LEN
      modifies this
      ensures Follows(SfsModel.AddEntry(old(m), d, f, name), stop)
    {
      var entryIno;
      stop, entryIno := WriteEntry(f, name);
      if stop != None { return; }
      stop := AppendBlock(d, 256, entryIno);
      if stop != None { return; }
      CountLink(f);
    }

    /** file->inode.nlinks ++, a uint16_t */
    method CountLink(f: nat)
      requires Valid() && f in inodes
      modifies this`inodes, this`m
      ensures Valid() && m == LinkTo(old(m), f)
    {
      var c := inodes[f];
      var inodes' := inodes[f := c.(inode := c.inode.(nlinks := (c.inode.nlinks + 1) % U16))];
      ghost var m' := LinkTo(m, f);
      assert Describes(f, c, Ix(), m.files[f]);
      CoupledPut(inodes, Ix(), m.files, f, inodes', Ix(), m'.files);
      InodeTableKept(inodeChains, inodes, inodes', m.byHost);
      NumberedKept(m, m'.files);
      inodes := inodes';
      m := m';
    }

    /** alloc_cache_inode(sfs, real, 0, type): the new inode goes to the front of its chain. */
    method AllocCacheInode(hino: nat, kind: Kind) returns (stop: Option<Bug>, ino: nat)
      requires Valid()
      modifies this`nextIno, this`unused, this`m, this`inodes, this`inodeChains
      ensures Follows(NewInode(old(m), hino, kind), stop)
      ensures stop == None ==> ino == old(m.next)
    {
      stop, ino := AllocBlock();
      if stop != None { return; }
      PlaceInode(ino, hino, kind);
    }

    method PlaceInode(ino: nat, hino: nat, kind: Kind)
      requires Valid() && 0 < ino < m.next && ino !in m.files
      modifies this`m, this`inodes, this`inodeChains
      ensures Valid()
      ensures m == old(m).(files := old(m).files[ino := AFile(kind, hino, 0, 0, [])],
          byHost := old(m).byHost[hino := ino])
    {
      var c := CInode(EmptyInode(kind), hino, 0, 0, 0);
      var head := Hash(hino);
      ghost var m' := m.(files := m.files[ino := AFile(kind, hino, 0, 0, [])], byHost := m.byHost[hino := ino]);
      InodeTableAdd(inodeChains, inodes, m.byHost, ino, c);
      CoupledAdd(inodes, Ix(), m.files, ino, c, m'.files[ino]);
      NumberedAdd(m, ino, m');
      inodes := inodes[ino := c];
      inodeChains := inodeChains[head := [ino] + inodeChains[head]];
      m := m';
    }

    /** search_cache_inode */
    method SearchCacheInode(hino: nat) returns (ino: nat)
      requires Valid()
      ensures ino == if hino in m.byHost then m.byHost[hino] else 0
    {
      var chain := inodeChains[Hash(hino)];
      var k := 0;
      while k < |chain| && inodes[chain[k]].hino != hino
        invariant k <= |chain|
        invariant FindInode(chain, inodes, hino) == FindInode(chain[k..], inodes, hino)
      {
        k := k + 1;
      }
      ino := if k < |chain| then chain[k] else 0;
    }

    /** open_file: full blocks until the data ends; the loop of read, write_block and append_block. */
    method OpenFile(f: nat, data: Bytes) returns (stop: Option<Bug>)
      requires Valid() && f in inodes
      modifies this
      ensures Follows(AppendData(old(m), f, data), stop)
    {
      var rest := data;
      stop := None;
      while rest != []
        invariant stop == None && Valid() && f in m.files
        invariant AppendData(m, f, rest) == AppendData(old(m), f, data)
        decreases |rest|
      {
        var n := Chunk(rest);
        var ino;
        stop, ino := AllocBlock();
        if stop != None { return; }
        WriteFreshBlock(rest[..n], ino);
        stop := AppendBlock(f, n, ino);
        if stop != None { return; }
        rest := rest[n..];
      }
    }

    /** open_link: the number is handed out before the target turns out not to fit. */
    method OpenLink(f: nat, target: Bytes) returns (stop: Option<Bug>)
      requires Valid() && f in inodes
      modifies this
      ensures Follows(AppendTarget(old(m), f, target), stop)
    {
      var ino;
      stop, ino := AllocBlock();
      if stop != None { return; }
      if |target| >= BLKSIZE {
        stop := Some(LinkTooLong);
        return;
      }
      WriteFreshBlock(target, ino);
      stop := AppendBlock(f, |target|, ino);
    }

    /** The branch of add_file for a host inode not seen before. */
    method MakeFile(hino: nat, data: Bytes) returns (stop: Option<Bug>, file: nat)
      requires Valid()
      modifies this
      ensures Follows(SfsModel.MakeFile(old(m), hino, data), stop)
      ensures stop == None ==> file == old(m.next)
    {
      stop, file := AllocCacheInode(hino, FileKind);
      if stop != None { return; }
      stop := OpenFile(file, data);
    }

    /** add_file */
    method AddFile(d: nat, name: Bytes, hino: nat, data: Bytes) returns (stop: Option<Bug>)
      requires Valid() && IsDir(m, d) && |name| <= MAX_FNAME_LEN
      modifies this
      ensures Follows(SfsModel.AddFile(old(m), d, name, hino, data), stop)
    {
      var file := SearchCacheInode(hino);
      if file == 0 {
        stop, file := MakeFile(hino, data);
        if stop != None { return; }
      }
      stop := AddEntry(d, file, name);
    }

    /** add_link, up to the entry. */
    method MakeLink(hino: nat, target: Bytes) returns (stop: Option<Bug>, file: nat)
      requires Valid()
      modifies this
      ensures Follows(SfsModel.MakeLink(old(m), hino, target), stop)
      ensures stop == None ==> file == old(m.next)
    {
      stop, file := AllocCacheInode(hino, LinkKind);
      if stop != None { return; }
      stop := OpenLink(file, target);
    }

    /** add_link */
    method AddLink(d: nat, name: Bytes, hino: nat, target: Bytes) returns (stop: Option<Bug>)
      requires Valid() && IsDir(m, d) && |name| <= MAX_FNAME_LEN
      modifies this
      ensures Follows(SfsModel.AddLink(old(m), d, name, hino, target), stop)
    {
      var file;
      stop, file := MakeLink(hino, target);
      if stop != None { return; }
      stop := AddEntry(d, file, name);
    }

    /** add_dir, up to the entry; the search must find nothing. */
    method MakeDir(parent: nat, hino: nat, listing: Listing) returns (stop: Option<Bug>, dir: nat)
      requires Valid() && IsDir(m, parent)
      modifies this
      ensures Follows(SfsModel.MakeDir(old(m), parent, hino, listing), stop)
      ensures stop == None ==> dir == old(m.next)
      decreases listing, 2
    {
      dir := SearchCacheInode(hino);
      if dir != 0 {
        stop := Some(DirectorySeenBefore);
        return;
      }
      stop, dir := AllocCacheInode(hino, DirKind);
      if stop != None { return; }
      stop := OpenDir(dir, parent, listing);
    }

    /** add_dir */
    method AddDir(d: nat, name: Bytes, hino: nat, listing: Listing) returns (stop: Option<Bug>)
      requires Valid() && IsDir(m, d) && |name| <= MAX_FNAME_LEN
      modifies this
      ensures Follows(SfsModel.AddDir(old(m), d, name, hino, listing), stop)
      decreases listing, 3
    {
      var dir;
      stop, dir := MakeDir(d, hino, listing);
      if stop != None { return; }
      stop := AddEntry(d, dir, name);
    }

    /** The start of open_dir: the entries every directory has. */
    method AddDots(d: nat, parent: nat) returns (stop: Option<Bug>)
      requires Valid() && IsDir(m, d) && IsDir(m, parent)
      modifies this
      ensures Follows(SfsModel.AddDots(old(m), d, parent), stop)
    {
      stop := AddEntry(d, d, DOT);
      if stop != None { return; }
      stop := AddEntry(d, parent, DOTDOT);
    }

    /** open_dir */
    method OpenDir(d: nat, parent: nat, listing: Listing) returns (stop: Option<Bug>)
      requires Valid() && IsDir(m, d) && IsDir(m, parent)
      modifies this
      ensures Follows(SfsModel.OpenDir(old(m), d, parent, listing), stop)
      decreases listing, 1
    {
      stop := AddDots(d, parent);
      if stop != None { return; }
      stop := Walk(d, listing);
    }

    /** The readdir loop of open_dir. */
    method Walk(d: nat, listing: Listing) returns (stop: Option<Bug>)
      requires Valid() && IsDir(m, d)
      modifies this
      ensures Follows(SfsModel.Walk(old(m), d, listing), stop)
      decreases listing, 0
    {
      stop := None;
      var dir := listing;
      while dir.Item?
        invariant stop == None && Valid() && IsDir(m, d)
        invariant dir == listing || dir < listing
        invariant SfsModel.Walk(m, d, dir) == SfsModel.Walk(old(m), d, listing)
        decreases dir
      {
        stop := AddNode(d, dir.name, dir.node);
        if stop != None { return; }
        dir := dir.rest;
      }
    }

    /** The body of that loop: dotfiles are passed over, a socket ends the run, other special files are only warned
        about. */
    method AddNode(d: nat, name: Bytes, node: Host) returns (stop: Option<Bug>)
      requires Valid() && IsDir(m, d)
      modifies this
      ensures Follows(SfsModel.AddNode(old(m), d, name, node), stop)
      decreases node, 4
    {
      stop := None;
      if Hidden(name) {
        return;
      }
      if |name| > MAX_FNAME_LEN {
        return Some(NameTooLong);
      }
      match node
      case File(hino, data) => stop := AddFile(d, name, hino, data);
      case Link(hino, target) => stop := AddLink(d, name, hino, target);
      case Dir(hino, sub) => stop := AddDir(d, name, hino, sub);
      case Socket => stop := Some(OpenFailed);
      case Special =>
    }

    /** One turn of the outer loop of close_sfs: the free-map block for the BLKBITS block numbers from i on. */
    method FreeMapBlock(i: nat) returns (data: Bytes)
      requires m.ninos == ninos && m.next == nextIno && i < ninos
      ensures data == BitBytes(FreeBits(m, i))
    {
      var buffer := new bool[BLKBITS](_ => false);
      if i + BLKBITS > nextIno {
        var start, end := 0, BLKBITS;
        if i < nextIno {
          start := nextIno - i;
        }
        if i + BLKBITS > ninos {
          end := ninos - i;
        }
        var j := start;
        while j < end
          invariant start <= j <= BLKBITS && (j <= end || j == start)
          invariant forall k :: 0 <= k < BLKBITS ==> buffer[k] == (start <= k < j && k < end)
        {
          buffer[j] := true;
          j := j + 1;
        }
      }
      assert forall k :: 0 <= k < BLKBITS ==> buffer[k] == Free(m, i + k);
      assert buffer[..] == FreeBits(m, i);
      data := BitBytes(buffer[..]);
    }

    /** The outer loop of close_sfs. */
    method WriteFreeMap(ghost content: Image)
      requires m.ninos == ninos && m.next == nextIno && FirstFree(ninos) <= ninos
      requires FreeMapHolds(content, m)
      modifies this`img, this`log
      ensures log == old(log) + Upto(BLKN_FREEMAP, FirstFree(ninos))
      ensures img == Put(old(img), Upto(BLKN_FREEMAP, FirstFree(ninos)), content)
    {
      var i, ino := 0, BLKN_FREEMAP;
      assert Upto(BLKN_FREEMAP, ino) == [];
      while i < ninos
        invariant BLKN_FREEMAP <= ino <= FirstFree(ninos) && i == (ino - BLKN_FREEMAP) * BLKBITS
        invariant log == old(log) + Upto(BLKN_FREEMAP, ino) && img == Put(old(img), Upto(BLKN_FREEMAP, ino), content)
      {
        var buffer := FreeMapBlock(i);
        assert FreeMapBlockHolds(content, m, ino);
        assert Pad(buffer) == buffer == content[ino];
        assert Upto(BLKN_FREEMAP, ino + 1)[..ino - BLKN_FREEMAP] == Upto(BLKN_FREEMAP, ino);
        WriteBlock(buffer, ino);
        ino, i := ino + 1, i + BLKBITS;
      }
    }

    /** close_sfs along one chain of index blocks. */
    method FlushBlocks(chain: seq<nat>, ghost content: Image)
      requires BlocksListed(cache, content, ninos, chain)
      modifies this`img, this`log
      ensures log == old(log) + chain && img == Put(old(img), chain, content)
    {
      var k := 0;
      assert chain[..0] == [];
      while k < |chain|
        invariant k <= |chain| && log == old(log) + chain[..k] && img == Put(old(img), chain[..k], content)
      {
        assert CachedBlock(cache, content, ninos, chain[k]);
        assert chain[..k + 1][..k] == chain[..k];
        WriteBlock(Words(cache[chain[k]]), chain[k]);
        k := k + 1;
      }
      assert chain[..k] == chain;
    }

    /** close_sfs along one chain of inodes. */
    method FlushInodes(chain: seq<nat>, ghost content: Image)
      requires InodesListed(inodes, content, ninos, chain)
      modifies this`img, this`log
      ensures log == old(log) + chain && img == Put(old(img), chain, content)
    {
      var k := 0;
      assert chain[..0] == [];
      while k < |chain|
        invariant k <= |chain| && log == old(log) + chain[..k] && img == Put(old(img), chain[..k], content)
      {
        assert CachedInode(inodes, content, ninos, chain[k]);
        assert chain[..k + 1][..k] == chain[..k];
        WriteBlock(InodeBytes(inodes[chain[k]].inode), chain[k]);
        k := k + 1;
      }
      assert chain[..k] == chain;
    }

    /** The last loop of close_sfs. */
    method FlushTables(ghost content: Image)
      requires AllListed(blockChains, inodeChains, cache, inodes, content, ninos)
      modifies this`img, this`log
      ensures log == old(log) + FlushOrder(blockChains, inodeChains, |blockChains|)
      ensures img == Put(old(img), FlushOrder(blockChains, inodeChains, |blockChains|), content)
    {
      var h := 0;
      while h < HASH_LIST_SIZE
        invariant h <= HASH_LIST_SIZE
        invariant log == old(log) + FlushOrder(blockChains, inodeChains, h)
        invariant img == Put(old(img), FlushOrder(blockChains, inodeChains, h), content)
      {
        ghost var done := FlushOrder(blockChains, inodeChains, h);
        PutThree(old(img), done, blockChains[h], inodeChains[h], content);
        JoinFour(old(log), done, blockChains[h], inodeChains[h]);
        assert BlocksListed(cache, content, ninos, blockChains[h])
            && InodesListed(inodes, content, ninos, inodeChains[h]);
        FlushBlocks(blockChains[h], content);
        FlushInodes(inodeChains[h], content);
        h := h + 1;
      }
    }

    /** The body of close_sfs: the free map, the superblock, then both tables. */
    method WriteAll(info: Bytes, ghost content: Image)
      requires m.ninos == ninos && m.next == nextIno && 0 < ninos && FirstFree(ninos) <= ninos
          && FreeMapHolds(content, m)
      requires |info| == 32 && BLKN_SUPER in content && content[BLKN_SUPER] == Pad(SuperBytes(ninos, unused, info))
      requires AllListed(blockChains, inodeChains, cache, inodes, content, ninos)
      modifies this`img, this`log
      ensures log == old(log) + Upto(BLKN_FREEMAP, FirstFree(ninos)) + [BLKN_SUPER] + FlushOrder(blockChains,
          inodeChains, |blockChains|)
      ensures img == Put(Put(Put(old(img), Upto(BLKN_FREEMAP, FirstFree(ninos)), content), [BLKN_SUPER], content),
                         FlushOrder(blockChains, inodeChains, |blockChains|), content)
    {
      WriteFreeMap(content);
      PutOne(img, BLKN_SUPER, content);
      WriteBlock(SuperBytes(ninos, unused, info), BLKN_SUPER);
      FlushTables(content);
    }

    /** close_sfs; info is the text field of the superblock. */
    method CloseSfs(info: Bytes)
      requires Valid() && Partitioned(m) && |info| == 32
      modifies this`img, this`log
      ensures ClosedAs(img, m, inodes, cache, info) == true
      ensures multiset(log) == multiset(Range(0, m.next))
    {
      ghost var content, image := Closing(info);
      WriteAll(info, content);
    }

    lemma Settled()
      requires Valid()
      ensures searches == 0 && Coupled(inodes, Ix(), m.files) == true
    {
    }

    /** The three parts of close_sfs, put together. */
    lemma Closing(info: Bytes) returns (content: Image, image: Image)
      requires Valid() && Partitioned(m) && |info| == 32
      ensures ClosedAs(image, m, inodes, cache, info) == true
      ensures FreeMapHolds(content, m) && BLKN_SUPER in content
          && content[BLKN_SUPER] == Pad(SuperBytes(ninos, unused, info))
      ensures AllListed(blockChains, inodeChains, cache, inodes, content, ninos) && FirstFree(ninos) <= ninos
      ensures var first, rest := Upto(BLKN_FREEMAP, FirstFree(ninos)),
          FlushOrder(blockChains, inodeChains, |blockChains|);
        && Put(Put(Put(img, first, content), [BLKN_SUPER], content), rest, content) == image
        && multiset(log + first + [BLKN_SUPER] + rest) == multiset(Range(0, m.next))
    {
      CanFlush();
      content, image := ClosingOf(m, log, blockChains, inodeChains, inodes, cache, info);
      var first, rest := Upto(BLKN_FREEMAP, FirstFree(ninos)), FlushOrder(blockChains, inodeChains, |blockChains|);
      PutThree(img, first, [BLKN_SUPER], rest, content);
      JoinFour(log, first, [BLKN_SUPER], rest);
    }

    lemma CanFlush()
      requires Valid()
      ensures Flushable(inodes, cache) && inodes.Keys == m.files.Keys && cache.Keys == m.index
    {
      forall i | i in inodes ensures |inodes[i].inode.direct| == NDIRECT {
        assert Describes(i, inodes[i], Ix(), m.files[i]);
      }
    }
  }

  /** One more index block was handed out, or there was no room for it. */
  ghost predicate TookIndex(m: Model, stop: Option<Bug>, m': Model) {
    if m.next < m.ninos then stop == None && m' == m.(next := m.next + 1, index := m.index + {m.next})
    else stop == Some(OutOfSpace)
  }

  lemma CoupledAdd(inodes: map<nat, CInode>, ix: Index, files: map<nat, AFile>, f: nat, c: CInode, a: AFile)
    requires Coupled(inodes, ix, files) && f !in inodes
    requires c == CInode(EmptyInode(a.kind), a.hino, 0, 0, 0) && a == AFile(a.kind, a.hino, 0, 0, [])
    ensures Coupled(inodes[f := c], ix, files[f := a])
  {
    forall i | i in inodes ensures Describes(i, inodes[i], ix, files[i]) {
    }
  }

  lemma NumberedAdd(m: Model, ino: nat, m': Model)
    requires Numbered(m) && 0 < ino < m.next && ino !in m.files
    requires ino in m'.files && m' == m.(files := m.files[ino := m'.files[ino]], byHost := m'.byHost)
    requires forall h :: h in m'.byHost ==> m'.byHost[h] == ino || (h in m.byHost && m'.byHost[h] == m.byHost[h])
    ensures Numbered(m')
  {
  }

  lemma NumberedWrite(m: Model, b: nat, data: Bytes)
    requires Numbered(m) && b < m.next && |data| <= BLKSIZE
    ensures Numbered(Write(m, b, data))
  {
  }

  lemma NumberedKept(m: Model, files: map<nat, AFile>)
    requires Numbered(m) && files.Keys == m.files.Keys
    ensures Numbered(m.(files := files))
  {
  }

  ghost predicate SameMeta(c: CInode, c': CInode) {
    c.hino == c'.hino && c.inode.kind == c'.inode.kind && c.inode.size == c'.inode.size
        && c.inode.nlinks == c'.inode.nlinks
  }

  /** One file's inode and index blocks changed together with its block list. */
  lemma CoupledPut(inodes: map<nat, CInode>, ix: Index, files: map<nat, AFile>, f: nat,
                   inodes': map<nat, CInode>, ix': Index, files': map<nat, AFile>)
    requires Coupled(inodes, ix, files) && f in inodes
    requires inodes'.Keys == inodes.Keys && files'.Keys == files.Keys
    requires forall i :: i in inodes && i != f ==>
        inodes'[i] == inodes[i] && files'[i] == files[i] && SameFor(i, ix, ix')
    requires Describes(f, inodes'[f], ix', files'[f])
    ensures Coupled(inodes', ix', files')
  {
    forall i | i in inodes && i != f ensures Describes(i, inodes[i], ix', files[i]) {
      assert Describes(i, inodes[i], ix, files[i]);
      Undisturbed(i, inodes[i], ix, ix', files[i].blks);
    }
  }

  /** What update_cache leaves behind a slot: a fresh index block, or the one it already named. */
  ghost predicate ReadySlot(slot: nat, x: nat, ix: Index, ix': Index, next: nat, r: Role) {
    if slot == 0 then x == next && ix' == NewIndexBlock(ix, x, r) else x == slot && ix' == ix
  }

  /** The slots update_cache will look at are 0, or name the blocks behind l2 and l1. */
  ghost predicate LeafCached(c: CInode, words: map<nat, seq<nat>>, j: nat) {
    var y := c.inode.dbIndirect;
    y != 0 ==> c.l2 == y && y in words && (WordOf(words, y, j) != 0 ==> WordOf(words, y, j) == c.l1 && c.l1 in words)
  }

  lemma LeafIsReady(f: nat, c: CInode, ix: Index, blks: seq<nat>)
    requires MapsTo(f, c, ix, blks) && Current(c, ix) && L1_NBLKS <= |blks| < LN_NBLKS
    ensures NextLeaf(|blks|) < NENTRY && LeafCached(c, ix.words, NextLeaf(|blks|))
    ensures LeafCost(c.inode.dbIndirect, ix.words, NextLeaf(|blks|)) == IndexNeeded(|blks|)
  {
    DoubleIsCached(f, c, ix, blks);
    if |blks| > L1_NBLKS {
      LeafIsCached(f, c, ix, blks);
      assert CoversLeaf(f, ix.words[c.inode.dbIndirect][NextLeaf(|blks|)], NextLeaf(|blks|), ix, blks);
    }
  }

  /** The index blocks that a leaf entry j below slot y needs first. */
  function LeafCost(y: nat, words: map<nat, seq<nat>>, j: nat): nat {
    if y == 0 then 2 else if WordOf(words, y, j) == 0 then 1 else 0
  }

  lemma TakeMore(m: Model, count: nat)
    ensures TakeIndex(m, count) ==
      if count == 0 then Done(m)
      else if m.next < m.ninos then TakeIndex(m.(next := m.next + 1, index := m.index + {m.next}), count - 1)
      else Abort(OutOfSpace)
  {
  }

  lemma SameSlot(cache: map<nat, seq<nat>>, y: nat, j: nat)
    requires y in cache && j < |cache[y]|
    ensures cache[y := SetSlot(cache[y], j, cache[y][j])] == cache
  {
    assert SetSlot(cache[y], j, cache[y][j]) == cache[y];
  }

  ghost predicate Took(r: Outcome, stop: Option<Bug>, m: Model) {
    match r
    case Abort(why) => stop == Some(why)
    case Done(m') => stop == None && m == m'
  }

  /** The index once the double-indirect block y and the leaf x in its entry j are in place. */
  ghost predicate LeafStored(c: CInode, ix: Index, next: nat, f: nat, j: nat, y: nat, x: nat, ix1: Index, ix2: Index) {
    (&& ReadySlot(c.inode.dbIndirect, y, ix, ix1, next, Double(f))
     && HasWord(ix1, y, j)
     && (if ix1.words[y][j] == 0
         then x !in ix1.words && x != 0 && ix2 == PutWord(NewIndexBlock(ix1, x, Leaf(f, j)), y, j, x)
         else x == ix1.words[y][j] && ix2 == ix1)) == true
  }

  function WithDouble(c: CInode, y: nat, x: nat): CInode {
    c.(l1 := x, l2 := y, inode := c.inode.(dbIndirect := y))
  }

  lemma AppendIndirectFrom(f: nat, c: CInode, ix: Index, blks: seq<nat>, size: nat, b: nat, next: nat, x: nat,
                           ix1: Index, ix': Index)
    requires (MapsTo(f, c, ix, blks) && Current(c, ix)) == true && NDIRECT <= |blks| < L1_NBLKS
    requires next != 0 && next !in ix.words && ReadySlot(c.inode.indirect, x, ix, ix1, next, Indirect(f))
    requires HasWord(ix1, x, |blks| - NDIRECT) && |ix1.words[x]| == NENTRY
    requires ix' == PutWord(ix1, x, |blks| - NDIRECT, b)
    ensures (MapsTo(f, Grown(WithIndirect(c, x), size), ix', blks + [b])
        && Current(Grown(WithIndirect(c, x), size), ix')) == true
    ensures forall i :: i != f ==> SameFor(i, ix, ix')
  {
    IndirectIsCached(f, c, ix, blks);
    AppendIndirect(f, c, ix, blks, size, b, x, ix1, Grown(WithIndirect(c, x), size), ix');
  }

  lemma AppendDoubleFrom(f: nat, c: CInode, ix: Index, blks: seq<nat>, size: nat, b: nat, next: nat, y: nat, x: nat,
                         ix1: Index, ix2: Index, ix': Index)
    requires (MapsTo(f, c, ix, blks) && Current(c, ix)) == true && L1_NBLKS <= |blks| < LN_NBLKS
    requires next != 0 && next !in ix.words && LeafStored(c, ix, next, f, NextLeaf(|blks|), y, x, ix1, ix2)
    requires HasWord(ix2, x, (|blks| - L1_NBLKS) % NENTRY) && |ix2.words[x]| == NENTRY
    requires ix' == PutWord(ix2, x, (|blks| - L1_NBLKS) % NENTRY, b)
    ensures (MapsTo(f, Grown(WithDouble(c, y, x), size), ix', blks + [b])
        && Current(Grown(WithDouble(c, y, x), size), ix')) == true
    ensures forall i :: i != f ==> SameFor(i, ix, ix')
  {
    DoubleIsCached(f, c, ix, blks);
    if |blks| > L1_NBLKS { LeafIsCached(f, c, ix, blks); }
    AppendDouble(f, c, ix, blks, size, b, y, x, ix1, ix2, Grown(WithDouble(c, y, x), size), ix');
  }

  function WithIndirect(c: CInode, x: nat): CInode {
    c.(l1 := x, inode := c.inode.(indirect := x))
  }

  lemma IndexTableAdd(chains: seq<seq<nat>>, cache: map<nat, seq<nat>>, role: map<nat, Role>, index: set<nat>,
                      x: nat, r: Role)
    requires IndexTable(chains, cache, role, index) && x !in index && x != 0
    ensures IndexTable(chains[Hash(0) := [x] + chains[Hash(0)]], cache[x := EmptyIndexBlock()], role[x := r],
        index + {x})
  {
    BlockTableAdd(chains, cache, x);
  }

  lemma NumberedIndex(m: Model, x: nat)
    requires Numbered(m) && 0 < x < m.next
    ensures Numbered(m.(index := m.index + {x}))
  {
  }

  lemma IndexTablePut(chains: seq<seq<nat>>, cache: map<nat, seq<nat>>, role: map<nat, Role>, index: set<nat>,
                      x: nat, k: nat, b: nat)
    requires IndexTable(chains, cache, role, index) && x in cache && k < NENTRY
    ensures IndexTable(chains, cache[x := SetSlot(cache[x], k, b)], role, index)
  {
  }
}
