/** The skew heap of lab8/libs/skew_heap.h: a pointer tree with parent links.

    The links live in Entry objects that are rewritten in place. A ghost Tree
    names the entries of a heap and how they are linked; every method is proved
    against a function on such trees, and order, contents and cost are proved
    about those functions.
 */
module SkewHeap {
  import opened Powers

  class Entry<K> {
    const key: K
    var parent: Entry?<K>
    var left: Entry?<K>
    var right: Entry?<K>

    constructor (key: K)
      ensures this.key == key
    {
      this.key := key;
      parent, left, right := null, null, null;
    }
  }

  datatype Tree<K> = Leaf | Node(root: Entry<K>, left: Tree<K>, right: Tree<K>)

  // ---------- comparators ----------

  /** What the callers' comparison functions provide: a total preorder answered with -1, 0 or 1. */
  ghost predicate TotalPreorder<K(!new)>(comp: (K, K) -> int) {
    && (forall x, y :: -1 <= comp(x, y) <= 1)
    && (forall x, y :: comp(x, y) == -comp(y, x))
    && (forall x, y, z :: comp(x, y) <= 0 && comp(y, z) <= 0 ==> comp(x, z) <= 0)
  }

  // ---------- shape ----------

  ghost function Entries<K>(t: Tree<K>): (s: set<Entry<K>>)
    ensures t.Node? ==> t.root in s
  {
    match t
    case Leaf => {}
    case Node(e, l, r) => {e} + Entries(l) + Entries(r)
  }

  function Root<K>(t: Tree<K>): Entry?<K> {
    match t
    case Leaf => null
    case Node(e, _, _) => e
  }

  /** No entry occurs twice, so that the tree is a tree and not a graph. */
  ghost predicate Distinct<K>(t: Tree<K>) {
    match t
    case Leaf => true
    case Node(e, l, r) =>
      && e !in Entries(l) && e !in Entries(r) && Entries(l) !! Entries(r)
      && Distinct(l) && Distinct(r)
  }

  /** The three link fields of an entry, read off the heap. */
  datatype Links<K> = Links(left: Entry?<K>, right: Entry?<K>, parent: Entry?<K>)

  ghost function LinksOf<K>(s: set<Entry<K>>): map<Entry<K>, Links<K>>
    reads s
  {
    map e | e in s :: Links(e.left, e.right, e.parent)
  }

  /** The child fields spell out t, and each child's parent field points back. */
  ghost predicate Linked<K>(t: Tree<K>, h: map<Entry<K>, Links<K>>) {
    match t
    case Leaf => true
    case Node(e, l, r) =>
      && e in h && h[e].left == Root(l) && h[e].right == Root(r)
      && (l.Node? ==> l.root in h && h[l.root].parent == e)
      && (r.Node? ==> r.root in h && h[r.root].parent == e)
      && Linked(l, h) && Linked(r, h)
  }

  /** The pointer a stands for the tree t. */
  ghost predicate Represents<K>(a: Entry?<K>, t: Tree<K>)
    reads Entries(t)
  {
    a == Root(t) && Distinct(t) && Linked(t, LinksOf(Entries(t)))
  }

  ghost predicate SameLinks<K>(s: set<Entry<K>>, h: map<Entry<K>, Links<K>>, h': map<Entry<K>, Links<K>>) {
    forall e :: e in s && e in h ==> e in h' && h'[e] == h[e]
  }

  ghost predicate SameChildren<K>(e: Entry<K>, h: map<Entry<K>, Links<K>>, h': map<Entry<K>, Links<K>>) {
    e in h ==> e in h' && h'[e].left == h[e].left && h'[e].right == h[e].right
  }

  /** Links inside t survive any change that leaves its entries alone, the root's parent excepted. */
  lemma {:induction false} LinksKept<K>(t: Tree<K>, h: map<Entry<K>, Links<K>>, h': map<Entry<K>, Links<K>>)
    requires Distinct(t) && Linked(t, h)
    requires t.Node? ==> SameChildren(t.root, h, h') && SameLinks(Entries(t) - {t.root}, h, h')
    ensures Linked(t, h')
  {
    if t.Node? {
      LinksKept(t.left, h, h');
      LinksKept(t.right, h, h');
    }
  }

  /** The subtree whose root is b. */
  ghost function Sub<K>(t: Tree<K>, b: Entry<K>): (s: Tree<K>)
    requires b in Entries(t)
    ensures s.Node? && s.root == b && Entries(s) <= Entries(t)
    ensures Distinct(t) ==> Distinct(s)
  {
    if t.root == b then t else if b in Entries(t.left) then Sub(t.left, b) else Sub(t.right, b)
  }

  // ---------- the operations on trees ----------

  ghost function Merge<K>(a: Tree<K>, b: Tree<K>, comp: (K, K) -> int): (m: Tree<K>)
    ensures Entries(m) == Entries(a) + Entries(b)
    ensures Distinct(a) && Distinct(b) && Entries(a) !! Entries(b) ==> Distinct(m)
    decreases a, b
  {
    if a.Leaf? then b
    else if b.Leaf? then a
    else if comp(a.root.key, b.root.key) == -1 then Node(a.root, Merge(a.right, b, comp), a.left)
    else Node(b.root, Merge(a, b.right, comp), b.left)
  }

  ghost function Insert<K>(t: Tree<K>, e: Entry<K>, comp: (K, K) -> int): Tree<K> {
    Merge(t, Node(e, Leaf, Leaf), comp)
  }

  ghost function Remove<K>(t: Tree<K>, b: Entry<K>, comp: (K, K) -> int): (r: Tree<K>)
    requires b in Entries(t)
  {
    if t.root == b then Merge(t.left, t.right, comp)
    else if b in Entries(t.left) then t.(left := Remove(t.left, b, comp))
    else t.(right := Remove(t.right, b, comp))
  }

  lemma Children<K>(t: Tree<K>)
    requires t.Node? && Represents(t.root, t)
    ensures Represents(t.root.left, t.left) && Represents(t.root.right, t.right)
    ensures t.left.Node? ==> t.left.root.parent == t.root
    ensures t.right.Node? ==> t.right.root.parent == t.root
  {
    LinksKept(t.left, LinksOf(Entries(t)), LinksOf(Entries(t.left)));
    LinksKept(t.right, LinksOf(Entries(t)), LinksOf(Entries(t.right)));
  }

  // ---------- the operations on pointers ----------

  method InitEntry<K>(a: Entry<K>)
    modifies a
    ensures Represents(a, Node(a, Leaf, Leaf)) && a.parent == null
  {
    a.left, a.right, a.parent := null, null, null;
  }

  /** The assignments that close both branches of skew_heap_merge; r already has e as its parent. */
  method SetChildren<K>(e: Entry<K>, l: Entry?<K>, r: Entry?<K>, ghost tl: Tree<K>, ghost tr: Tree<K>)
    requires Represents(l, tl) && Represents(r, tr) && Distinct(Node(e, tl, tr))
    requires r != null ==> r.parent == e
    modifies e`left, e`right, if l == null then {} else {l}`parent
    ensures Represents(e, Node(e, tl, tr))
  {
    ghost var hl, hr := LinksOf(Entries(tl)), LinksOf(Entries(tr));
    e.left := l;
    e.right := r;
    if l != null { l.parent := e; }
    ghost var h := LinksOf(Entries(Node(e, tl, tr)));
    LinksKept(tl, hl, h);
    LinksKept(tr, hr, h);
  }

  /** skew_heap_merge. The parent field of the returned root is not touched. The ghost result counts calls. */
  method MergeHeaps<K>(a: Entry?<K>, b: Entry?<K>, comp: (K, K) -> int, ghost ta: Tree<K>, ghost tb: Tree<K>)
    returns (m: Entry?<K>, ghost calls: nat)
    requires Represents(a, ta) && Represents(b, tb) && Entries(ta) !! Entries(tb)
    modifies Entries(ta) + Entries(tb)
    ensures Represents(m, Merge(ta, tb, comp))
    ensures m != null ==> m.parent == old(m.parent)
    ensures calls == Calls(ta, tb, comp)
    decreases ta, tb, 1
  {
    if a == null {
      m, calls := b, 1;
    } else if b == null {
      m, calls := a, 1;
    } else if comp(a.key, b.key) == -1 {
      calls := MergeOver(a, b, comp, ta, tb);
      m := a;
    } else {
      calls := MergeUnder(a, b, comp, ta, tb);
      m := b;
    }
  }

  /** skew_heap_merge when a goes on top. */
  method MergeOver<K>(a: Entry<K>, b: Entry<K>, comp: (K, K) -> int, ghost ta: Tree<K>, ghost tb: Tree<K>)
    returns (ghost calls: nat)
    requires Represents(a, ta) && Represents(b, tb) && Entries(ta) !! Entries(tb)
    requires comp(a.key, b.key) == -1
    modifies Entries(ta) + Entries(tb)
    ensures Represents(a, Merge(ta, tb, comp)) && a.parent == old(a.parent)
    ensures calls == Calls(ta, tb, comp)
    decreases ta, tb, 0
  {
    Children(ta);
    var r := a.left;
    ghost var h := LinksOf(Entries(ta.left));
    var l, c := MergeHeaps(a.right, b, comp, ta.right, tb);
    assert LinksOf(Entries(ta.left)) == h;
    ghost var tm := Node(a, Merge(ta.right, tb, comp), ta.left);
    assert tm == Merge(ta, tb, comp) && Distinct(tm);
    SetChildren(a, l, r, tm.left, tm.right);
    calls := 1 + c;
  }

  /** skew_heap_merge when b goes on top. */
  method MergeUnder<K>(a: Entry<K>, b: Entry<K>, comp: (K, K) -> int, ghost ta: Tree<K>, ghost tb: Tree<K>)
    returns (ghost calls: nat)
    requires Represents(a, ta) && Represents(b, tb) && Entries(ta) !! Entries(tb)
    requires comp(a.key, b.key) != -1
    modifies Entries(ta) + Entries(tb)
    ensures Represents(b, Merge(ta, tb, comp)) && b.parent == old(b.parent)
    ensures calls == Calls(ta, tb, comp)
    decreases ta, tb, 0
  {
    Children(tb);
    var r := b.left;
    ghost var h := LinksOf(Entries(tb.left));
    var l, c := MergeHeaps(a, b.right, comp, ta, tb.right);
    assert LinksOf(Entries(tb.left)) == h;
    ghost var tm := Node(b, Merge(ta, tb.right, comp), tb.left);
    assert tm == Merge(ta, tb, comp) && Distinct(tm);
    SetChildren(b, l, r, tm.left, tm.right);
    calls := 1 + c;
  }

  method InsertEntry<K>(a: Entry?<K>, b: Entry<K>, comp: (K, K) -> int, ghost ta: Tree<K>)
    returns (m: Entry?<K>, ghost calls: nat)
    requires Represents(a, ta) && (a != null ==> a.parent == null) && b !in Entries(ta)
    modifies Entries(ta), b
    ensures Represents(m, Insert(ta, b, comp)) && m != null && m.parent == null
    ensures calls == Calls(ta, Node(b, Leaf, Leaf), comp)
  {
    ghost var ha := LinksOf(Entries(ta));
    InitEntry(b);
    LinksKept(ta, ha, LinksOf(Entries(ta)));
    m, calls := MergeHeaps(a, b, comp, ta, Node(b, Leaf, Leaf));
  }

  /** The entry under which b hangs, when b is not the root. */
  ghost function ParentOf<K>(t: Tree<K>, b: Entry<K>): (p: Entry<K>)
    requires b in Entries(t) && b != t.root
    ensures p in Entries(t)
    ensures Distinct(t) ==> p !in Entries(Sub(t, b))
  {
    if b in Entries(t.left) then
      if t.left.root == b then t.root else ParentOf(t.left, b)
    else
      assert b in Entries(t.right);
      if t.right.root == b then t.root else ParentOf(t.right, b)
  }

  lemma {:induction false} SubLinked<K>(t: Tree<K>, b: Entry<K>, h: map<Entry<K>, Links<K>>)
    requires b in Entries(t) && Distinct(t) && Linked(t, h)
    ensures Linked(Sub(t, b), h)
    ensures b != t.root ==>
      var p := ParentOf(t, b);
      && b in h && h[b].parent == p && p in h
      && (h[p].left == b || h[p].right == b) && h[p].left != h[p].right
  {
    if t.root == b {
    } else if b in Entries(t.left) {
      SubLinked(t.left, b, h);
    } else {
      SubLinked(t.right, b, h);
    }
  }

  /** h' is h with b's place under its parent taken by m, the merge of b's children. */
  ghost predicate SplicedLinks<K>(t: Tree<K>, b: Entry<K>, m: Tree<K>, h: map<Entry<K>, Links<K>>, h': map<Entry<K>,
      Links<K>>)
    requires b in Entries(t) && b != t.root
  {
    var p := ParentOf(t, b);
    && Linked(m, h') && (m.Node? ==> m.root in h' && h'[m.root].parent == p)
    && p in h && p in h' && h'[p].parent == h[p].parent
    && (if h[p].left == b then h'[p].left == Root(m) && h'[p].right == h[p].right
        else h'[p].right == Root(m) && h'[p].left == h[p].left)
    && SameLinks(Entries(t) - Entries(Sub(t, b)) - {p}, h, h')
  }

  /** Such links spell out Remove(t, b). */
  lemma {:induction false} Spliced<K>(t: Tree<K>, b: Entry<K>, comp: (K, K) -> int,
                                      h: map<Entry<K>, Links<K>>, h': map<Entry<K>, Links<K>>)
    requires b in Entries(t) && b != t.root && Distinct(t) && Linked(t, h)
    requires SplicedLinks(t, b, Merge(Sub(t, b).left, Sub(t, b).right, comp), h, h')
    ensures Linked(Remove(t, b, comp), h')
    decreases t, 1
  {
    if b in Entries(t.left) {
      SplicedLeft(t, b, comp, h, h');
    } else {
      SplicedRight(t, b, comp, h, h');
    }
  }

  lemma {:induction false} SplicedLeft<K>(t: Tree<K>, b: Entry<K>, comp: (K, K) -> int,
                                          h: map<Entry<K>, Links<K>>, h': map<Entry<K>, Links<K>>)
    requires t.Node? && b in Entries(t.left) && Distinct(t) && Linked(t, h)
    requires SplicedLinks(t, b, Merge(Sub(t, b).left, Sub(t, b).right, comp), h, h')
    ensures Linked(t.(left := Remove(t.left, b, comp)), h')
    decreases t, 0
  {
    LinksKept(t.right, h, h');
    if t.left.root != b {
      assert Sub(t, b) == Sub(t.left, b) && ParentOf(t, b) == ParentOf(t.left, b);
      Spliced(t.left, b, comp, h, h');
    } else {
      assert Sub(t, b) == t.left && ParentOf(t, b) == t.root;
    }
  }

  lemma {:induction false} SplicedRight<K>(t: Tree<K>, b: Entry<K>, comp: (K, K) -> int,
                                           h: map<Entry<K>, Links<K>>, h': map<Entry<K>, Links<K>>)
    requires t.Node? && b in Entries(t.right) && Distinct(t) && Linked(t, h)
    requires SplicedLinks(t, b, Merge(Sub(t, b).left, Sub(t, b).right, comp), h, h')
    ensures Linked(t.(right := Remove(t.right, b, comp)), h')
    decreases t, 0
  {
    LinksKept(t.left, h, h');
    if t.right.root != b {
      assert Sub(t, b) == Sub(t.right, b) && ParentOf(t, b) == ParentOf(t.right, b);
      Spliced(t.right, b, comp, h, h');
    } else {
      assert Sub(t, b) == t.right && ParentOf(t, b) == t.root;
    }
  }

  lemma {:induction false} RemoveShape<K>(t: Tree<K>, b: Entry<K>, comp: (K, K) -> int)
    requires b in Entries(t) && Distinct(t)
    ensures Entries(Remove(t, b, comp)) == Entries(t) - {b}
    ensures Distinct(Remove(t, b, comp))
    ensures Entries(Sub(t, b).left) !! Entries(Sub(t, b).right)
  {
    if t.root == b {
    } else if b in Entries(t.left) {
      RemoveShape(t.left, b, comp);
    } else {
      RemoveShape(t.right, b, comp);
    }
  }

  /** The merge of b's children is apart from b's parent, and both stay. */
  lemma RemovalParts<K>(t: Tree<K>, b: Entry<K>, comp: (K, K) -> int)
    requires b in Entries(t) && b != t.root && Distinct(t)
    ensures var m, rest := Merge(Sub(t, b).left, Sub(t, b).right, comp), Remove(t, b, comp);
      && Distinct(m) && Distinct(rest) && Entries(rest) == Entries(t) - {b}
      && Entries(m) <= Entries(rest) && Entries(m) <= Entries(Sub(t, b))
      && ParentOf(t, b) in Entries(rest) && ParentOf(t, b) !in Entries(m)
      && Entries(m) !! Entries(t) - Entries(Sub(t, b))
  {
    RemoveShape(t, b, comp);
  }

  /** The last step of skew_heap_remove below the root: rep takes b's place under p. */
  method ReplaceChild<K>(p: Entry<K>, b: Entry<K>, rep: Entry?<K>, comp: (K, K) -> int,
                         ghost t: Tree<K>, ghost h: map<Entry<K>, Links<K>>)
    requires b in Entries(t) && b != t.root && Distinct(t) && Linked(t, h)
    requires p == ParentOf(t, b) && (rep != null ==> rep.parent == p)
    requires Represents(rep, Merge(Sub(t, b).left, Sub(t, b).right, comp))
    requires SameLinks(Entries(t) - Entries(Sub(t, b)), h, LinksOf(Entries(t)))
    modifies p`left, p`right
    ensures Represents(t.root, Remove(t, b, comp))
  {
    ghost var m := Merge(Sub(t, b).left, Sub(t, b).right, comp);
    ghost var hm := LinksOf(Entries(m));
    SubLinked(t, b, h);
    RemovalParts(t, b, comp);
    if p.left == b {
      p.left := rep;
    } else {
      p.right := rep;
    }
    ghost var h' := LinksOf(Entries(Remove(t, b, comp)));
    LinksKept(m, hm, h');
    Spliced(t, b, comp, h, h');
  }

  /** The first steps of skew_heap_remove: merge the children of b and aim the result's parent field past b. */
  method MergeChildren<K>(b: Entry<K>, comp: (K, K) -> int, ghost s: Tree<K>)
    returns (rep: Entry?<K>, ghost calls: nat)
    requires s.Node? && Represents(b, s)
    modifies Entries(s.left) + Entries(s.right)
    ensures Represents(rep, Merge(s.left, s.right, comp))
    ensures rep != null ==> rep.parent == b.parent
    ensures calls == Calls(s.left, s.right, comp)
  {
    Children(s);
    rep, calls := MergeHeaps(b.left, b.right, comp, s.left, s.right);
    ghost var tm := Merge(s.left, s.right, comp);
    ghost var hm := LinksOf(Entries(tm));
    if rep != null { rep.parent := b.parent; }
    LinksKept(tm, hm, LinksOf(Entries(tm)));
  }

  lemma RemoveSetUp<K>(t: Tree<K>, b: Entry<K>, comp: (K, K) -> int)
    requires b in Entries(t) && Represents(t.root, t)
    ensures Represents(b, Sub(t, b))
    ensures b != t.root ==> b.parent == ParentOf(t, b) && t.root !in Entries(Sub(t, b))
  {
    var h, s := LinksOf(Entries(t)), Sub(t, b);
    SubLinked(t, b, h);
    LinksKept(s, h, LinksOf(Entries(s)));
  }

  /** skew_heap_remove: takes any entry b out of the heap a, whether root, interior or leaf. */
  method RemoveEntry<K>(a: Entry<K>, b: Entry<K>, comp: (K, K) -> int, ghost ta: Tree<K>)
    returns (m: Entry?<K>, ghost calls: nat)
    requires Represents(a, ta) && a.parent == null && b in Entries(ta)
    modifies Entries(ta)
    ensures Represents(m, Remove(ta, b, comp)) && (m != null ==> m.parent == null)
    ensures calls == Calls(Sub(ta, b).left, Sub(ta, b).right, comp)
  {
    ghost var s, h := Sub(ta, b), LinksOf(Entries(ta));
    RemoveSetUp(ta, b, comp);
    var p := b.parent;
    var rep;
    rep, calls := MergeChildren(b, comp, s);
    if p != null {
      assert b != ta.root;
      ReplaceChild(p, b, rep, comp, ta, h);
      m := a;
    } else {
      assert b == ta.root;
      m := rep;
    }
  }

  // ---------- order ----------

  ghost predicate AtMostRoot<K>(k: K, t: Tree<K>, comp: (K, K) -> int) {
    t.Node? ==> comp(k, t.root.key) <= 0
  }

  ghost predicate Ordered<K>(t: Tree<K>, comp: (K, K) -> int) {
    match t
    case Leaf => true
    case Node(e, l, r) =>
      AtMostRoot(e.key, l, comp) && AtMostRoot(e.key, r, comp) && Ordered(l, comp) && Ordered(r, comp)
  }

  lemma {:induction false} MergeOrdered<K(!new)>(a: Tree<K>, b: Tree<K>, comp: (K, K) -> int)
    requires TotalPreorder(comp) && Ordered(a, comp) && Ordered(b, comp)
    ensures Ordered(Merge(a, b, comp), comp)
    ensures forall k :: AtMostRoot(k, a, comp) && AtMostRoot(k, b, comp) ==> AtMostRoot(k, Merge(a, b, comp), comp)
    decreases a, b
  {
    if a.Node? && b.Node? {
      if comp(a.root.key, b.root.key) == -1 {
        MergeOrdered(a.right, b, comp);
      } else {
        MergeOrdered(a, b.right, comp);
      }
    }
  }

  lemma {:induction false} RemoveOrdered<K(!new)>(t: Tree<K>, b: Entry<K>, comp: (K, K) -> int)
    requires TotalPreorder(comp) && b in Entries(t) && Ordered(t, comp)
    ensures Ordered(Remove(t, b, comp), comp)
    ensures forall k :: AtMostRoot(k, t, comp) ==> AtMostRoot(k, Remove(t, b, comp), comp)
  {
    if t.root == b {
      MergeOrdered(t.left, t.right, comp);
    } else if b in Entries(t.left) {
      RemoveOrdered(t.left, b, comp);
    } else {
      RemoveOrdered(t.right, b, comp);
    }
  }

  lemma {:induction false} RootIsLeast<K(!new)>(t: Tree<K>, e: Entry<K>, comp: (K, K) -> int)
    requires TotalPreorder(comp) && Ordered(t, comp) && e in Entries(t)
    ensures comp(t.root.key, e.key) <= 0
  {
    if e in Entries(t.left) {
      RootIsLeast(t.left, e, comp);
    } else if e in Entries(t.right) {
      RootIsLeast(t.right, e, comp);
    } else {
      assert comp(e.key, e.key) == -comp(e.key, e.key);
    }
  }

  /** A new entry comes to the root if and only if no other entry is before it: of equal ones the last to be inserted is
      the first to be there. */
  lemma LastOfEqualsFirst<K(!new)>(t: Tree<K>, e: Entry<K>, comp: (K, K) -> int)
    requires TotalPreorder(comp) && Ordered(t, comp) && e !in Entries(t)
    ensures Root(Insert(t, e, comp)) == e <==> forall x :: x in Entries(t) ==> comp(x.key, e.key) != -1
  {
    if t.Node? && comp(t.root.key, e.key) != -1 {
      forall x | x in Entries(t) ensures comp(x.key, e.key) != -1 {
        RootIsLeast(t, x, comp);
        assert comp(e.key, t.root.key) <= 0;
      }
    }
  }

  lemma {:induction false} MergeSize<K>(a: Tree<K>, b: Tree<K>, comp: (K, K) -> int)
    ensures Size(Merge(a, b, comp)) == Size(a) + Size(b)
    decreases a, b
  {
    if a.Node? && b.Node? {
      if comp(a.root.key, b.root.key) == -1 {
        MergeSize(a.right, b, comp);
      } else {
        MergeSize(a, b.right, comp);
      }
    }
  }

  /** What a client sees that removes the root until the heap is empty. */
  ghost function Drain<K>(t: Tree<K>, comp: (K, K) -> int): (out: seq<Entry<K>>)
    decreases Size(t)
  {
    if t.Leaf? then [] else
      MergeSize(t.left, t.right, comp);
      [t.root] + Drain(Remove(t, t.root, comp), comp)
  }

  ghost predicate Ascending<K>(out: seq<Entry<K>>, comp: (K, K) -> int) {
    forall i, j :: 0 <= i < j < |out| ==> comp(out[i].key, out[j].key) <= 0
  }

  lemma HeadAdds<T>(x: T, xs: seq<T>, s: set<T>)
    requires x in s && multiset(xs) == multiset(s - {x})
    ensures multiset([x] + xs) == multiset(s)
  {
    assert multiset(s) == multiset(s - {x}) + multiset{x};
  }

  /** Draining gives out every entry exactly once... */
  lemma {:induction false} DrainPermutes<K(!new)>(t: Tree<K>, comp: (K, K) -> int)
    requires TotalPreorder(comp) && Ordered(t, comp) && Distinct(t)
    ensures multiset(Drain(t, comp)) == multiset(Entries(t))
    decreases Size(t)
  {
    if t.Node? {
      var rest := Remove(t, t.root, comp);
      PopShape(t, comp);
      DrainPermutes(rest, comp);
      HeadAdds(t.root, Drain(rest, comp), Entries(t));
    }
  }

  /** ... and least first: it sorts. */
  lemma {:induction false} DrainSorts<K(!new)>(t: Tree<K>, comp: (K, K) -> int)
    requires TotalPreorder(comp) && Ordered(t, comp) && Distinct(t)
    ensures Ascending(Drain(t, comp), comp)
    decreases Size(t)
  {
    if t.Node? {
      var rest := Remove(t, t.root, comp);
      PopShape(t, comp);
      DrainSorts(rest, comp);
      DrainPermutes(rest, comp);
      RootBefore(t, Drain(rest, comp), comp);
    }
  }

  lemma PopShape<K(!new)>(t: Tree<K>, comp: (K, K) -> int)
    requires TotalPreorder(comp) && t.Node? && Ordered(t, comp) && Distinct(t)
    ensures var rest := Remove(t, t.root, comp);
      && Ordered(rest, comp) && Distinct(rest) && Size(rest) == Size(t) - 1
      && Entries(rest) == Entries(t) - {t.root} && Drain(t, comp) == [t.root] + Drain(rest, comp)
  {
    MergeSize(t.left, t.right, comp);
    RemoveOrdered(t, t.root, comp);
    RemoveShape(t, t.root, comp);
  }

  lemma RootBefore<K(!new)>(t: Tree<K>, out: seq<Entry<K>>, comp: (K, K) -> int)
    requires TotalPreorder(comp) && Ordered(t, comp) && t.Node?
    requires multiset(out) == multiset(Entries(t) - {t.root})
    ensures forall i :: 0 <= i < |out| ==> comp(t.root.key, out[i].key) <= 0
  {
    forall i | 0 <= i < |out| ensures comp(t.root.key, out[i].key) <= 0 {
      assert out[i] in multiset(out);
      RootIsLeast(t, out[i], comp);
    }
  }

  // ---------- cost ----------

  function Size<K>(t: Tree<K>): nat {
    match t
    case Leaf => 0
    case Node(_, l, r) => 1 + Size(l) + Size(r)
  }

  /** How often skew_heap_merge is entered, the outermost call included. */
  ghost function Calls<K>(a: Tree<K>, b: Tree<K>, comp: (K, K) -> int): nat
    decreases a, b
  {
    if a.Leaf? || b.Leaf? then 1
    else if comp(a.root.key, b.root.key) == -1 then 1 + Calls(a.right, b, comp)
    else 1 + Calls(a, b.right, comp)
  }

  predicate RightHeavy<K>(t: Tree<K>) {
    t.Node? && Size(t.right) > Size(t.left)
  }

  function One(p: bool): nat {
    if p then 1 else 0
  }

  /** The potential: how many entries have more below their right child than below their left one. */
  function Heavy<K>(t: Tree<K>): nat {
    match t
    case Leaf => 0
    case Node(_, l, r) => Heavy(l) + Heavy(r) + One(RightHeavy(t))
  }

  /** Entries on the right spine that are not right-heavy. */
  function LightSpine<K>(t: Tree<K>): nat {
    match t
    case Leaf => 0
    case Node(_, _, r) => LightSpine(r) + One(!RightHeavy(t))
  }

  /** Entries a merge visits and leaves right-heavy. */
  ghost function NewHeavy<K>(a: Tree<K>, b: Tree<K>, comp: (K, K) -> int): nat
    decreases a, b
  {
    if a.Leaf? || b.Leaf? then 0
    else if comp(a.root.key, b.root.key) == -1 then
      NewHeavy(a.right, b, comp) + One(Size(a.left) > Size(a.right) + Size(b))
    else
      NewHeavy(a, b.right, comp) + One(Size(b.left) > Size(b.right) + Size(a))
  }

  /** floor(log2(n)) */
  function Log2(n: nat): (k: nat)
    requires n >= 1
    ensures Pow2(k) <= n < Pow2(k + 1)
  {
    if n == 1 then 0 else 1 + Log2(n / 2)
  }

  lemma {:induction false} Pow2Monotone(i: nat, j: nat)
    requires i <= j
    ensures Pow2(i) <= Pow2(j)
  {
    if i < j { Pow2Monotone(i, j - 1); }
  }

  lemma SmallExponent(i: nat, k: nat)
    requires Pow2(i) < Pow2(k + 1)
    ensures i <= k
  {
    if i > k { Pow2Monotone(k + 1, i); }
  }

  lemma {:induction false} LightSpineIsShort<K>(t: Tree<K>)
    ensures Pow2(LightSpine(t)) <= Size(t) + 1
  {
    if t.Node? { LightSpineIsShort(t.right); }
  }

  lemma {:induction false} NewHeavyIsSmall<K>(a: Tree<K>, b: Tree<K>, comp: (K, K) -> int)
    ensures Pow2(NewHeavy(a, b, comp)) <= Size(a) + Size(b) + 1
    decreases a, b
  {
    if a.Node? && b.Node? {
      if comp(a.root.key, b.root.key) == -1 {
        NewHeavyIsSmall(a.right, b, comp);
      } else {
        NewHeavyIsSmall(a, b.right, comp);
      }
    }
  }

  /** Every entry a merge visits is paid for: a heavy one becomes light, and light ones are few. */
  lemma {:induction false} MergeCost<K>(a: Tree<K>, b: Tree<K>, comp: (K, K) -> int)
    ensures Calls(a, b, comp) + Heavy(Merge(a, b, comp))
         <= Heavy(a) + Heavy(b) + LightSpine(a) + LightSpine(b) + NewHeavy(a, b, comp) + 1
    decreases a, b
  {
    if a.Node? && b.Node? {
      if comp(a.root.key, b.root.key) == -1 {
        MergeCost(a.right, b, comp);
        MergeSize(a.right, b, comp);
      } else {
        MergeCost(a, b.right, comp);
        MergeSize(a, b.right, comp);
      }
    }
  }

  /** With k = floor(log2(|a| + |b| + 1)), the amortised price of a merge is 3k + 1 calls. */
  lemma AmortisedMerge<K>(a: Tree<K>, b: Tree<K>, k: nat, comp: (K, K) -> int)
    requires Size(a) + Size(b) + 1 < Pow2(k + 1)
    ensures Calls(a, b, comp) + Heavy(Merge(a, b, comp)) <= Heavy(a) + Heavy(b) + 3 * k + 1
  {
    LightSpineIsShort(a);
    LightSpineIsShort(b);
    NewHeavyIsSmall(a, b, comp);
    SmallExponent(LightSpine(a), k);
    SmallExponent(LightSpine(b), k);
    SmallExponent(NewHeavy(a, b, comp), k);
    MergeCost(a, b, comp);
  }

  // ---------- the cost of removal ----------

  lemma {:induction false} RemoveSize<K>(t: Tree<K>, b: Entry<K>, comp: (K, K) -> int)
    requires b in Entries(t)
    ensures Size(Remove(t, b, comp)) == Size(t) - 1
  {
    if t.root == b {
      MergeSize(t.left, t.right, comp);
    } else if b in Entries(t.left) {
      RemoveSize(t.left, b, comp);
    } else {
      RemoveSize(t.right, b, comp);
    }
  }

  /** Entries above b with as many entries below their left child, where b is, as below their right one: these become
      right-heavy when b goes. */
  ghost function Tipped<K>(t: Tree<K>, b: Entry<K>): nat
    requires b in Entries(t)
  {
    if t.root == b then 0
    else if b in Entries(t.left) then Tipped(t.left, b) + One(Size(t.left) == Size(t.right))
    else Tipped(t.right, b)
  }

  lemma {:induction false} TippedIsSmall<K>(t: Tree<K>, b: Entry<K>)
    requires b in Entries(t)
    ensures Pow2(Tipped(t, b)) <= Size(t) + 1
  {
    if t.root == b {
    } else if b in Entries(t.left) {
      TippedIsSmall(t.left, b);
    } else {
      TippedIsSmall(t.right, b);
    }
  }

  /** Removal costs the merge of b's children, and the entries above that become right-heavy. */
  lemma {:induction false} RemoveCost<K>(t: Tree<K>, b: Entry<K>, k: nat, comp: (K, K) -> int)
    requires b in Entries(t) && Size(t) < Pow2(k + 1)
    ensures Calls(Sub(t, b).left, Sub(t, b).right, comp) + Heavy(Remove(t, b, comp))
         <= Heavy(t) + 3 * k + 1 + Tipped(t, b)
  {
    if t.root == b {
      AmortisedMerge(t.left, t.right, k, comp);
    } else if b in Entries(t.left) {
      RemoveCost(t.left, b, k, comp);
      RemoveSize(t.left, b, comp);
    } else {
      RemoveCost(t.right, b, k, comp);
      RemoveSize(t.right, b, comp);
    }
  }

  /** With k = floor(log2(|t| + 1)), the amortised price of removing any entry is 4k + 1 calls, and 3k + 1 at the
      root. */
  lemma AmortisedRemove<K>(t: Tree<K>, b: Entry<K>, k: nat, comp: (K, K) -> int)
    requires b in Entries(t) && Size(t) + 1 < Pow2(k + 1)
    ensures Calls(Sub(t, b).left, Sub(t, b).right, comp) + Heavy(Remove(t, b, comp)) <= Heavy(t) + 4 * k + 1
    ensures b == t.root ==>
      Calls(Sub(t, b).left, Sub(t, b).right, comp) + Heavy(Remove(t, b, comp)) <= Heavy(t) + 3 * k + 1
  {
    TippedIsSmall(t, b);
    SmallExponent(Tipped(t, b), k);
    RemoveCost(t, b, k, comp);
  }

  // ---------- runs ----------

  /** A client's step: insert an entry, or remove any one. */
  datatype Step<K> = Push(e: Entry<K>) | Cut(b: Entry<K>)

  ghost predicate Enabled<K>(t: Tree<K>, s: Step<K>) {
    match s
    case Push(e) => e !in Entries(t)
    case Cut(b) => b in Entries(t)
  }

  ghost function After<K>(t: Tree<K>, s: Step<K>, comp: (K, K) -> int): Tree<K>
    requires Enabled(t, s)
  {
    match s
    case Push(e) => Insert(t, e, comp)
    case Cut(b) => Remove(t, b, comp)
  }

  ghost function StepCalls<K>(t: Tree<K>, s: Step<K>, comp: (K, K) -> int): nat
    requires Enabled(t, s)
  {
    match s
    case Push(e) => Calls(t, Node(e, Leaf, Leaf), comp)
    case Cut(b) => Calls(Sub(t, b).left, Sub(t, b).right, comp)
  }

  ghost predicate Runs<K>(t: Tree<K>, steps: seq<Step<K>>, comp: (K, K) -> int)
    decreases |steps|
  {
    steps != [] ==> Enabled(t, steps[0]) && Runs(After(t, steps[0], comp), steps[1..], comp)
  }

  ghost function RunResult<K>(t: Tree<K>, steps: seq<Step<K>>, comp: (K, K) -> int): Tree<K>
    requires Runs(t, steps, comp)
    decreases |steps|
  {
    if steps == [] then t else RunResult(After(t, steps[0], comp), steps[1..], comp)
  }

  ghost function RunCalls<K>(t: Tree<K>, steps: seq<Step<K>>, comp: (K, K) -> int): nat
    requires Runs(t, steps, comp)
    decreases |steps|
  {
    if steps == [] then 0
    else StepCalls(t, steps[0], comp) + RunCalls(After(t, steps[0], comp), steps[1..], comp)
  }

  ghost function PeakSize<K>(t: Tree<K>, steps: seq<Step<K>>, comp: (K, K) -> int): (n: nat)
    requires Runs(t, steps, comp)
    ensures n >= Size(t)
    decreases |steps|
  {
    if steps == [] then Size(t)
    else
      var rest := PeakSize(After(t, steps[0], comp), steps[1..], comp);
      if rest > Size(t) then rest else Size(t)
  }

  lemma StepKeepsHeap<K(!new)>(t: Tree<K>, s: Step<K>, comp: (K, K) -> int)
    requires TotalPreorder(comp) && Enabled(t, s) && Distinct(t) && Ordered(t, comp)
    ensures Distinct(After(t, s, comp)) && Ordered(After(t, s, comp), comp)
  {
    match s
    case Push(e) =>
      var single := Node(e, Leaf, Leaf);
      assert Entries(single) == {e} && Distinct(single) && Ordered(single, comp);
      MergeOrdered(t, single, comp);
    case Cut(b) =>
      RemoveOrdered(t, b, comp);
      RemoveShape(t, b, comp);
  }

  /** Every state of a run is a heap-ordered tree without repetitions. */
  lemma {:induction false} RunKeepsHeap<K(!new)>(t: Tree<K>, steps: seq<Step<K>>, comp: (K, K) -> int)
    requires TotalPreorder(comp) && Runs(t, steps, comp) && Distinct(t) && Ordered(t, comp)
    ensures Distinct(RunResult(t, steps, comp)) && Ordered(RunResult(t, steps, comp), comp)
    decreases |steps|
  {
    if steps != [] {
      StepKeepsHeap(t, steps[0], comp);
      RunKeepsHeap(After(t, steps[0], comp), steps[1..], comp);
    }
  }

  /** Entries are removed at the root only. */
  ghost predicate RootsOnly<K>(t: Tree<K>, steps: seq<Step<K>>, comp: (K, K) -> int)
    requires Runs(t, steps, comp)
    decreases |steps|
  {
    steps != [] ==> (steps[0].Cut? ==> steps[0].b == t.root) && RootsOnly(After(t, steps[0], comp), steps[1..], comp)
  }

  lemma StepCost<K>(t: Tree<K>, s: Step<K>, k: nat, comp: (K, K) -> int)
    requires Enabled(t, s) && Size(t) + 1 < Pow2(k + 1) && Size(After(t, s, comp)) + 1 < Pow2(k + 1)
    ensures StepCalls(t, s, comp) + Heavy(After(t, s, comp)) <= Heavy(t) + 4 * k + 1
    ensures s.Push? || s.b == t.root ==> StepCalls(t, s, comp) + Heavy(After(t, s, comp)) <= Heavy(t) + 3 * k + 1
  {
    match s
    case Push(e) =>
      MergeSize(t, Node(e, Leaf, Leaf), comp);
      AmortisedMerge(t, Node(e, Leaf, Leaf), k, comp);
    case Cut(b) =>
      AmortisedRemove(t, b, k, comp);
  }

  /** From any heap, the calls of a run and the potential it leaves are paid for by the steps, at price c each. */
  lemma {:induction false} RunCost<K>(t: Tree<K>, steps: seq<Step<K>>, k: nat, c: nat, comp: (K, K) -> int)
    requires Runs(t, steps, comp) && PeakSize(t, steps, comp) + 1 < Pow2(k + 1)
    requires c == 4 * k + 1 || (c == 3 * k + 1 && RootsOnly(t, steps, comp))
    ensures RunCalls(t, steps, comp) + Heavy(RunResult(t, steps, comp)) <= Heavy(t) + |steps| * c
    decreases |steps|
  {
    if steps != [] {
      var u := After(t, steps[0], comp);
      StepCost(t, steps[0], k, comp);
      RunCost(u, steps[1..], k, c, comp);
      OneMore(|steps[1..]|, c);
    }
  }

  lemma OneMore(n: nat, c: nat)
    ensures (n + 1) * c == n * c + c
  {
  }

  /** From the empty heap, a run of inserts and removals of any entries costs on average at most
      4 floor(log2(N + 1)) + 1 merge calls a step, and 3 floor(log2(N + 1)) + 1 if entries are removed at the root. */
  lemma AmortisedRun<K>(steps: seq<Step<K>>, comp: (K, K) -> int)
    requires Runs(Leaf, steps, comp)
    ensures RunCalls(Leaf, steps, comp) <= |steps| * (4 * Log2(PeakSize(Leaf, steps, comp) + 1) + 1)
    ensures RootsOnly(Leaf, steps, comp) ==>
      RunCalls(Leaf, steps, comp) <= |steps| * (3 * Log2(PeakSize(Leaf, steps, comp) + 1) + 1)
  {
    AnyRun(steps, comp);
    if RootsOnly(Leaf, steps, comp) { RootRun(steps, comp); }
  }

  lemma AnyRun<K>(steps: seq<Step<K>>, comp: (K, K) -> int)
    requires Runs(Leaf, steps, comp)
    ensures RunCalls(Leaf, steps, comp) <= |steps| * (4 * Log2(PeakSize(Leaf, steps, comp) + 1) + 1)
  {
    var k := Log2(PeakSize(Leaf, steps, comp) + 1);
    RunCost(Leaf, steps, k, 4 * k + 1, comp);
  }

  lemma RootRun<K>(steps: seq<Step<K>>, comp: (K, K) -> int)
    requires Runs(Leaf, steps, comp) && RootsOnly(Leaf, steps, comp)
    ensures RunCalls(Leaf, steps, comp) <= |steps| * (3 * Log2(PeakSize(Leaf, steps, comp) + 1) + 1)
  {
    var k := Log2(PeakSize(Leaf, steps, comp) + 1);
    RunCost(Leaf, steps, k, 3 * k + 1, comp);
  }
}
