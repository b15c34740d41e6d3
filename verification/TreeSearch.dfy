/** Best-fit search among the tree-binned chunks (tmalloc_large and tmalloc_small of malloc.c). */
module TreeSearches {
  import opened Encodings
  import opened TreeBins

  /** A chunk found so far: its address and size. */
  datatype Found = Nothing | Chunk(addr: nat, size: nat)

  /** Subtraction of size_t values. */
  function Minus(a: nat, b: nat): nat
    requires a < WORD && b < WORD
  {
    if b <= a then a - b else a + WORD - b
  }

  /** The best fit so far and how much it exceeds the request; nothing found counts as the largest excess. */
  predicate Excess(v: Found, rsize: nat, nb: nat) {
    match v
    case Nothing => rsize == WORD - nb
    case Chunk(_, size) => nb <= size < WORD && rsize == size - nb
  }

  /** A trie has a size that serves the request no worse than s. */
  ghost predicate Has(t: Tree, nb: nat, s: nat) {
    exists r | r in Sizes(t) :: nb <= r <= s
  }

  /** The chunk found serves the request no worse than size s. */
  predicate Serves(v: Found, s: nat) {
    v.Chunk? && v.size <= s
  }

  /** The chunk found heads the ring of its size in the trie. */
  ghost predicate FromTrie(v: Found, t: Tree) {
    v.Chunk? && (v.addr, v.size) in Heads(t)
  }

  ghost predicate Within(t: Tree, all: Tree) {
    Sizes(t) <= Sizes(all) && Heads(t) <= Heads(all)
  }

  ghost predicate Below(t: Tree, n: nat) {
    forall s | s in Sizes(t) :: s < n
  }

  ghost predicate AtLeast(t: Tree, n: nat) {
    forall s | s in Sizes(t) :: n <= s
  }

  function LeftmostChild(t: Tree): Tree
    requires t.Node?
  {
    if t.left != Nil then t.left else t.right
  }

  /** Going to the leftmost child loses no better fit than the node itself. */
  lemma LeftmostCovers(t: Tree, lo: nat, w: nat, nb: nat, s: nat)
    requires t != Nil && TrieOk(t, lo, w) && AtLeast(t, nb) && Has(t, nb, s)
    ensures t.size <= s || Has(LeftmostChild(t), nb, s)
  {
    var r :| r in Sizes(t) && nb <= r <= s;
    if r in Sizes(t.right) && t.left != Nil {
      SidesApart(t, lo, w);
      assert t.left.size in Sizes(t.left);
    }
  }

  /** t is a trie over the sizes from lo, and a part of another. */
  ghost predicate PartOf(t: Tree, lo: nat, w: nat, all: Tree) {
    TrieOk(t, lo, w) && Within(t, all)
  }

  lemma LeftmostIsPart(t: Tree, lo: nat, w: nat, all: Tree) returns (low: nat, width: nat)
    requires t != Nil && PartOf(t, lo, w, all)
    ensures PartOf(LeftmostChild(t), low, width, all)
  {
    if w == 0 {
      low, width := lo, w;
    } else {
      low, width := if t.left != Nil then lo else lo + Pow2(w - 1), w - 1;
    }
  }

  /** The chunk found, or one in t, serves the request no worse than any size that is served in all. */
  ghost predicate Covers(all: Tree, v: Found, t: Tree, nb: nat) {
    forall s | Has(all, nb, s) :: Serves(v, s) || Has(t, nb, s)
  }

  /** The later choice is no worse than the earlier one. */
  predicate NoWorse(now: Found, was: Found) {
    was.Chunk? ==> now.Chunk? && now.size <= was.size
  }

  lemma CoverStep(all: Tree, was: Found, now: Found, t: Tree, lo: nat, w: nat, nb: nat)
    requires Covers(all, was, t, nb) && NoWorse(now, was)
    requires t != Nil && TrieOk(t, lo, w) && AtLeast(t, nb) && Serves(now, t.size)
    ensures Covers(all, now, LeftmostChild(t), nb)
  {
    forall s | Has(all, nb, s) && !Serves(now, s) ensures Has(LeftmostChild(t), nb, s) {
      LeftmostCovers(t, lo, w, nb, s);
    }
  }

  /** Trying the node at which the walk is. */
  method Try(t: Tree, nb: nat, v0: Found, rsize0: nat) returns (v: Found, rsize: nat)
    requires nb < WORD && t != Nil && t.size < WORD && Excess(v0, rsize0, nb)
    ensures Excess(v, rsize, nb) && NoWorse(v, v0) && (nb <= t.size ==> Serves(v, t.size))
    ensures v == v0 || v == Chunk(t.ring[0], t.size)
  {
    v, rsize := v0, rsize0;
    var trem := Minus(t.size, nb);
    if trem < rsize {
      v := Chunk(t.ring[0], t.size);
      rsize := trem;
    }
  }

  /** The walk down the leftmost children that ends both searches. */
  method LeastOf(start: Tree, ghost low: nat, ghost width: nat, nb: nat, v0: Found, rsize0: nat)
    returns (v: Found, rsize: nat)
    requires nb < WORD && TrieOk(start, low, width) && Below(start, WORD) && Excess(v0, rsize0, nb)
    ensures Excess(v, rsize, nb) && (v == v0 || FromTrie(v, start)) && NoWorse(v, v0)
    ensures AtLeast(start, nb) ==> Covers(start, v, Nil, nb)
  {
    v, rsize := v0, rsize0;
    var t := start;
    ghost var lo: nat, w: nat := low, width;
    while t != Nil
      invariant PartOf(t, lo, w, start)
      invariant Excess(v, rsize, nb) && (v == v0 || FromTrie(v, start)) && NoWorse(v, v0)
      invariant AtLeast(start, nb) ==> Covers(start, v, t, nb)
      decreases t
    {
      ghost var was := v;
      assert t.size in Sizes(t) && (t.ring[0], t.size) in Heads(t);
      v, rsize := Try(t, nb, v, rsize);
      if AtLeast(start, nb) {
        CoverStep(start, was, v, t, lo, w, nb);
      }
      lo, w := LeftmostIsPart(t, lo, w, start);
      t := LeftmostChild(t);
    }
  }

  // ---------------------------------------------------------------- the bin of the request

  /** Where the descent through the request's own bin is: at t, having passed by the right subtree rst. */
  datatype Descent = At(t: Tree, bits: nat, lo: nat, w: nat, rst: Tree, rlo: nat, rw: nat)

  ghost predicate Shaped(d: Descent, root: Tree) {
    TrieOk(d.t, d.lo, d.w) && TrieOk(d.rst, d.rlo, d.rw) && Within(d.t, root) && Within(d.rst, root)
  }

  /** The request's size is in the range of t, and the sizes in rst are larger than that range. */
  ghost predicate Aims(d: Descent, nb: nat) {
    Steers(d.bits, nb, d.lo, d.w) && AtLeast(d.rst, nb) && (d.rst != Nil ==> d.lo + Pow2(d.w) <= d.rlo)
  }

  /** No better fit was left out. */
  ghost predicate Complete(d: Descent, root: Tree, v: Found, nb: nat) {
    forall s | s in Sizes(root) && nb <= s :: Serves(v, s) || Has(d.t, nb, s) || Has(d.rst, nb, s)
  }

  /** One level down, as the top bit says; a right subtree that is not taken is remembered. */
  function Down(d: Descent): Descent
    requires d.t != Nil
  {
    if d.w == 0 then d.(t := Nil)
    else
      var mid, next := d.lo + Pow2(d.w - 1), ShiftLeft(d.bits);
      if TopBit(d.bits) then At(d.t.right, next, mid, d.w - 1, d.rst, d.rlo, d.rw)
      else if d.t.right != Nil then At(d.t.left, next, d.lo, d.w - 1, d.t.right, mid, d.w - 1)
      else At(d.t.left, next, d.lo, d.w - 1, d.rst, d.rlo, d.rw)
  }

  lemma DownShaped(d: Descent, root: Tree)
    requires d.t != Nil && Shaped(d, root)
    ensures Shaped(Down(d), root)
  {
  }

  lemma DownAims(d: Descent, root: Tree, nb: nat)
    requires d.t != Nil && Shaped(d, root) && Aims(d, nb)
    ensures Aims(Down(d), nb)
  {
    if d.w > 0 {
      SidesApart(d.t, d.lo, d.w);
      PowerDoubles(d.w - 1);
    }
  }

  lemma DownComplete(d: Descent, root: Tree, was: Found, now: Found, nb: nat)
    requires d.t != Nil && Shaped(d, root) && Aims(d, nb) && Complete(d, root, was, nb)
    requires NoWorse(now, was) && (nb <= d.t.size ==> Serves(now, d.t.size))
    ensures Complete(Down(d), root, now, nb)
  {
    forall s | s in Sizes(root) && nb <= s && !Serves(now, s)
      ensures Has(Down(d).t, nb, s) || Has(Down(d).rst, nb, s)
    {
      DownCovers(d, nb, s);
    }
  }

  lemma DownCovers(d: Descent, nb: nat, s: nat)
    requires d.t != Nil && TrieOk(d.t, d.lo, d.w) && TrieOk(d.rst, d.rlo, d.rw) && Aims(d, nb)
    requires Has(d.t, nb, s) || Has(d.rst, nb, s)
    ensures nb <= d.t.size <= s || Has(Down(d).t, nb, s) || Has(Down(d).rst, nb, s)
  {
    if d.w > 0 {
      SidesApart(d.t, d.lo, d.w);
      if Has(d.t, nb, s) {
        var r :| r in Sizes(d.t) && nb <= r <= s;
        assert r == d.t.size || r in Sizes(d.t.left) || r in Sizes(d.t.right);
      } else if !TopBit(d.bits) && d.t.right != Nil {
        var r :| r in Sizes(d.rst) && nb <= r <= s;
        SizesInRange(d.rst, d.rlo, d.rw, r);
        assert d.t.right.size in Sizes(d.t.right);
      }
    }
  }

  /** The right subtree differs from the left one, so comparing it with the child taken tells which was taken. */
  lemma SidesDiffer(t: Tree, lo: nat, w: nat)
    requires t != Nil && TrieOk(t, lo, w) && t.right != Nil
    ensures t.right != t.left
  {
    SidesApart(t, lo, w);
    assert t.right.size in Sizes(t.right);
  }

  /** The walk through the bin of the request, towards a node of exactly its size; it leaves the least subtree
      that holds larger sizes. */
  method Descend(root: Tree, word: nat, ghost low: nat, ghost width: nat, nb: nat, ghost aims: bool)
    returns (v: Found, rsize: nat, t: Tree, ghost lo: nat, ghost w: nat)
    requires nb < WORD && root != Nil && TrieOk(root, low, width) && Below(root, WORD)
    requires aims ==> Steers(word, nb, low, width)
    ensures Excess(v, rsize, nb) && (v == Nothing || FromTrie(v, root))
    ensures TrieOk(t, lo, w) && Within(t, root)
    ensures aims ==> AtLeast(t, nb) || rsize == 0
    ensures aims ==> forall s | s in Sizes(root) && nb <= s :: Serves(v, s) || Has(t, nb, s)
  {
    v, rsize, t := Nothing, WORD - nb, root;
    var sizebits := word;
    var rst := Nil;
    ghost var d := At(root, word, low, width, Nil, 0, 0);
    assert aims ==> Complete(d, root, v, nb);
    while true
      invariant t != Nil && t == d.t && sizebits == d.bits && rst == d.rst
      invariant Shaped(d, root) && Excess(v, rsize, nb) && (v == Nothing || FromTrie(v, root))
      invariant aims ==> Aims(d, nb) && Complete(d, root, v, nb)
      decreases t
    {
      ghost var was := v;
      assert t.size in Sizes(t) && (t.ring[0], t.size) in Heads(t);
      v, rsize := Try(t, nb, v, rsize);
      if rsize == 0 {
        return v, rsize, t, d.lo, d.w;
      }
      DownShaped(d, root);
      if aims {
        DownAims(d, root, nb);
        DownComplete(d, root, was, v, nb);
      }
      var rt := t.right;
      if rt != Nil {
        SidesDiffer(t, d.lo, d.w);
      }
      t := if TopBit(sizebits) then t.right else t.left;
      if rt != Nil && rt != t {
        rst := rt;
      }
      d := Down(d);
      if t == Nil {
        return v, rsize, rst, d.rlo, d.rw;
      }
      sizebits := ShiftLeft(sizebits);
    }
  }

  // ---------------------------------------------------------------- all bins

  /** compute_bit2idx of least_bit. */
  method LeastBit(bits: set<nat>) returns (i: nat)
    requires bits != {}
    ensures i in bits && forall j | j in bits :: i <= j
  {
    i := 0;
    ghost var some :| some in bits;
    while i !in bits
      invariant i <= some && forall j | j in bits :: i <= j
      decreases some - i
    {
      i := i + 1;
    }
  }

  /** The chunk found, or one in t, serves the request no worse than any chunk in the tree bins. */
  ghost predicate CoversAll(trees: seq<Tree>, v: Found, t: Tree, nb: nat) {
    forall c | InTrees(trees, c) && nb <= c.1 :: Serves(v, c.1) || Has(t, nb, c.1)
  }

  lemma SizeOfChunk(trees: seq<Tree>, c: (nat, nat))
    requires TreesOk(trees) && InTrees(trees, c)
    ensures c.1 in Sizes(trees[TreeIndex(c.1)])
  {
    var i := TreeIndex(c.1);
    ChunksHaveSizes(trees[i], BinLow(i), BinWidth(i));
  }

  /** After the walk through the request's bin: later bins hold larger sizes only. */
  lemma OwnBinFirst(trees: seq<Tree>, v: Found, rsize: nat, t: Tree, nb: nat)
    requires TreesOk(trees) && LargeSize(nb) && TreeIndex(nb) < NTREEBINS
    requires var root := trees[TreeIndex(nb)];
      && Within(t, root) && Excess(v, rsize, nb) && (v == Nothing || FromTrie(v, root))
      && (AtLeast(t, nb) || rsize == 0)
      && forall s | s in Sizes(root) && nb <= s :: Serves(v, s) || Has(t, nb, s)
    requires v != Nothing || t != Nil
    ensures CoversAll(trees, v, t, nb)
  {
    var i := TreeIndex(nb);
    forall c | InTrees(trees, c) && nb <= c.1 ensures Serves(v, c.1) || Has(t, nb, c.1) {
      SizeOfChunk(trees, c);
      if TreeIndex(c.1) != i {
        LaterIndex(nb, c.1);
        if v.Chunk? {
          HeadsAreChunks(trees[i]);
          ChunksHaveSizes(trees[i], BinLow(i), BinWidth(i));
          assert (v.addr, v.size) in Chunks(trees[i]);
          IndexMonotone(v.size, c.1);
        } else {
          assert t.size in Sizes(t);
          IndexMonotone(t.size, c.1);
        }
      }
    }
  }

  lemma LaterIndex(nb: nat, s: nat)
    requires LargeSize(nb) && LargeSize(s) && nb <= s
    ensures TreeIndex(nb) <= TreeIndex(s)
  {
    if TreeIndex(s) < TreeIndex(nb) {
      IndexMonotone(s, nb);
    }
  }

  /** When the request's bin has nothing, the next bin that is not empty has the best fits. */
  lemma NextBin(trees: seq<Tree>, treemap: set<nat>, nb: nat, i: nat)
    requires TreesOk(trees) && MapOk(trees, treemap) && LargeSize(nb) && TreeIndex(nb) < i
    requires forall c | InTrees(trees, c) && nb <= c.1 :: TreeIndex(c.1) != TreeIndex(nb)
    requires i in treemap && forall j | j in treemap && TreeIndex(nb) < j :: i <= j
    ensures AtLeast(trees[i], nb) && CoversAll(trees, Nothing, trees[i], nb)
  {
    var t := trees[i];
    forall s | s in Sizes(t) ensures nb <= s {
      IndexMonotone(nb, s);
    }
    forall c | InTrees(trees, c) && nb <= c.1 ensures Has(t, nb, c.1) {
      SizeOfChunk(trees, c);
      LaterIndex(nb, c.1);
      var j := TreeIndex(c.1);
      assert j in treemap;
      if i < j {
        assert t.size in Sizes(t);
        IndexMonotone(t.size, c.1);
      }
    }
  }

  lemma MarkedBin(trees: seq<Tree>, treemap: set<nat>, nb: nat, c: (nat, nat))
    requires TreesOk(trees) && MapOk(trees, treemap) && LargeSize(nb) && InTrees(trees, c) && nb <= c.1
    ensures TreeIndex(c.1) in treemap && TreeIndex(nb) <= TreeIndex(c.1)
  {
    SizeOfChunk(trees, c);
    LaterIndex(nb, c.1);
  }

  lemma NoNextBin(trees: seq<Tree>, treemap: set<nat>, nb: nat)
    requires TreesOk(trees) && MapOk(trees, treemap) && LargeSize(nb)
    requires forall c | InTrees(trees, c) && nb <= c.1 :: TreeIndex(c.1) != TreeIndex(nb)
    requires forall j | j in treemap :: j <= TreeIndex(nb)
    ensures CoversAll(trees, Nothing, Nil, nb)
  {
    forall c | InTrees(trees, c) && nb <= c.1 ensures TreeIndex(c.1) == TreeIndex(nb) {
      MarkedBin(trees, treemap, nb, c);
    }
  }

  /** A chunk found is one that the searches may hand out: it heads the ring of its size in its bin. */
  ghost predicate FromBins(trees: seq<Tree>, v: Found) {
    && v.Chunk? && LargeSize(v.size) && TreeIndex(v.size) < |trees|
    && InTrees(trees, (v.addr, v.size)) && (v.addr, v.size) in Heads(trees[TreeIndex(v.size)])
  }

  lemma HeadFromBins(trees: seq<Tree>, i: nat, v: Found)
    requires TreesOk(trees) && i < NTREEBINS && FromTrie(v, trees[i])
    ensures FromBins(trees, v)
  {
    HeadsAreChunks(trees[i]);
    ChunksHaveSizes(trees[i], BinLow(i), BinWidth(i));
  }

  lemma BelowWord(t: Tree, i: nat)
    requires TreeOk(t, i)
    ensures Below(t, WORD)
  {
  }

  /** The best fit among all tree-binned chunks: one of the smallest size that serves the request, and nothing
      only if no chunk serves it. */
  ghost predicate BestIn(trees: seq<Tree>, v: Found, nb: nat) {
    && (v.Chunk? ==> FromBins(trees, v) && nb <= v.size)
    && forall c | InTrees(trees, c) && nb <= c.1 :: Serves(v, c.1)
  }

  /** A subtree of some bin, below which the search may go on. */
  ghost predicate Searchable(trees: seq<Tree>, t: Tree, lo: nat, w: nat) {
    TrieOk(t, lo, w) && Below(t, WORD) && forall u | FromTrie(u, t) :: FromBins(trees, u)
  }

  lemma BinSearchable(trees: seq<Tree>, i: nat, t: Tree, lo: nat, w: nat)
    requires TreesOk(trees) && i < NTREEBINS && TrieOk(t, lo, w) && Within(t, trees[i])
    ensures Searchable(trees, t, lo, w)
  {
    BelowWord(trees[i], i);
    forall u | FromTrie(u, t) ensures FromBins(trees, u) {
      HeadFromBins(trees, i, u);
    }
  }

  /** No chunk in the bin of the request serves it. */
  ghost predicate NoFitInBin(trees: seq<Tree>, nb: nat) {
    forall c | InTrees(trees, c) && nb <= c.1 :: TreeIndex(c.1) != TreeIndex(nb)
  }

  method SearchOwnBin(trees: seq<Tree>, nb: nat)
    returns (v: Found, rsize: nat, t: Tree, ghost lo: nat, ghost w: nat)
    requires TreesOk(trees) && 256 <= nb < WORD && TreeIndex(nb) < NTREEBINS
    ensures Excess(v, rsize, nb) && (v == Nothing || FromBins(trees, v)) && Searchable(trees, t, lo, w)
    ensures LargeSize(nb) ==> AtLeast(t, nb) || rsize == 0
    ensures LargeSize(nb) ==> if v == Nothing && t == Nil then NoFitInBin(trees, nb) else CoversAll(trees, v, t, nb)
  {
    var i := TreeIndex(nb);
    var root := trees[i];
    v, rsize, t, lo, w := Nothing, WORD - nb, root, BinLow(i), BinWidth(i);
    if root != Nil {
      BelowWord(root, i);
      if LargeSize(nb) {
        WordSteers(nb);
      }
      v, rsize, t, lo, w := Descend(root, Word(nb, i), BinLow(i), BinWidth(i), nb, LargeSize(nb));
      if v != Nothing {
        HeadFromBins(trees, i, v);
      }
    }
    BinSearchable(trees, i, t, lo, w);
    if LargeSize(nb) {
      if v != Nothing || t != Nil {
        OwnBinFirst(trees, v, rsize, t, nb);
      } else {
        forall c | InTrees(trees, c) && nb <= c.1 ensures TreeIndex(c.1) != i {
          SizeOfChunk(trees, c);
        }
      }
    }
  }

  lemma NextBinLeast(trees: seq<Tree>, treemap: set<nat>, nb: nat, leftbits: set<nat>, i: nat)
    requires TreesOk(trees) && MapOk(trees, treemap) && LargeSize(nb) && NoFitInBin(trees, nb)
    requires leftbits == Above(treemap, TreeIndex(nb)) && i in leftbits && forall j | j in leftbits :: i <= j
    ensures AtLeast(trees[i], nb) && CoversAll(trees, Nothing, trees[i], nb)
  {
    forall j | j in treemap && TreeIndex(nb) < j ensures i <= j {
      assert j in leftbits;
    }
    NextBin(trees, treemap, nb, i);
  }

  /** The bits of a map above one of them, as left_bits selects them. */
  function Above(bits: set<nat>, idx: nat): set<nat> {
    set j | j in bits && idx < j
  }

  method SearchNextBin(trees: seq<Tree>, treemap: set<nat>, idx: nat, nb: nat)
    returns (t: Tree, ghost lo: nat, ghost w: nat)
    requires TreesOk(trees) && MapOk(trees, treemap) && idx == TreeIndex(nb)
    ensures Searchable(trees, t, lo, w)
    ensures LargeSize(nb) && NoFitInBin(trees, nb) ==> CoversAll(trees, Nothing, t, nb) && AtLeast(t, nb)
  {
    t, lo, w := Nil, 0, 0;
    var leftbits := Above(treemap, idx);
    if leftbits != {} {
      var i := LeastBit(leftbits);
      t, lo, w := trees[i], BinLow(i), BinWidth(i);
      BinSearchable(trees, i, t, lo, w);
      if LargeSize(nb) && NoFitInBin(trees, nb) {
        NextBinLeast(trees, treemap, nb, leftbits, i);
      }
    } else if LargeSize(nb) && NoFitInBin(trees, nb) {
      assert forall j | j in treemap :: j !in leftbits;
      NoNextBin(trees, treemap, nb);
    }
  }

  /** The search of tmalloc_large. */
  method BestFit(trees: seq<Tree>, treemap: set<nat>, nb: nat) returns (v: Found, rsize: nat)
    requires TreesOk(trees) && MapOk(trees, treemap) && 256 <= nb < WORD
    ensures Excess(v, rsize, nb) && BestIn(trees, v, nb)
  {
    IndexBound(nb);
    ghost var lo, w;
    var t;
    v, rsize, t, lo, w := SearchOwnBin(trees, nb);
    if t == Nil && v == Nothing {
      t, lo, w := SearchNextBin(trees, treemap, TreeIndex(nb), nb);
    }
    ghost var was := v;
    v, rsize := LeastOf(t, lo, w, nb, v, rsize);
    forall c | InTrees(trees, c) && nb <= c.1 ensures Serves(v, c.1) {
      assert LargeSize(nb);
      assert Serves(was, c.1) || Has(t, nb, c.1);
    }
  }

  lemma LeastFitCovers(trees: seq<Tree>, treemap: set<nat>, i: nat, c: (nat, nat), first: Found, v: Found, nb: nat)
    requires TreesOk(trees) && MapOk(trees, treemap) && nb < 256
    requires i in treemap && forall j | j in treemap :: i <= j
    requires Serves(first, trees[i].size) && Covers(trees[i], first, LeftmostChild(trees[i]), nb)
    requires NoWorse(v, first) && Covers(LeftmostChild(trees[i]), v, Nil, nb)
    requires InTrees(trees, c)
    ensures Serves(v, c.1)
  {
    var t := trees[i];
    SizeOfChunk(trees, c);
    if TreeIndex(c.1) == i {
      assert Has(t, nb, c.1);
    } else {
      assert TreeIndex(c.1) in treemap && t.size in Sizes(t);
      IndexMonotone(t.size, c.1);
    }
  }

  /** The search of tmalloc_small: a request below all tree-binned sizes, in the least bin that is not empty. */
  method LeastFit(trees: seq<Tree>, treemap: set<nat>, nb: nat) returns (v: Found, rsize: nat)
    requires TreesOk(trees) && MapOk(trees, treemap) && nb < 256 && treemap != {}
    ensures v.Chunk? && Excess(v, rsize, nb) && BestIn(trees, v, nb)
  {
    var i := LeastBit(treemap);
    var t := trees[i];
    BelowWord(t, i);
    assert t.size in Sizes(t);
    v, rsize := Chunk(t.ring[0], t.size), Minus(t.size, nb);
    assert (t.ring[0], t.size) in Heads(t);
    ghost var first := v;
    HeadFromBins(trees, i, v);
    ghost var lo, w := LeftmostIsPart(t, BinLow(i), BinWidth(i), t);
    CoverStep(t, Nothing, v, t, BinLow(i), BinWidth(i), nb);
    v, rsize := LeastOf(LeftmostChild(t), lo, w, nb, v, rsize);
    if v != first {
      HeadFromBins(trees, i, v);
    }
    forall c | InTrees(trees, c) && nb <= c.1 ensures Serves(v, c.1) {
      LeastFitCovers(trees, treemap, i, c, first, v, nb);
    }
  }
}
