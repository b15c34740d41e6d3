/** The searches of tmalloc_large and tmalloc_small on child pointers: they find what the searches of the tries find
    (malloc.c). */
module LinkSearches {
  import opened TreeBins
  import opened TreeLinks
  import opened TreeSearches

  /** The memory holds every tree bin's trie. */
  ghost predicate BinsShown(m: Memory, slots: seq<nat>, heads: seq<nat>, trees: seq<Tree>) {
    && |slots| == |heads| == |trees| == NTREEBINS
    && forall i {:trigger BinShown(m, slots, heads, trees, i)} | 0 <= i < NTREEBINS ::
         BinShown(m, slots, heads, trees, i)
  }

  ghost predicate BinShown(m: Memory, slots: seq<nat>, heads: seq<nat>, trees: seq<Tree>, i: nat)
    requires i < |slots| == |heads| == |trees|
  {
    PointsTo(m, slots[i], heads[i], trees[i])
  }

  /** p is the address of the trie's first chunk, or NULL for the empty trie. */
  ghost predicate PointsTo(m: Memory, parent: nat, p: nat, t: Tree) {
    p == Root(t) && Apart(t) && Shows(m, parent, t)
  }

  /** What the words of a node say. */
  lemma NodeWords(m: Memory, parent: nat, p: nat, t: Tree)
    requires PointsTo(m, parent, p, t)
    ensures p == NULL <==> t == Nil
    ensures t != Nil ==>
      && p in m && m[p].size == t.size && p == t.ring[0]
      && PointsTo(m, p, m[p].left, t.left) && PointsTo(m, p, m[p].right, t.right)
      && (m[p].left == NULL <==> t.left == Nil) && (m[p].right == NULL <==> t.right == Nil)
      && (t.right != Nil && t.left != Nil ==> m[p].left != m[p].right)
  {
    RootKnown(m, parent, t);
    if t != Nil {
      assert LinkedAt(m, t.ring, t.size, 0);
      RootKnown(m, p, t.left);
      RootKnown(m, p, t.right);
      if t.right != Nil {
        RootsApart(t, true);
      }
    }
  }

  function LeftmostLink(m: Memory, p: nat): nat
    requires p in m
  {
    if m[p].left != NULL then m[p].left else m[p].right
  }

  /** The walk down the leftmost children. */
  method LeastLink(m: Memory, start: nat, nb: nat, v0: Found, rsize0: nat,
                   ghost parent: nat, ghost tree: Tree, ghost low: nat, ghost width: nat)
    returns (v: Found, rsize: nat)
    requires PointsTo(m, parent, start, tree) && TrieOk(tree, low, width) && Below(tree, WORD)
    requires nb < WORD && Excess(v0, rsize0, nb)
    ensures Excess(v, rsize, nb) && (v == v0 || FromTrie(v, tree)) && NoWorse(v, v0)
    ensures AtLeast(tree, nb) ==> TreeSearches.Covers(tree, v, Nil, nb)
  {
    v, rsize := v0, rsize0;
    var p := start;
    ghost var t, q, lo: nat, w: nat := tree, parent, low, width;
    NodeWords(m, q, p, t);
    while p != NULL
      invariant PartOf(t, lo, w, tree) && PointsTo(m, q, p, t) && (p == NULL <==> t == Nil)
      invariant Excess(v, rsize, nb) && (v == v0 || FromTrie(v, tree)) && NoWorse(v, v0)
      invariant AtLeast(tree, nb) ==> TreeSearches.Covers(tree, v, t, nb)
      decreases t
    {
      ghost var was := v;
      NodeWords(m, q, p, t);
      assert t.size in Sizes(t) && (t.ring[0], t.size) in Heads(t);
      v, rsize := TryLink(m, p, nb, v, rsize);
      if AtLeast(tree, nb) {
        CoverStep(tree, was, v, t, lo, w, nb);
      }
      lo, w := LeftmostIsPart(t, lo, w, tree);
      q, t := p, LeftmostChild(t);
      p := LeftmostLink(m, p);
      NodeWords(m, q, p, t);
    }
  }

  /** Trying the chunk at which a walk is. */
  method TryLink(m: Memory, p: nat, nb: nat, v0: Found, rsize0: nat) returns (v: Found, rsize: nat)
    requires p in m && nb < WORD && m[p].size < WORD && Excess(v0, rsize0, nb)
    ensures Excess(v, rsize, nb) && NoWorse(v, v0) && (nb <= m[p].size ==> Serves(v, m[p].size))
    ensures v == v0 || v == Chunk(p, m[p].size)
  {
    v, rsize := v0, rsize0;
    var trem := Minus(m[p].size, nb);
    if trem < rsize {
      v := Chunk(p, m[p].size);
      rsize := trem;
    }
  }

  /** The state of the walk through the request's bin: where t and rst point. */
  ghost predicate Walking(m: Memory, d: Descent, root: Tree, t: nat, rst: nat, q: nat, rq: nat) {
    Shaped(d, root) && PointsTo(m, q, t, d.t) && PointsTo(m, rq, rst, d.rst)
  }

  /** The walk through the bin of the request, towards a chunk of exactly its size. */
  method DescendLinks(m: Memory, start: nat, word: nat, nb: nat,
                      ghost parent: nat, ghost root: Tree, ghost low: nat, ghost width: nat, ghost aims: bool)
    returns (v: Found, rsize: nat, t: nat, ghost q: nat, ghost d: Descent)
    requires PointsTo(m, parent, start, root) && root != Nil && TrieOk(root, low, width) && Below(root, WORD)
    requires nb < WORD && (aims ==> Steers(word, nb, low, width))
    ensures Excess(v, rsize, nb) && (v == Nothing || FromTrie(v, root))
    ensures PointsTo(m, q, t, d.t) && TrieOk(d.t, d.lo, d.w) && Within(d.t, root)
    ensures aims ==> AtLeast(d.t, nb) || rsize == 0
    ensures aims ==> forall s | s in Sizes(root) && nb <= s :: Serves(v, s) || Has(d.t, nb, s)
  {
    v, rsize, t := Nothing, WORD - nb, start;
    var sizebits, rst := word, NULL;
    ghost var rq := NULL;
    q, d := parent, At(root, word, low, width, Nil, 0, 0);
    assert aims ==> Complete(d, root, v, nb);
    while true
      invariant d.t != Nil && Walking(m, d, root, t, rst, q, rq) && sizebits == d.bits
      invariant Excess(v, rsize, nb) && (v == Nothing || FromTrie(v, root))
      invariant aims ==> Aims(d, nb) && Complete(d, root, v, nb)
      decreases d.t
    {
      ghost var was := v;
      NodeWords(m, q, t, d.t);
      assert d.t.size in Sizes(d.t) && (d.t.ring[0], d.t.size) in Heads(d.t);
      v, rsize := TryLink(m, t, nb, v, rsize);
      if rsize == 0 {
        return;
      }
      StepDescends(m, d, root, was, v, nb, aims, t, rst, q, rq);
      ghost var next := Down(d);
      var rt := m[t].right;
      var down := Child(m[t], TopBit(sizebits));
      if rt != NULL && rt != down {
        rst := rt;
        rq := t;
      }
      q, t := t, down;
      NodeWords(m, q, t, next.t);
      if t == NULL {
        q, t, d := rq, rst, At(next.rst, 0, next.rlo, next.rw, Nil, 0, 0);
        return;
      }
      d := next;
      sizebits := ShiftLeft(sizebits);
    }
  }

  /** One level down. */
  lemma StepDescends(m: Memory, d: Descent, root: Tree, was: Found, now: Found, nb: nat, aims: bool,
                     t: nat, rst: nat, q: nat, rq: nat)
    requires d.t != Nil && Walking(m, d, root, t, rst, q, rq)
    requires aims ==> Aims(d, nb) && Complete(d, root, was, nb)
    requires NoWorse(now, was) && (nb <= d.t.size ==> Serves(now, d.t.size))
    ensures t in m
    ensures var rt, down := m[t].right, Child(m[t], TopBit(d.bits));
      Walking(m, Down(d), root, down, if rt != NULL && rt != down then rt else rst, t,
              if rt != NULL && rt != down then t else rq)
    ensures Down(d).t == Nil || (Down(d).bits == ShiftLeft(d.bits) && Down(d).t < d.t)
    ensures aims ==> Aims(Down(d), nb) && Complete(Down(d), root, now, nb)
  {
    NodeWords(m, q, t, d.t);
    DownShaped(d, root);
    if aims {
      DownAims(d, root, nb);
      DownComplete(d, root, was, now, nb);
    }
    if d.t.right != Nil {
      RootsApart(d.t, true);
    }
  }

  // ---------------------------------------------------------------- all bins

  /** The tree bins in memory: where the bins are, what they point to, and which are marked. */
  ghost predicate Held(m: Memory, slots: seq<nat>, heads: seq<nat>, treemap: set<nat>, trees: seq<Tree>) {
    BinsShown(m, slots, heads, trees) && TreesOk(trees) && MapOk(trees, treemap)
  }

  /** The part of tmalloc_large about the request's own bin. */
  method SearchOwnLinks(m: Memory, slots: seq<nat>, heads: seq<nat>, nb: nat, ghost trees: seq<Tree>)
    returns (v: Found, rsize: nat, t: nat, ghost q: nat, ghost sub: Tree, ghost lo: nat, ghost w: nat)
    requires BinsShown(m, slots, heads, trees) && TreesOk(trees) && 256 <= nb < WORD && TreeIndex(nb) < NTREEBINS
    ensures Excess(v, rsize, nb) && (v == Nothing || FromBins(trees, v))
    ensures Searchable(trees, sub, lo, w) && PointsTo(m, q, t, sub)
    ensures LargeSize(nb) ==> AtLeast(sub, nb) || rsize == 0
    ensures LargeSize(nb) ==> if v == Nothing && sub == Nil then NoFitInBin(trees, nb) else CoversAll(trees, v, sub, nb)
  {
    var i := TreeIndex(nb);
    ghost var root := trees[i];
    v, rsize, t := Nothing, WORD - nb, heads[i];
    q, sub, lo, w := slots[i], root, BinLow(i), BinWidth(i);
    assert BinShown(m, slots, heads, trees, i);
    NodeWords(m, slots[i], heads[i], root);
    if t != NULL {
      BelowWord(root, i);
      if LargeSize(nb) {
        WordSteers(nb);
      }
      ghost var d;
      v, rsize, t, q, d := DescendLinks(m, t, Word(nb, i), nb, slots[i], root, BinLow(i), BinWidth(i), LargeSize(nb));
      sub, lo, w := d.t, d.lo, d.w;
      if v != Nothing {
        HeadFromBins(trees, i, v);
      }
    }
    BinSearchable(trees, i, sub, lo, w);
    if LargeSize(nb) {
      OwnBinSearched(trees, nb, v, rsize, sub);
    }
  }

  lemma OwnBinSearched(trees: seq<Tree>, nb: nat, v: Found, rsize: nat, sub: Tree)
    requires TreesOk(trees) && LargeSize(nb) && TreeIndex(nb) < NTREEBINS && Excess(v, rsize, nb)
    requires var root := trees[TreeIndex(nb)];
      && Within(sub, root) && (v == Nothing || FromTrie(v, root)) && (AtLeast(sub, nb) || rsize == 0)
      && forall s | s in Sizes(root) && nb <= s :: Serves(v, s) || Has(sub, nb, s)
    ensures if v == Nothing && sub == Nil then NoFitInBin(trees, nb) else CoversAll(trees, v, sub, nb)
  {
    if v != Nothing || sub != Nil {
      OwnBinFirst(trees, v, rsize, sub, nb);
    } else {
      forall c | InTrees(trees, c) && nb <= c.1 ensures TreeIndex(c.1) != TreeIndex(nb) {
        SizeOfChunk(trees, c);
      }
    }
  }

  /** The part of tmalloc_large about the next bin that is not empty. */
  method SearchNextLinks(m: Memory, slots: seq<nat>, heads: seq<nat>, treemap: set<nat>, idx: nat, nb: nat,
                         ghost trees: seq<Tree>)
    returns (t: nat, ghost q: nat, ghost sub: Tree, ghost lo: nat, ghost w: nat)
    requires Held(m, slots, heads, treemap, trees) && idx == TreeIndex(nb)
    ensures Searchable(trees, sub, lo, w) && PointsTo(m, q, t, sub)
    ensures LargeSize(nb) && NoFitInBin(trees, nb) ==> CoversAll(trees, Nothing, sub, nb) && AtLeast(sub, nb)
  {
    t, q, sub, lo, w := NULL, NULL, Nil, 0, 0;
    var leftbits := TreeSearches.Above(treemap, idx);
    if leftbits != {} {
      var i := LeastBit(leftbits);
      t, q, sub, lo, w := heads[i], slots[i], trees[i], BinLow(i), BinWidth(i);
      assert BinShown(m, slots, heads, trees, i);
      BinSearchable(trees, i, sub, lo, w);
      if LargeSize(nb) && NoFitInBin(trees, nb) {
        NextBinLeast(trees, treemap, nb, leftbits, i);
      }
    } else if LargeSize(nb) && NoFitInBin(trees, nb) {
      assert forall j | j in treemap :: j !in leftbits;
      NoNextBin(trees, treemap, nb);
    }
  }

  /** The search of tmalloc_large: a best fit among all chunks that the memory holds in tree bins. */
  method BestLink(m: Memory, slots: seq<nat>, heads: seq<nat>, treemap: set<nat>, nb: nat, ghost trees: seq<Tree>)
    returns (v: Found, rsize: nat)
    requires Held(m, slots, heads, treemap, trees) && 256 <= nb < WORD
    ensures Excess(v, rsize, nb) && BestIn(trees, v, nb)
  {
    IndexBound(nb);
    ghost var q, sub, lo, w;
    var t;
    v, rsize, t, q, sub, lo, w := SearchOwnLinks(m, slots, heads, nb, trees);
    NodeWords(m, q, t, sub);
    if t == NULL && v == Nothing {
      t, q, sub, lo, w := SearchNextLinks(m, slots, heads, treemap, TreeIndex(nb), nb, trees);
    }
    ghost var was := v;
    v, rsize := LeastLink(m, t, nb, v, rsize, q, sub, lo, w);
    forall c | InTrees(trees, c) && nb <= c.1 ensures Serves(v, c.1) {
      assert LargeSize(nb);
      assert Serves(was, c.1) || Has(sub, nb, c.1);
    }
  }

  /** The search of tmalloc_small: a smallest chunk of all. */
  method LeastBinLink(m: Memory, slots: seq<nat>, heads: seq<nat>, treemap: set<nat>, nb: nat, ghost trees: seq<Tree>)
    returns (v: Found, rsize: nat)
    requires Held(m, slots, heads, treemap, trees) && nb < 256 && treemap != {}
    ensures v.Chunk? && Excess(v, rsize, nb) && BestIn(trees, v, nb)
  {
    var i := LeastBit(treemap);
    ghost var t := trees[i];
    var p := heads[i];
    assert BinShown(m, slots, heads, trees, i);
    NodeWords(m, slots[i], p, t);
    BelowWord(t, i);
    assert t.size in Sizes(t) && (t.ring[0], t.size) in Heads(t);
    v, rsize := Chunk(p, m[p].size), Minus(m[p].size, nb);
    ghost var first := v;
    HeadFromBins(trees, i, v);
    ghost var lo, w := LeftmostIsPart(t, BinLow(i), BinWidth(i), t);
    CoverStep(t, Nothing, v, t, BinLow(i), BinWidth(i), nb);
    v, rsize := LeastLink(m, LeftmostLink(m, p), nb, v, rsize, p, LeftmostChild(t), lo, w);
    if v != first {
      HeadFromBins(trees, i, v);
    }
    forall c | InTrees(trees, c) && nb <= c.1 ensures Serves(v, c.1) {
      LeastFitCovers(trees, treemap, i, c, first, v, nb);
    }
  }
}
