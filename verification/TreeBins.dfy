/** The bitwise tries that hold the large free chunks of an mspace (malloc.c). */
module TreeBins {
  import opened Encodings

  /** A treebin node: its chunks are a ring of the same size, in fd order, and the first one is the chunk
      that carries the parent and child links. */
  datatype Tree = Nil | Node(size: nat, ring: Ring, left: Tree, right: Tree)

  type Ring = ring: seq<nat> | ring != [] witness [0]

  const SIZEBITS: nat := 64
  /** The values of a size_t are those below this. */
  const WORD: nat := 0x1_0000_0000_0000_0000
  const NTREEBINS: nat := 32

  // ---------------------------------------------------------------- indices

  /** Position of the highest bit. */
  function Log2(x: nat): (k: nat)
    requires x > 0
    ensures Pow2(k) <= x < Pow2(k + 1)
  {
    if x == 1 then 0 else 1 + Log2(x / 2)
  }

  /** compute_tree_index; the shifted size goes through an unsigned int. */
  function TreeIndex(s: nat): nat {
    var x := s / 256 % 0x1_0000_0000;
    if x == 0 then 0
    else if x > 0xFFFF then NTREEBINS - 1
    else 2 * Log2(x) + s / Pow2(Log2(x) + 7) % 2
  }

  /** minsize_for_tree_index. */
  function MinSize(i: nat): nat {
    Pow2(i / 2 + 8) + if i % 2 == 1 then Pow2(i / 2 + 7) else 0
  }

  /** The sizes that a bin's trie can tell apart: from BinLow(i), 2^BinWidth(i) of them. */
  function BinLow(i: nat): nat {
    if i == NTREEBINS - 1 then 0 else MinSize(i)
  }

  function BinWidth(i: nat): nat {
    if i == NTREEBINS - 1 then SIZEBITS else i / 2 + 7
  }

  lemma {:induction false} Pow2Monotone(a: nat, b: nat)
    requires a <= b
    ensures Pow2(a) <= Pow2(b)
    decreases b - a
  {
    if a < b {
      Pow2Monotone(a, b - 1);
    }
  }

  lemma {:induction false} Pow2Add(a: nat, b: nat)
    ensures Pow2(a + b) == Pow2(a) * Pow2(b)
    decreases a
  {
    if a > 0 {
      Pow2Add(a - 1, b);
    }
  }

  /** The bins divide the sizes into adjoining ranges. */
  lemma MinSizeNext(i: nat)
    ensures MinSize(i + 1) == MinSize(i) + Pow2(i / 2 + 7)
  {
    if i % 2 == 0 {
      assert (i + 1) / 2 == i / 2 && (i + 1) % 2 == 1;
    } else {
      assert (i + 1) / 2 == i / 2 + 1 && (i + 1) % 2 == 0;
    }
  }

  lemma {:induction false} MinSizeMonotone(i: nat, j: nat)
    requires i <= j
    ensures MinSize(i) <= MinSize(j)
    decreases j - i
  {
    if i < j {
      MinSizeNext(j - 1);
      MinSizeMonotone(i, j - 1);
    }
  }

  lemma Powers()
    ensures Pow2(8) == 0x100 && Pow2(16) == 0x1_0000 && Pow2(22) == 0x40_0000 && Pow2(23) == 0x80_0000
    ensures Pow2(40) == 0x100_0000_0000
  {
    assert Pow2(4) == 16 && Pow2(8) == 16 * Pow2(4);
    Pow2Add(8, 8);
    Pow2Add(6, 16);
    assert Pow2(6) == 4 * Pow2(4);
    Pow2Add(1, 22);
    Pow2Add(24, 16);
    Pow2Add(8, 16);
  }

  /** Sizes for which the index computation does not lose bits. */
  predicate LargeSize(s: nat) {
    256 <= s < 0x100_0000_0000
  }

  lemma HighBits(s: nat, x: nat, k: nat)
    requires x == s / 256 && Pow2(k) <= x < Pow2(k + 1)
    ensures Pow2(k + 8) <= s < 2 * Pow2(k + 8)
  {
    Pow2Add(k, 8);
    Powers();
  }

  lemma QuotientBit(s: nat, h: nat)
    requires h > 0 && 2 * h <= s < 4 * h
    ensures s / h % 2 == if s < 3 * h then 0 else 1
  {
    if s < 3 * h {
      Quotient(s, h, 2);
    } else {
      Quotient(s, h, 3);
    }
  }

  lemma Quotient(s: nat, h: nat, q: nat)
    requires h > 0 && q * h <= s < (q + 1) * h
    ensures s / h == q
  {
    var d, m := s / h, s % h;
    assert s == d * h + m && 0 <= m < h;
    if d < q {
      MulAtMost(d + 1, q, h);
    } else if d > q {
      MulAtMost(q + 1, d, h);
    }
  }

  lemma MulAtMost(a: nat, b: nat, u: nat)
    requires a <= b
    ensures a * u <= b * u
  {
    assert (b - a) * u >= 0;
  }

  lemma MinSizes(k: nat)
    ensures MinSize(2 * k) == Pow2(k + 8) && MinSize(2 * k + 1) == Pow2(k + 8) + Pow2(k + 7)
    ensures MinSize(2 * k + 2) == Pow2(k + 9)
  {
    assert (2 * k) / 2 == k && (2 * k + 1) / 2 == k && (2 * k + 2) / 2 == k + 1;
    assert (2 * k) % 2 == 0 && (2 * k + 1) % 2 == 1 && (2 * k + 2) % 2 == 0;
  }

  lemma SmallLog(x: nat, k: nat)
    requires Pow2(k) <= x <= 0xFFFF
    ensures k <= 15
  {
    Powers();
    Pow2Monotone(if k > 15 then 16 else k, k);
  }

  predicate Between(s: nat, i: nat) {
    MinSize(i) <= s < MinSize(i + 1)
  }

  lemma IndexCase(s: nat, k: nat, h: nat)
    requires h == Pow2(k + 7) && Pow2(k + 8) <= s < 2 * Pow2(k + 8)
    ensures Between(s, 2 * k + s / h % 2)
  {
    MinSizes(k);
    PowerDoubles(k + 7);
    PowerDoubles(k + 8);
    HalfOf(s, h, 2 * k);
  }

  lemma HalfOf(s: nat, h: nat, i: nat)
    requires h > 0 && 2 * h <= s < 4 * h && MinSize(i) == 2 * h && MinSize(i + 1) == 3 * h && MinSize(i + 2) == 4 * h
    ensures Between(s, i + s / h % 2)
  {
    QuotientBit(s, h);
  }

  lemma LastMinSize()
    ensures MinSize(31) == 0xC0_0000
  {
    Powers();
    MinSizes(15);
  }

  /** The index of a size is that of the bin whose range holds it. */
  lemma IndexRange(s: nat)
    requires LargeSize(s)
    ensures var i := TreeIndex(s); i < NTREEBINS && MinSize(i) <= s && (i < NTREEBINS - 1 ==> s < MinSize(i + 1))
  {
    var x := s / 256;
    assert 0 < x < 0x1_0000_0000 && s / 256 % 0x1_0000_0000 == x;
    if x > 0xFFFF {
      LastMinSize();
    } else {
      var k := Log2(x);
      SmallLog(x, k);
      HighBits(s, x, k);
      IndexCase(s, k, Pow2(k + 7));
      assert TreeIndex(s) == 2 * k + s / Pow2(k + 7) % 2;
    }
  }

  /** The size bits that reach the index computation: an unsigned int. */
  function IndexBits(s: nat): nat {
    s / 256 % 0x1_0000_0000
  }

  lemma LastBit(s: nat, x: nat)
    requires x == IndexBits(s) && 0x8000 <= x <= 0xFFFF
    ensures s / 0x40_0000 % 2 == if x >= 0xC000 then 1 else 0
  {
    var q, r := s / 256 / 0x1_0000_0000, s % 256;
    assert s == (q * 0x1_0000_0000 + x) * 256 + r;
    var bit := if x >= 0xC000 then 1 else 0;
    var quotient := 2 * (q * 0x2_0000 + 1) + bit;
    Quotient(s, 0x40_0000, quotient);
    Quotient(quotient, 2, q * 0x2_0000 + 1);
    assert quotient % 2 == bit;
  }

  lemma TopLog(x: nat)
    requires 0 < x <= 0xFFFF
    ensures Log2(x) >= 15 <==> x >= 0x8000
  {
    SmallLog(x, Log2(x));
    Powers();
    PowerDoubles(15);
    if Log2(x) < 15 {
      Pow2Monotone(Log2(x) + 1, 15);
    }
  }

  /** Which sizes get the last index. */
  lemma LastIndex(s: nat)
    ensures TreeIndex(s) >= NTREEBINS - 1 <==> IndexBits(s) >= 0xC000
  {
    var x := IndexBits(s);
    if 0 < x <= 0xFFFF {
      TopLog(x);
      SmallLog(x, Log2(x));
      if x >= 0x8000 {
        Powers();
        assert Log2(x) == 15;
        LastBit(s, x);
      }
    }
  }

  /** The index is that of the bin whose range holds the size exactly for sizes below 2^40, of which no bit is
      lost, and for those whose remaining bits are large as well. */
  lemma IndexExact(s: nat)
    requires 256 <= s
    ensures (MinSize(TreeIndex(s)) <= s && (TreeIndex(s) < NTREEBINS - 1 ==> s < MinSize(TreeIndex(s) + 1)))
            <==> s < 0x100_0000_0000 || s / 256 % 0x1_0000_0000 >= 0xC000
  {
    IndexBound(s);
    LastIndex(s);
    if s < 0x100_0000_0000 {
      IndexRange(s);
    } else {
      LastMinSize();
      MinSizeMonotone(TreeIndex(s), NTREEBINS - 1);
      if TreeIndex(s) < NTREEBINS - 1 {
        MinSizeMonotone(TreeIndex(s) + 1, NTREEBINS - 1);
      }
    }
  }

  lemma TerabyteInFirstBin()
    ensures TreeIndex(0x100_0000_0000) == 0 && MinSize(1) == 0x180
  {
    Powers();
    MinSizes(0);
    assert 0x100_0000_0000 / 256 == 0x1_0000_0000;
  }

  /** Larger sizes are in later bins. */
  lemma IndexMonotone(s: nat, s': nat)
    requires LargeSize(s) && LargeSize(s') && TreeIndex(s) < TreeIndex(s')
    ensures s < s'
  {
    var i, j := TreeIndex(s), TreeIndex(s');
    IndexRange(s);
    IndexRange(s');
    assert s < MinSize(i + 1);
    MinSizeMonotone(i + 1, j);
  }

  lemma InBin(s: nat)
    requires LargeSize(s)
    ensures var i := TreeIndex(s); BinLow(i) <= s < BinLow(i) + Pow2(BinWidth(i))
  {
    IndexRange(s);
    BinRange(TreeIndex(s), s);
  }

  lemma BinRange(i: nat, s: nat)
    requires i < NTREEBINS && MinSize(i) <= s < 0x100_0000_0000 && (i < NTREEBINS - 1 ==> s < MinSize(i + 1))
    ensures BinLow(i) <= s < BinLow(i) + Pow2(BinWidth(i))
  {
    if i == NTREEBINS - 1 {
      Pow2Monotone(40, 64);
      Powers();
    } else {
      MinSizeNext(i);
    }
  }

  // ---------------------------------------------------------------- tries

  /** The sizes in a trie. */
  function Sizes(t: Tree): set<nat> {
    match t
    case Nil => {}
    case Node(size, ring, left, right) => {size} + Sizes(left) + Sizes(right)
  }

  /** The chunks in a trie, with their sizes. */
  function Chunks(t: Tree): set<(nat, nat)> {
    match t
    case Nil => {}
    case Node(size, ring, left, right) => (set a | a in ring :: (a, size)) + Chunks(left) + Chunks(right)
  }

  /** The chunks that carry the links: the first of each ring. */
  function Heads(t: Tree): set<(nat, nat)> {
    match t
    case Nil => {}
    case Node(size, ring, left, right) => {(ring[0], size)} + Heads(left) + Heads(right)
  }

  lemma {:induction false} HeadsAreChunks(t: Tree)
    ensures Heads(t) <= Chunks(t)
  {
    if t != Nil {
      HeadsAreChunks(t.left);
      HeadsAreChunks(t.right);
      assert t.ring[0] in t.ring;
    }
  }

  /** A bitwise trie over the sizes from lo, 2^w of them: a node may have any of these sizes, and below it
      the next bit decides; every size has one node, with a ring of different chunks. */
  ghost predicate TrieOk(t: Tree, lo: nat, w: nat) {
    match t
    case Nil => true
    case Node(size, ring, left, right) =>
      && Distinct(ring) && lo <= size < lo + Pow2(w)
      && size !in Sizes(left) && size !in Sizes(right)
      && if w == 0 then left == Nil && right == Nil
         else TrieOk(left, lo, w - 1) && TrieOk(right, lo + Pow2(w - 1), w - 1)
  }

  lemma {:induction false} SizesInRange(t: Tree, lo: nat, w: nat, s: nat)
    requires TrieOk(t, lo, w) && s in Sizes(t)
    ensures lo <= s < lo + Pow2(w)
  {
    if s != t.size {
      assert w > 0;
      if s in Sizes(t.left) {
        SizesInRange(t.left, lo, w - 1, s);
      } else {
        SizesInRange(t.right, lo + Pow2(w - 1), w - 1, s);
      }
    }
  }

  lemma {:induction false} ChunksHaveSizes(t: Tree, lo: nat, w: nat)
    requires TrieOk(t, lo, w)
    ensures forall c | c in Chunks(t) :: c.1 in Sizes(t)
    ensures forall s | s in Sizes(t) :: exists c | c in Chunks(t) :: c.1 == s
  {
    if t != Nil {
      if w > 0 {
        ChunksHaveSizes(t.left, lo, w - 1);
        ChunksHaveSizes(t.right, lo + Pow2(w - 1), w - 1);
      }
      assert (t.ring[0], t.size) in Chunks(t);
    }
  }

  /** The word shifted left by one, as a 64-bit word. */
  function ShiftLeft(bits: nat): nat {
    bits * 2 % WORD
  }

  predicate TopBit(bits: nat) {
    bits >= WORD / 2
  }

  /** The top bits of a word lead to size s in a trie over the sizes from lo: each says in which half it is. */
  ghost predicate Steers(bits: nat, s: nat, lo: nat, w: nat)
    decreases w
  {
    && lo <= s < lo + Pow2(w)
    && (w > 0 ==>
          && (TopBit(bits) <==> s >= lo + Pow2(w - 1))
          && Steers(ShiftLeft(bits), s, if TopBit(bits) then lo + Pow2(w - 1) else lo, w - 1))
  }

  /** The offset of the size in its range, moved to the top of the word, does so. */
  lemma {:induction false} OffsetSteers(bits: nat, s: nat, lo: nat, w: nat, u: nat)
    requires lo <= s < lo + Pow2(w) && bits == (s - lo) * u && Pow2(w) * u == WORD
    ensures Steers(bits, s, lo, w)
    decreases w
  {
    if w > 0 {
      var half := Pow2(w - 1);
      NextBit(bits, s - lo, half, u);
      OffsetSteers(ShiftLeft(bits), s, if TopBit(bits) then lo + half else lo, w - 1, 2 * u);
    }
  }

  lemma NextBit(bits: nat, r: nat, half: nat, u: nat)
    requires r < 2 * half && bits == r * u && 2 * half * u == WORD
    ensures TopBit(bits) <==> r >= half
    ensures ShiftLeft(bits) == (if r >= half then r - half else r) * (2 * u) && half * (2 * u) == WORD
  {
    HalfWord(half, u);
    ShiftOut(r, half, u, WORD / 2);
  }

  lemma HalfWord(half: nat, u: nat)
    requires 2 * half * u == WORD
    ensures half * u == WORD / 2 && half * (2 * u) == WORD && u > 0
  {
    assert 2 * half * u == 2 * (half * u);
  }

  lemma PowerDoubles(n: nat)
    ensures Pow2(n + 1) == 2 * Pow2(n)
  {
  }

  lemma ShiftOut(r: nat, half: nat, u: nat, top: nat)
    requires u > 0 && half * u == top && r < 2 * half
    ensures r * u >= top <==> r >= half
    ensures r * u * 2 % (2 * top) == (if r >= half then r - half else r) * (2 * u)
  {
    if r < half {
      MulBelow(r, half, u);
      Remainder(r * u * 2, 2 * top, 0, r * (2 * u));
    } else {
      var d := r - half;
      MulBelow(d, half, u);
      assert r * u == d * u + half * u;
      Remainder(r * u * 2, 2 * top, 1, d * (2 * u));
    }
  }

  lemma Remainder(a: nat, m: nat, q: nat, r: nat)
    requires r < m && a == q * m + r
    ensures a % m == r
  {
    Quotient(a, m, q);
  }

  lemma MulBelow(a: nat, b: nat, u: nat)
    requires a < b && u > 0
    ensures a * u < b * u
  {
    assert (b - a) * u > 0;
  }

  /** insert_large_chunk below a node: to the ring of its size, or down by the next bit. */
  function Insert(t: Tree, bits: nat, x: nat, s: nat): Tree {
    match t
    case Nil => Node(s, [x], Nil, Nil)
    case Node(size, ring, left, right) =>
      if size == s then Node(size, ring[..1] + [x] + ring[1..], left, right)
      else if TopBit(bits) then Node(size, ring, left, Insert(right, ShiftLeft(bits), x, s))
      else Node(size, ring, Insert(left, ShiftLeft(bits), x, s), right)
  }

  /** Inserting a new chunk keeps the trie and adds exactly the chunk. */
  lemma {:induction false} InsertKeeps(t: Tree, bits: nat, lo: nat, w: nat, x: nat, s: nat)
    requires Steers(bits, s, lo, w) && TrieOk(t, lo, w) && (x, s) !in Chunks(t)
    ensures TrieOk(Insert(t, bits, x, s), lo, w)
    ensures Chunks(Insert(t, bits, x, s)) == Chunks(t) + {(x, s)}
    ensures Sizes(Insert(t, bits, x, s)) == Sizes(t) + {s}
    decreases t
  {
    match t
    case Nil => LeafOk(x, s, lo, w);
    case Node(size, ring, left, right) =>
      if size == s {
        InsertHere(t, bits, lo, w, x);
      } else {
        assert w > 0;
        var next := ShiftLeft(bits);
        if TopBit(bits) {
          InsertKeeps(right, next, lo + Pow2(w - 1), w - 1, x, s);
          GraftRight(t, lo, w, Insert(right, next, x, s), x, s);
        } else {
          InsertKeeps(left, next, lo, w - 1, x, s);
          GraftLeft(t, lo, w, Insert(left, next, x, s), x, s);
        }
      }
  }

  lemma LeafOk(x: nat, s: nat, lo: nat, w: nat)
    requires lo <= s < lo + Pow2(w)
    ensures TrieOk(Node(s, [x], Nil, Nil), lo, w)
  {
    assert w > 0 ==> TrieOk(Nil, lo, w - 1) && TrieOk(Nil, lo + Pow2(w - 1), w - 1);
  }

  lemma InsertHere(t: Tree, bits: nat, lo: nat, w: nat, x: nat)
    requires t != Nil && TrieOk(t, lo, w) && (x, t.size) !in Chunks(t)
    ensures var now := Insert(t, bits, x, t.size);
      TrieOk(now, lo, w) && Sizes(now) == Sizes(t) && Chunks(now) == Chunks(t) + {(x, t.size)}
  {
    RingInsert(t.ring, x, t.size);
  }

  lemma GraftLeft(t: Tree, lo: nat, w: nat, left: Tree, x: nat, s: nat)
    requires t != Nil && w > 0 && TrieOk(t, lo, w) && TrieOk(left, lo, w - 1) && s != t.size
    requires Sizes(left) == Sizes(t.left) + {s} && Chunks(left) == Chunks(t.left) + {(x, s)}
    ensures var now := t.(left := left);
      TrieOk(now, lo, w) && Sizes(now) == Sizes(t) + {s} && Chunks(now) == Chunks(t) + {(x, s)}
  {
  }

  lemma GraftRight(t: Tree, lo: nat, w: nat, right: Tree, x: nat, s: nat)
    requires t != Nil && w > 0 && TrieOk(t, lo, w) && TrieOk(right, lo + Pow2(w - 1), w - 1) && s != t.size
    requires Sizes(right) == Sizes(t.right) + {s} && Chunks(right) == Chunks(t.right) + {(x, s)}
    ensures var now := t.(right := right);
      TrieOk(now, lo, w) && Sizes(now) == Sizes(t) + {s} && Chunks(now) == Chunks(t) + {(x, s)}
  {
  }

  lemma RingInsert(ring: seq<nat>, x: nat, s: nat)
    requires ring != [] && Distinct(ring) && (x, s) !in (set a | a in ring :: (a, s))
    ensures Distinct(ring[..1] + [x] + ring[1..])
    ensures (set a | a in ring[..1] + [x] + ring[1..] :: (a, s)) == (set a | a in ring :: (a, s)) + {(x, s)}
  {
    var now := ring[..1] + [x] + ring[1..];
    assert x !in ring;
    forall i, j | 0 <= i < j < |now| ensures now[i] != now[j] {
      assert now[j] == x || now[j] == ring[j - 1];
    }
    forall a ensures a in now <==> a in ring || a == x {
      if a in ring {
        var i :| 0 <= i < |ring| && ring[i] == a;
        assert now[if i == 0 then 0 else i + 1] == a;
      }
      if a == x {
        assert now[1] == x;
      }
    }
  }

  // ---------------------------------------------------------------- unlinking

  /** The rightmost descendent of a node, which is a leaf, and what is left without it. */
  function PopLeaf(t: Tree): (r: (Tree, Tree))
    requires t != Nil
    ensures r.0 != Nil
  {
    if t.right != Nil then
      var (leaf, rest) := PopLeaf(t.right);
      (leaf, t.(right := rest))
    else if t.left != Nil then
      var (leaf, rest) := PopLeaf(t.left);
      (leaf, t.(left := rest))
    else (t, Nil)
  }

  lemma {:induction false} PopLeafKeeps(t: Tree, lo: nat, w: nat)
    requires t != Nil && TrieOk(t, lo, w)
    ensures var (leaf, rest) := PopLeaf(t);
      && TrieOk(rest, lo, w) && Distinct(leaf.ring)
      && leaf.size !in Sizes(rest) && Sizes(t) == Sizes(rest) + {leaf.size}
      && Chunks(t) == Chunks(rest) + (set a | a in leaf.ring :: (a, leaf.size))
  {
    if t.right != Nil {
      PopLeafKeeps(t.right, lo + Pow2(w - 1), w - 1);
      SidesApart(t, lo, w);
    } else if t.left != Nil {
      PopLeafKeeps(t.left, lo, w - 1);
      SidesApart(t, lo, w);
    }
  }

  /** The two subtrees hold different sizes: all of the left are below all of the right. */
  lemma SidesApart(t: Tree, lo: nat, w: nat)
    requires t != Nil && TrieOk(t, lo, w) && w > 0
    ensures forall s | s in Sizes(t.left) :: lo <= s < lo + Pow2(w - 1)
    ensures forall s | s in Sizes(t.right) :: lo + Pow2(w - 1) <= s < lo + Pow2(w)
  {
    forall s | s in Sizes(t.left) ensures lo <= s < lo + Pow2(w - 1) {
      SizesInRange(t.left, lo, w - 1, s);
    }
    forall s | s in Sizes(t.right) ensures lo + Pow2(w - 1) <= s < lo + Pow2(w) {
      SizesInRange(t.right, lo + Pow2(w - 1), w - 1, s);
    }
  }

  /** The ring without x: if x carried the links, the chunk before it in fd order takes its place. */
  function RingWithout(ring: seq<nat>, x: nat): Ring
    requires |ring| > 1
  {
    if x == ring[0] then [ring[|ring| - 1]] + ring[1..|ring| - 1]
    else
      assert ring[0] in WithoutElement(ring, x);
      WithoutElement(ring, x)
  }

  function WithoutElement(s: seq<nat>, x: nat): (t: seq<nat>)
    ensures forall a :: a in t <==> a in s && a != x
  {
    if s == [] then []
    else WithoutElement(s[..|s| - 1], x) + if s[|s| - 1] == x then [] else [s[|s| - 1]]
  }

  lemma {:induction false} WithoutDistinct(s: seq<nat>, x: nat)
    requires Distinct(s)
    ensures Distinct(WithoutElement(s, x)) && |WithoutElement(s, x)| >= |s| - 1
  {
    if s != [] {
      var rest, last := s[..|s| - 1], s[|s| - 1];
      WithoutDistinct(rest, x);
      if last == x {
        NotThere(rest, x);
      } else {
        assert last !in rest;
        AppendDistinct(WithoutElement(rest, x), last);
      }
    }
  }

  lemma AppendDistinct(s: seq<nat>, a: nat)
    requires Distinct(s) && a !in s
    ensures Distinct(s + [a])
  {
  }

  lemma {:induction false} NotThere(s: seq<nat>, x: nat)
    requires x !in s
    ensures WithoutElement(s, x) == s
  {
    if s != [] {
      NotThere(s[..|s| - 1], x);
    }
  }

  /** The last chunk takes the first one's place. */
  lemma LastForFirst(ring: seq<nat>, now: seq<nat>, n: nat)
    requires Distinct(ring) && |ring| == n + 1 && n > 0 && |now| == n
    requires now[0] == ring[n] && forall i | 0 < i < n :: now[i] == ring[i]
    ensures Distinct(now) && forall a :: a in now <==> a in ring && a != ring[0]
  {
    forall i, j | 0 <= i < j < n ensures now[i] != now[j] {
      assert now[j] == ring[j];
    }
    forall a | a in ring && a != ring[0] ensures a in now {
      var i :| 0 <= i < |ring| && ring[i] == a;
      assert now[if i == n then 0 else i] == a;
    }
  }

  lemma RingWithoutKeeps(ring: seq<nat>, x: nat)
    requires |ring| > 1 && Distinct(ring) && x in ring
    ensures Distinct(RingWithout(ring, x))
    ensures forall a :: a in RingWithout(ring, x) <==> a in ring && a != x
  {
    if x == ring[0] {
      LastForFirst(ring, RingWithout(ring, x), |ring| - 1);
    } else {
      WithoutDistinct(ring, x);
    }
  }

  function Reversed(s: seq<nat>): seq<nat> {
    if s == [] then [] else Reversed(s[1..]) + [s[0]]
  }

  /** The chunks of a ring in the order in which they came. */
  function Arrivals(ring: Ring): seq<nat> {
    [ring[0]] + Reversed(ring[1..])
  }

  lemma {:induction false} ReversedAppend(s: seq<nat>, a: nat)
    ensures Reversed(s + [a]) == [a] + Reversed(s)
  {
    if s != [] {
      ReversedAppend(s[1..], a);
      assert (s + [a])[1..] == s[1..] + [a];
    }
  }

  /** A ring is a first-in first-out queue: a chunk joins at the end, and unlinking the first, which is the one
      that the searches find, leaves the others in their order. */
  lemma RingIsFIFO(ring: Ring, x: nat)
    ensures Arrivals(ring[..1] + [x] + ring[1..]) == Arrivals(ring) + [x]
    ensures |ring| > 1 ==> Arrivals(RingWithout(ring, ring[0])) == Arrivals(ring)[1..]
  {
    var now := ring[..1] + [x] + ring[1..];
    assert now[1..] == [x] + ring[1..];
    assert ([x] + ring[1..])[1..] == ring[1..];
    if |ring| > 1 {
      var n := |ring| - 1;
      ReversedAppend(ring[1..n], ring[n]);
      assert ring[1..] == ring[1..n] + [ring[n]];
      assert RingWithout(ring, ring[0])[1..] == ring[1..n];
    }
  }

  /** unlink_large_chunk. */
  function Remove(t: Tree, lo: nat, w: nat, x: nat, s: nat): Tree
    requires TrieOk(t, lo, w)
    decreases t
  {
    match t
    case Nil => Nil
    case Node(size, ring, left, right) =>
      if size == s then
        if |ring| > 1 then Node(size, RingWithout(ring, x), left, right)
        else if right != Nil then
          var (leaf, rest) := PopLeaf(right);
          Node(leaf.size, leaf.ring, left, rest)
        else if left != Nil then
          var (leaf, rest) := PopLeaf(left);
          Node(leaf.size, leaf.ring, rest, right)
        else Nil
      else if w == 0 then t
      else if s < lo + Pow2(w - 1) then Node(size, ring, Remove(left, lo, w - 1, x, s), right)
      else Node(size, ring, left, Remove(right, lo + Pow2(w - 1), w - 1, x, s))
  }

  lemma {:induction false} OnlyItsSize(t: Tree, lo: nat, w: nat, c: (nat, nat))
    requires TrieOk(t, lo, w) && c.1 !in Sizes(t)
    ensures c !in Chunks(t)
  {
    ChunksHaveSizes(t, lo, w);
  }

  /** Unlinking a chunk keeps the trie and removes exactly the chunk. */
  lemma {:induction false} RemoveKeeps(t: Tree, lo: nat, w: nat, x: nat, s: nat)
    requires TrieOk(t, lo, w) && (x, s) in Chunks(t)
    ensures TrieOk(Remove(t, lo, w, x, s), lo, w)
    ensures Chunks(Remove(t, lo, w, x, s)) == Chunks(t) - {(x, s)}
    ensures Sizes(Remove(t, lo, w, x, s)) <= Sizes(t)
    decreases t
  {
    if t.size == s {
      RemoveHere(t, lo, w, x);
    } else {
      RemoveSide(t, lo, w, x, s);
      if s < lo + Pow2(w - 1) {
        RemoveKeeps(t.left, lo, w - 1, x, s);
      } else {
        RemoveKeeps(t.right, lo + Pow2(w - 1), w - 1, x, s);
      }
    }
  }

  /** A chunk of another size is on the side that its size says, and only there. */
  lemma RemoveSide(t: Tree, lo: nat, w: nat, x: nat, s: nat)
    requires t != Nil && TrieOk(t, lo, w) && (x, s) in Chunks(t) && s != t.size
    ensures w > 0 && (x, s) in Chunks(if s < lo + Pow2(w - 1) then t.left else t.right)
    ensures (x, s) !in Chunks(if s < lo + Pow2(w - 1) then t.right else t.left)
    ensures (x, s) !in (set a | a in t.ring :: (a, t.size))
  {
    assert w > 0;
    SidesApart(t, lo, w);
    ChunksHaveSizes(t.left, lo, w - 1);
    ChunksHaveSizes(t.right, lo + Pow2(w - 1), w - 1);
  }

  lemma RemoveFromRing(t: Tree, lo: nat, w: nat, x: nat)
    requires t != Nil && TrieOk(t, lo, w) && x in t.ring && |t.ring| > 1
    requires (x, t.size) !in Chunks(t.left) && (x, t.size) !in Chunks(t.right)
    ensures TrieOk(Remove(t, lo, w, x, t.size), lo, w)
    ensures Chunks(Remove(t, lo, w, x, t.size)) == Chunks(t) - {(x, t.size)}
    ensures Sizes(Remove(t, lo, w, x, t.size)) == Sizes(t)
  {
    RingWithoutKeeps(t.ring, x);
  }

  lemma RemoveHere(t: Tree, lo: nat, w: nat, x: nat)
    requires t != Nil && TrieOk(t, lo, w) && (x, t.size) in Chunks(t)
    ensures TrieOk(Remove(t, lo, w, x, t.size), lo, w)
    ensures Chunks(Remove(t, lo, w, x, t.size)) == Chunks(t) - {(x, t.size)}
    ensures Sizes(Remove(t, lo, w, x, t.size)) <= Sizes(t)
  {
    if w > 0 {
      OnlyItsSize(t.left, lo, w - 1, (x, t.size));
      OnlyItsSize(t.right, lo + Pow2(w - 1), w - 1, (x, t.size));
    }
    if |t.ring| > 1 {
      RemoveFromRing(t, lo, w, x);
    } else {
      assert t.ring == [x];
      if w > 0 {
        RemoveLast(t, lo, w, x);
      }
    }
  }

  /** Taking away the only chunk of a node, which a leaf below it replaces. */
  lemma RemoveLast(t: Tree, lo: nat, w: nat, x: nat)
    requires t != Nil && TrieOk(t, lo, w) && t.ring == [x] && w > 0
    requires (x, t.size) !in Chunks(t.left) && (x, t.size) !in Chunks(t.right)
    ensures var now := Remove(t, lo, w, x, t.size);
      TrieOk(now, lo, w) && Chunks(now) == Chunks(t.left) + Chunks(t.right)
        && Sizes(now) == Sizes(t.left) + Sizes(t.right)
  {
    SidesApart(t, lo, w);
    if t.right != Nil {
      PopLeafKeeps(t.right, lo + Pow2(w - 1), w - 1);
    } else if t.left != Nil {
      PopLeafKeeps(t.left, lo, w - 1);
    }
  }

  // ---------------------------------------------------------------- the bins

  /** A bin holds a trie, of sizes that belong in it. */
  ghost predicate TreeOk(t: Tree, i: nat) {
    TrieOk(t, BinLow(i), BinWidth(i)) && forall s | s in Sizes(t) :: LargeSize(s) && TreeIndex(s) == i
  }

  ghost predicate TreesOk(trees: seq<Tree>) {
    |trees| == NTREEBINS && forall i | 0 <= i < NTREEBINS :: TreeOk(trees[i], i)
  }

  /** A chunk of this size is in a tree bin. */
  ghost predicate InTrees(trees: seq<Tree>, c: (nat, nat)) {
    LargeSize(c.1) && TreeIndex(c.1) < |trees| && c in Chunks(trees[TreeIndex(c.1)])
  }

  /** treemap has a bit for each bin that is not empty. */
  ghost predicate MapOk(trees: seq<Tree>, treemap: set<nat>) {
    forall i :: i in treemap <==> 0 <= i < |trees| && trees[i] != Nil
  }

  lemma BinReplaced(trees: seq<Tree>, i: nat, t: Tree)
    requires TreesOk(trees) && i < NTREEBINS && TreeOk(t, i)
    ensures TreesOk(trees[i := t])
    ensures forall c | InTrees(trees[i := t], c) :: TreeIndex(c.1) != i ==> InTrees(trees, c)
    ensures forall c | InTrees(trees, c) :: TreeIndex(c.1) != i ==> InTrees(trees[i := t], c)
    ensures forall c | InTrees(trees[i := t], c) :: TreeIndex(c.1) == i ==> c in Chunks(t)
  {
    var now := trees[i := t];
    forall j | 0 <= j < NTREEBINS ensures TreeOk(now[j], j) {
      assert j != i ==> now[j] == trees[j];
    }
  }

  /** Inserting a chunk into its bin. */
  lemma TreesInsert(trees: seq<Tree>, i: nat, x: nat, s: nat, now: seq<Tree>)
    requires TreesOk(trees) && LargeSize(s) && i == TreeIndex(s) < NTREEBINS && !InTrees(trees, (x, s))
    requires now == trees[i := Insert(trees[i], Word(s, i), x, s)]
    ensures TreesOk(now) && now[i] != Nil && forall c :: InTrees(now, c) <==> InTrees(trees, c) || c == (x, s)
  {
    WordSteers(s);
    var t := trees[i];
    InsertKeeps(t, Word(s, i), BinLow(i), BinWidth(i), x, s);
    BinReplaced(trees, i, now[i]);
  }

  /** Unlinking a chunk from its bin. */
  lemma TreesRemove(trees: seq<Tree>, i: nat, x: nat, s: nat, now: seq<Tree>)
    requires TreesOk(trees) && InTrees(trees, (x, s)) && i == TreeIndex(s)
    requires now == trees[i := Remove(trees[i], BinLow(i), BinWidth(i), x, s)]
    ensures TreesOk(now) && forall c :: InTrees(now, c) <==> InTrees(trees, c) && c != (x, s)
  {
    RemoveKeeps(trees[i], BinLow(i), BinWidth(i), x, s);
    BinReplaced(trees, i, now[i]);
  }

  // ---------------------------------------------------------------- steering words

  /** leftshift_for_tree_index. */
  function LeftShift(i: nat): nat
    requires i < NTREEBINS
  {
    if i == NTREEBINS - 1 then 0 else SIZEBITS - 1 - (i / 2 + 6)
  }

  /** The word that steers the walk for a size in a bin. */
  function Word(s: nat, i: nat): nat
    requires i < NTREEBINS
  {
    s * Pow2(LeftShift(i)) % WORD
  }

  lemma WordPower(w: nat)
    requires w <= SIZEBITS
    ensures Pow2(w) * Pow2(SIZEBITS - w) == WORD
  {
    Pow2Add(w, SIZEBITS - w);
    WordIsPower();
  }

  lemma WordIsPower()
    ensures Pow2(SIZEBITS) == WORD
  {
    Pow2Add(40, 24);
    Pow2Add(1, 23);
    Powers();
  }

  lemma IndexBound(s: nat)
    ensures TreeIndex(s) < NTREEBINS
  {
    var x := s / 256 % 0x1_0000_0000;
    if 0 < x <= 0xFFFF {
      SmallLog(x, Log2(x));
    }
  }

  /** A bin starts at a multiple of its width, so shifting a size up to the top of the word drops the start. */
  lemma StartDrops(i: nat)
    requires i < NTREEBINS
    ensures BinWidth(i) <= SIZEBITS && LeftShift(i) == SIZEBITS - BinWidth(i)
    ensures exists m: nat :: BinLow(i) == m * Pow2(BinWidth(i))
  {
    if i == NTREEBINS - 1 {
      assert BinLow(i) == 0 * Pow2(BinWidth(i));
    } else {
      PowerDoubles(i / 2 + 7);
      assert BinLow(i) == (if i % 2 == 1 then 3 else 2) * Pow2(BinWidth(i));
    }
  }

  lemma ShiftedOffset(lo: nat, m: nat, p: nat, u: nat, s: nat)
    requires lo == m * p && p * u == WORD && lo <= s < lo + p && u > 0
    ensures s * u % WORD == (s - lo) * u
  {
    var r := s - lo;
    MulBelow(r, p, u);
    assert s * u == m * p * u + r * u;
    assert m * p * u == m * (p * u);
    Remainder(s * u, WORD, m, r * u);
  }

  lemma WordSteers(s: nat)
    requires LargeSize(s)
    ensures var i := TreeIndex(s); i < NTREEBINS && Steers(Word(s, i), s, BinLow(i), BinWidth(i))
  {
    IndexRange(s);
    InBin(s);
    var i := TreeIndex(s);
    var lo, w, u := BinLow(i), BinWidth(i), Pow2(LeftShift(i));
    StartDrops(i);
    WordPower(w);
    var m: nat :| lo == m * Pow2(w);
    ShiftedOffset(lo, m, Pow2(w), u, s);
    OffsetSteers(Word(s, i), s, lo, w, u);
  }
}
