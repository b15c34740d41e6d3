/** The chunks of an mspace segment: boundary tags that tile it (malloc.c). */
module Heaps {
  /** The head word of a chunk: its size, whether it is in use, and whether the chunk before it is. */
  datatype Head = Head(size: nat, cinuse: bool, pinuse: bool)

  /** The head words, the foot words (prev_foot of the chunk that follows), the addresses at which chunks start,
      and the top chunk, which borders the end of the segment. */
  datatype Heap = Heap(heads: map<nat, Head>, feet: map<nat, nat>, starts: set<nat>, top: nat, topsize: nat)

  const MIN_CHUNK_SIZE: nat := 32
  /** Up to this size compute_tree_index loses no bits. */
  const SIZE_LIMIT: nat := 0x100_0000_0000

  function Next(h: Heap, p: nat): nat
    requires p in h.heads
  {
    p + h.heads[p].size
  }

  predicate Boundary(h: Heap, a: nat) {
    (a in h.starts || a == h.top) && a in h.heads
  }

  /** One chunk: its size, the chunk after it, whose flag tells whether this one is in use, and the chunk before
      it, which a foot word locates if it is free. A free chunk has neighbours in use. */
  ghost predicate ChunkOk(h: Heap, base: nat, p: nat) {
    && p in h.heads && base <= p < h.top
    && var s := h.heads[p].size;
    && s >= MIN_CHUNK_SIZE && s % 8 == 0
    && Boundary(h, p + s) && (h.heads[p + s].pinuse <==> h.heads[p].cinuse)
    && (!h.heads[p].cinuse ==>
          && h.heads[p].pinuse && p + s in h.starts && h.heads[p + s].cinuse
          && p + s in h.feet && h.feet[p + s] == s)
    && (!h.heads[p].pinuse ==>
          && p in h.feet && h.feet[p] <= p && p - h.feet[p] in h.starts && p - h.feet[p] in h.heads
          && !h.heads[p - h.feet[p]].cinuse && h.heads[p - h.feet[p]].size == h.feet[p])
  }

  /** The chunks and top tile the segment from base to end. */
  ghost predicate HeapOk(h: Heap, base: nat, end: nat) {
    && 0 < base <= h.top && h.topsize > 0 && h.top + h.topsize == end && end - base < SIZE_LIMIT
    && Boundary(h, base) && h.heads[base].pinuse
    && h.top !in h.starts && h.top in h.heads && h.heads[h.top] == Head(h.topsize, false, true)
    && (forall p {:trigger ChunkOk(h, base, p)} | p in h.starts :: ChunkOk(h, base, p))
    && Disjoint(h)
  }

  ghost predicate Disjoint(h: Heap) {
    forall p, q {:trigger Apart(h, p, q)} | p in h.starts && q in h.starts :: Apart(h, p, q)
  }

  /** The chunk at p ends before q, if it starts before q. */
  predicate Apart(h: Heap, p: nat, q: nat) {
    p < q ==> p in h.heads && Next(h, p) <= q
  }

  predicate IsFree(h: Heap, c: (nat, nat)) {
    c.0 in h.starts && c.0 in h.heads && h.heads[c.0].size == c.1 && !h.heads[c.0].cinuse
  }

  predicate IsUsed(h: Heap, c: (nat, nat)) {
    c.0 in h.starts && c.0 in h.heads && h.heads[c.0].size == c.1 && h.heads[c.0].cinuse
  }

  lemma OneBefore(h: Heap, base: nat, end: nat, p: nat, q: nat)
    requires HeapOk(h, base, end) && p in h.starts && q in h.starts && p != q
    ensures p in h.heads && q in h.heads && Next(h, p) != Next(h, q)
  {
    assert ChunkOk(h, base, p) && ChunkOk(h, base, q) && Apart(h, p, q) && Apart(h, q, p);
  }

  lemma EndsBefore(h: Heap, p: nat, q: nat)
    requires Disjoint(h) && p in h.starts && q in h.starts && p < q
    ensures p in h.heads && Next(h, p) <= q
  {
    assert Apart(h, p, q);
  }

  lemma EndsBeforeTop(h: Heap, base: nat, end: nat, x: nat)
    requires HeapOk(h, base, end) && x in h.starts
    ensures ChunkOk(h, base, x) && Next(h, x) <= h.top
  {
    assert ChunkOk(h, base, x);
    if Next(h, x) in h.starts {
      assert ChunkOk(h, base, Next(h, x));
    }
  }

  // ---------------------------------------------------------------- tiling

  /** Address a is inside the chunk at p. */
  predicate Inside(h: Heap, a: nat, p: nat) {
    p in h.starts && p in h.heads && p <= a < Next(h, p)
  }

  /** Every address of the segment is inside exactly one chunk, or inside top. */
  lemma Tiles(h: Heap, base: nat, end: nat, a: nat) returns (p: nat)
    requires HeapOk(h, base, end) && base <= a < end
    ensures if a < h.top then Inside(h, a, p) else p == h.top
    ensures forall q | Inside(h, a, q) :: q == p
  {
    p := h.top;
    if a < h.top {
      p := TileFrom(h, base, end, a, base);
    }
    forall q | Inside(h, a, q) ensures q == p {
      EndsBeforeTop(h, base, end, q);
      assert Apart(h, p, q) && Apart(h, q, p);
    }
  }

  lemma {:induction false} TileFrom(h: Heap, base: nat, end: nat, a: nat, from: nat) returns (p: nat)
    requires HeapOk(h, base, end) && base <= from <= a < h.top && Boundary(h, from)
    ensures Inside(h, a, p)
    decreases a - from
  {
    assert ChunkOk(h, base, from);
    p := from;
    if Next(h, from) <= a {
      p := TileFrom(h, base, end, a, Next(h, from));
    }
  }

  // ---------------------------------------------------------------- steps

  /** A chunk in use becomes free: set_free_with_pinuse. */
  function MarkFree(h: Heap, p: nat): Heap
    requires p in h.heads && Next(h, p) in h.heads
  {
    var n, s := Next(h, p), h.heads[p].size;
    h.(heads := h.heads[p := Head(s, false, true)][n := h.heads[n].(pinuse := false)], feet := h.feet[n := s])
  }

  lemma MarkFreeChunk(h: Heap, base: nat, p: nat, x: nat)
    requires p in h.starts && ChunkOk(h, base, p) && h.heads[p].cinuse && h.heads[p].pinuse
    requires Next(h, p) in h.starts && h.heads[Next(h, p)].cinuse
    requires x in h.starts && ChunkOk(h, base, x) && (x == p || Next(h, x) != Next(h, p))
    ensures ChunkOk(MarkFree(h, p), base, x)
  {
  }

  lemma MarkFreeKeeps(h: Heap, base: nat, end: nat, p: nat)
    requires HeapOk(h, base, end) && p in h.starts && p in h.heads && h.heads[p].cinuse && h.heads[p].pinuse
    requires Next(h, p) in h.starts && Next(h, p) in h.heads && h.heads[Next(h, p)].cinuse
    ensures HeapOk(MarkFree(h, p), base, end)
    ensures forall c :: IsFree(MarkFree(h, p), c) <==> IsFree(h, c) || c == (p, h.heads[p].size)
    ensures forall c :: IsUsed(MarkFree(h, p), c) <==> IsUsed(h, c) && c.0 != p
  {
    var g := MarkFree(h, p);
    assert ChunkOk(h, base, p);
    forall x {:trigger ChunkOk(g, base, x)} | x in g.starts ensures ChunkOk(g, base, x) {
      assert ChunkOk(h, base, x);
      if x != p {
        OneBefore(h, base, end, x, p);
      }
      MarkFreeChunk(h, base, p, x);
    }
    forall x, y {:trigger Apart(g, x, y)} | x in g.starts && y in g.starts ensures Apart(g, x, y) {
      assert Apart(h, x, y);
    }
  }

  /** A free chunk comes into use: set_inuse_and_pinuse. */
  function Claim(h: Heap, p: nat): Heap
    requires p in h.heads && Next(h, p) in h.heads
  {
    var n := Next(h, p);
    h.(heads := h.heads[p := h.heads[p].(cinuse := true)][n := h.heads[n].(pinuse := true)])
  }

  lemma ClaimChunk(h: Heap, base: nat, p: nat, x: nat)
    requires p in h.starts && ChunkOk(h, base, p) && !h.heads[p].cinuse
    requires x in h.starts && ChunkOk(h, base, x) && (x == p || Next(h, x) != Next(h, p))
    ensures ChunkOk(Claim(h, p), base, x)
  {
  }

  lemma ClaimKeeps(h: Heap, base: nat, end: nat, p: nat)
    requires HeapOk(h, base, end) && p in h.starts && p in h.heads && !h.heads[p].cinuse && Next(h, p) in h.heads
    ensures HeapOk(Claim(h, p), base, end)
    ensures forall c :: IsFree(Claim(h, p), c) <==> IsFree(h, c) && c.0 != p
    ensures forall c :: IsUsed(Claim(h, p), c) <==> IsUsed(h, c) || c == (p, h.heads[p].size)
  {
    var g := Claim(h, p);
    assert ChunkOk(h, base, p);
    forall x {:trigger ChunkOk(g, base, x)} | x in g.starts ensures ChunkOk(g, base, x) {
      assert ChunkOk(h, base, x);
      if x != p {
        OneBefore(h, base, end, x, p);
      }
      ClaimChunk(h, base, p, x);
    }
    forall x, y {:trigger Apart(g, x, y)} | x in g.starts && y in g.starts ensures Apart(g, x, y) {
      assert Apart(h, x, y);
    }
  }

  /** Two adjacent chunks become one in use. */
  function Join(h: Heap, p: nat): Heap
    requires p in h.heads && Next(h, p) in h.heads && Next(h, Next(h, p)) in h.heads
  {
    var q := Next(h, p);
    var n := Next(h, q);
    h.(heads := h.heads[p := Head(n - p, true, h.heads[p].pinuse)][n := h.heads[n].(pinuse := true)],
    starts := h.starts - {q})
  }

  lemma JoinChunk(h: Heap, base: nat, p: nat, q: nat, x: nat)
    requires p in h.starts && q in h.starts && ChunkOk(h, base, p) && q == Next(h, p) && ChunkOk(h, base, q)
    requires x in h.starts && ChunkOk(h, base, x) && x != q
    requires Next(h, x) != Next(h, q) && (x == p || Next(h, x) != q)
    ensures ChunkOk(Join(h, p), base, x)
  {
  }

  lemma JoinKeeps(h: Heap, base: nat, end: nat, p: nat)
    requires HeapOk(h, base, end) && p in h.starts && p in h.heads && Next(h, p) in h.starts && Next(h, p) in h.heads
    requires Next(h, Next(h, p)) in h.heads
    ensures HeapOk(Join(h, p), base, end)
    ensures forall c :: IsFree(Join(h, p), c) <==> IsFree(h, c) && c.0 != p && c.0 != Next(h, p)
    ensures forall c ::
      IsUsed(Join(h, p), c)
      <==> (IsUsed(h, c) && c.0 != p && c.0 != Next(h, p)) || c == (p, Next(h, Next(h, p)) - p)
  {
    var g, q := Join(h, p), Next(h, p);
    assert ChunkOk(h, base, p) && ChunkOk(h, base, q);
    forall x {:trigger ChunkOk(g, base, x)} | x in g.starts ensures ChunkOk(g, base, x) {
      assert ChunkOk(h, base, x);
      OneBefore(h, base, end, x, q);
      if x != p {
        OneBefore(h, base, end, x, p);
      }
      JoinChunk(h, base, p, q, x);
    }
    forall x, y {:trigger Apart(g, x, y)} | x in g.starts && y in g.starts ensures Apart(g, x, y) {
      assert Apart(h, x, y) && Apart(h, q, y) && (y <= q ==> Apart(h, p, y));
    }
  }

  /** A chunk in use becomes two, the first of size nb. */
  function Split(h: Heap, p: nat, nb: nat): Heap
    requires p in h.heads && nb <= h.heads[p].size
  {
    h.(heads := h.heads[p := Head(nb, true, h.heads[p].pinuse)][p + nb := Head(h.heads[p].size - nb, true, true)],
    starts := h.starts + {p + nb})
  }

  lemma SplitChunk(h: Heap, base: nat, p: nat, nb: nat, x: nat)
    requires p in h.starts && ChunkOk(h, base, p) && h.heads[p].cinuse
    requires nb % 8 == 0 && MIN_CHUNK_SIZE <= nb && nb + MIN_CHUNK_SIZE <= h.heads[p].size
    requires p + nb !in h.starts && p + nb < h.top
    requires x == p + nb || (x in h.starts && ChunkOk(h, base, x) && (x == p || Next(h, x) != Next(h, p)))
    ensures ChunkOk(Split(h, p, nb), base, x)
  {
  }

  lemma SplitKeeps(h: Heap, base: nat, end: nat, p: nat, nb: nat)
    requires HeapOk(h, base, end) && p in h.starts && p in h.heads && h.heads[p].cinuse
    requires nb % 8 == 0 && MIN_CHUNK_SIZE <= nb && nb + MIN_CHUNK_SIZE <= h.heads[p].size
    ensures HeapOk(Split(h, p, nb), base, end)
    ensures forall c :: IsFree(Split(h, p, nb), c) <==> IsFree(h, c)
    ensures forall c ::
      IsUsed(Split(h, p, nb), c)
      <==> (IsUsed(h, c) && c.0 != p) || c == (p, nb) || c == (p + nb, h.heads[p].size - nb)
  {
    var g, r := Split(h, p, nb), p + nb;
    EndsBeforeTop(h, base, end, p);
    if r in h.starts {
      EndsBefore(h, p, r);
    }
    forall x {:trigger ChunkOk(g, base, x)} | x in g.starts ensures ChunkOk(g, base, x) {
      if x != r {
        assert ChunkOk(h, base, x);
        if x != p {
          OneBefore(h, base, end, x, p);
        }
      }
      SplitChunk(h, base, p, nb, x);
    }
    forall x, y {:trigger Apart(g, x, y)} | x in g.starts && y in g.starts ensures Apart(g, x, y) {
      if x != r && y != r {
        assert Apart(h, x, y);
      } else if y == r && x != r {
        assert Apart(h, x, p) && Apart(h, p, x);
      } else if x == r && y != r {
        assert Apart(h, p, y);
      }
    }
  }

  /** A chunk in use that borders top becomes part of it. */
  function JoinTop(h: Heap, p: nat): Heap
    requires p in h.heads
  {
    var size := h.topsize + h.heads[p].size;
    h.(heads := h.heads[p := Head(size, false, true)], starts := h.starts - {p}, top := p, topsize := size)
  }

  lemma JoinTopChunk(h: Heap, base: nat, p: nat, x: nat)
    requires p in h.starts && ChunkOk(h, base, p) && h.heads[p].cinuse && h.heads[p].pinuse && Next(h, p) == h.top
    requires x in h.starts && ChunkOk(h, base, x) && x < p && Next(h, x) <= p
    ensures ChunkOk(JoinTop(h, p), base, x)
  {
  }

  lemma JoinTopKeeps(h: Heap, base: nat, end: nat, p: nat)
    requires HeapOk(h, base, end) && p in h.starts && p in h.heads && h.heads[p].cinuse && h.heads[p].pinuse
    requires Next(h, p) == h.top
    ensures HeapOk(JoinTop(h, p), base, end)
    ensures forall c :: IsFree(JoinTop(h, p), c) <==> IsFree(h, c)
    ensures forall c :: IsUsed(JoinTop(h, p), c) <==> IsUsed(h, c) && c.0 != p
  {
    var g := JoinTop(h, p);
    assert ChunkOk(h, base, p);
    forall x {:trigger ChunkOk(g, base, x)} | x in g.starts ensures ChunkOk(g, base, x) {
      assert ChunkOk(h, base, x) && Apart(h, x, p) && Apart(h, p, x);
      JoinTopChunk(h, base, p, x);
    }
    forall x, y {:trigger Apart(g, x, y)} | x in g.starts && y in g.starts ensures Apart(g, x, y) {
      assert Apart(h, x, y);
    }
  }

  /** The first part of top becomes a chunk in use. */
  function SplitTop(h: Heap, nb: nat): Heap
    requires nb <= h.topsize
  {
    h.(heads := h.heads[h.top := Head(nb, true, true)][h.top + nb := Head(h.topsize - nb, false, true)],
    starts := h.starts + {h.top}, top := h.top + nb, topsize := h.topsize - nb)
  }

  lemma SplitTopChunk(h: Heap, base: nat, nb: nat, x: nat)
    requires h.top in h.heads && h.heads[h.top] == Head(h.topsize, false, true) && base <= h.top
    requires nb % 8 == 0 && MIN_CHUNK_SIZE <= nb < h.topsize
    requires x == h.top || (x in h.starts && ChunkOk(h, base, x) && Next(h, x) <= h.top)
    ensures ChunkOk(SplitTop(h, nb), base, x)
  {
  }

  lemma SplitTopKeeps(h: Heap, base: nat, end: nat, nb: nat)
    requires HeapOk(h, base, end) && nb % 8 == 0 && MIN_CHUNK_SIZE <= nb < h.topsize
    ensures HeapOk(SplitTop(h, nb), base, end)
    ensures forall c :: IsFree(SplitTop(h, nb), c) <==> IsFree(h, c)
    ensures forall c :: IsUsed(SplitTop(h, nb), c) <==> IsUsed(h, c) || c == (h.top, nb)
  {
    var g := SplitTop(h, nb);
    if g.top in h.starts {
      EndsBeforeTop(h, base, end, g.top);
    }
    forall x {:trigger ChunkOk(g, base, x)} | x in g.starts ensures ChunkOk(g, base, x) {
      if x != h.top {
        EndsBeforeTop(h, base, end, x);
      }
      SplitTopChunk(h, base, nb, x);
    }
    forall x, y {:trigger Apart(g, x, y)} | x in g.starts && y in g.starts ensures Apart(g, x, y) {
      if x != h.top {
        EndsBeforeTop(h, base, end, x);
        if y != h.top {
          assert Apart(h, x, y);
        }
      } else if y != h.top {
        EndsBeforeTop(h, base, end, y);
      }
    }
  }

  // ---------------------------------------------------------------- bytes

  function ChunksFrom(h: Heap, a: nat): set<(nat, nat)> {
    set p | p in h.starts && p in h.heads && a <= p :: (p, h.heads[p].size)
  }

  function UsedChunks(h: Heap): set<(nat, nat)> {
    set p | p in h.starts && p in h.heads && h.heads[p].cinuse :: (p, h.heads[p].size)
  }

  function FreeChunks(h: Heap): set<(nat, nat)> {
    set p | p in h.starts && p in h.heads && !h.heads[p].cinuse :: (p, h.heads[p].size)
  }

  ghost function SumSizes(cs: set<(nat, nat)>): nat
    decreases |cs|
  {
    if cs == {} then 0 else var c :| c in cs; c.1 + SumSizes(cs - {c})
  }

  lemma {:induction false} SumWithout(cs: set<(nat, nat)>, c: (nat, nat))
    requires c in cs
    ensures SumSizes(cs) == c.1 + SumSizes(cs - {c})
    decreases |cs|
  {
    var d :| d in cs && SumSizes(cs) == d.1 + SumSizes(cs - {d});
    if c != d {
      SumWithout(cs - {d}, c);
      SumWithout(cs - {c}, d);
      assert cs - {d} - {c} == cs - {c} - {d};
    }
  }

  lemma {:induction false} SumUnion(cs: set<(nat, nat)>, ds: set<(nat, nat)>)
    requires cs !! ds
    ensures SumSizes(cs + ds) == SumSizes(cs) + SumSizes(ds)
    decreases |cs|
  {
    if cs == {} {
      assert cs + ds == ds;
    } else {
      var c :| c in cs;
      SumWithout(cs, c);
      SumWithout(cs + ds, c);
      SumUnion(cs - {c}, ds);
      assert cs + ds - {c} == (cs - {c}) + ds;
    }
  }

  lemma {:induction false} SumFrom(h: Heap, base: nat, end: nat, a: nat)
    requires HeapOk(h, base, end) && base <= a <= h.top && Boundary(h, a)
    ensures SumSizes(ChunksFrom(h, a)) == h.top - a
    decreases h.top - a
  {
    if a == h.top {
      forall p | p in h.starts ensures p < a {
        EndsBeforeTop(h, base, end, p);
      }
      assert ChunksFrom(h, a) == {};
    } else {
      EndsBeforeTop(h, base, end, a);
      var n := Next(h, a);
      SumFrom(h, base, end, n);
      forall p | p in h.starts && a <= p ensures p == a || n <= p {
        assert Apart(h, a, p);
      }
      assert ChunksFrom(h, a) - {(a, h.heads[a].size)} == ChunksFrom(h, n);
      SumWithout(ChunksFrom(h, a), (a, h.heads[a].size));
    }
  }

  /** The bytes of the chunks in use, of the free chunks and of top add up to the segment. */
  lemma BytesAddUp(h: Heap, base: nat, end: nat)
    requires HeapOk(h, base, end)
    ensures SumSizes(UsedChunks(h)) + SumSizes(FreeChunks(h)) + h.topsize == end - base
  {
    SumFrom(h, base, end, base);
    forall p | p in h.starts ensures base <= p && p in h.heads {
      EndsBeforeTop(h, base, end, p);
    }
    assert ChunksFrom(h, base) == UsedChunks(h) + FreeChunks(h);
    SumUnion(UsedChunks(h), FreeChunks(h));
  }

  /** Taking one chunk out of use, or into use, moves exactly its bytes. */
  lemma BytesMove(h: Heap, g: Heap, c: (nat, nat))
    requires IsUsed(h, c) && forall d :: IsUsed(g, d) <==> IsUsed(h, d) && d != c
    ensures SumSizes(UsedChunks(g)) == SumSizes(UsedChunks(h)) - c.1
  {
    forall d ensures d in UsedChunks(g) <==> d in UsedChunks(h) - {c} {
      assert d in UsedChunks(g) <==> IsUsed(g, d);
      assert d in UsedChunks(h) <==> IsUsed(h, d);
    }
    assert UsedChunks(g) == UsedChunks(h) - {c};
    assert c in UsedChunks(h);
    SumWithout(UsedChunks(h), c);
  }

  /** Allocating a chunk and freeing it again leaves the same chunks in use, and as many bytes free. */
  lemma FreeUndoesMalloc(h: Heap, g: Heap, f: Heap, base: nat, end: nat, c: (nat, nat))
    requires HeapOk(h, base, end) && HeapOk(f, base, end) && !exists s :: IsUsed(h, (c.0, s))
    requires forall d :: IsUsed(g, d) <==> IsUsed(h, d) || d == c
    requires forall d :: IsUsed(f, d) <==> IsUsed(g, d) && d.0 != c.0
    ensures UsedChunks(f) == UsedChunks(h)
    ensures SumSizes(FreeChunks(f)) + f.topsize == SumSizes(FreeChunks(h)) + h.topsize
  {
    forall d ensures d in UsedChunks(f) <==> d in UsedChunks(h) {
      assert d in UsedChunks(f) <==> IsUsed(f, d);
      assert d in UsedChunks(h) <==> IsUsed(h, d);
      assert IsUsed(h, d) ==> d == (d.0, d.1) && d.0 != c.0;
    }
    BytesAddUp(h, base, end);
    BytesAddUp(f, base, end);
  }

  // ---------------------------------------------------------------- freeing

  /** Where the free chunk begins when p is freed: at the chunk before it, if that is free. */
  function MergedStart(h: Heap, p: nat): nat {
    if p in h.heads && !h.heads[p].pinuse && p in h.feet && h.feet[p] <= p then p - h.feet[p] else p
  }

  /** p joined with a free chunk before it. */
  function JoinedBack(h: Heap, p: nat): Heap
    requires p in h.heads
    requires var q := MergedStart(h, p); q != p ==> q in h.heads && Next(h, q) == p && Next(h, p) in h.heads
  {
    if MergedStart(h, p) == p then h else Join(h, MergedStart(h, p))
  }

  /** What can be said of a chunk in use and its neighbours. */
  lemma Neighbours(h: Heap, base: nat, end: nat, p: nat)
    requires HeapOk(h, base, end) && p in h.starts && p in h.heads && h.heads[p].cinuse
    ensures Next(h, p) in h.heads && (Next(h, p) in h.starts || Next(h, p) == h.top) && Next(h, p) <= h.top
    ensures h.heads[Next(h, p)].pinuse
    ensures var q := MergedStart(h, p);
      if h.heads[p].pinuse then q == p
      else
        && p in h.feet && q < p && q in h.starts && q in h.heads && Next(h, q) == p && IsFree(h, (q, h.feet[p]))
        && h.heads[q].pinuse
  {
    EndsBeforeTop(h, base, end, p);
    if !h.heads[p].pinuse {
      assert ChunkOk(h, base, p - h.feet[p]);
    }
  }

  lemma JoinedBackKeeps(h: Heap, base: nat, end: nat, p: nat)
    requires HeapOk(h, base, end) && p in h.starts && p in h.heads && h.heads[p].cinuse
    requires var q := MergedStart(h, p); q != p ==> q in h.heads && Next(h, q) == p && Next(h, p) in h.heads
    ensures var g, q := JoinedBack(h, p), MergedStart(h, p);
      && HeapOk(g, base, end) && q in g.starts && q in g.heads && g.heads[q].cinuse && g.heads[q].pinuse
      && q <= p && Next(g, q) == Next(h, p)
      && (forall c :: IsFree(g, c) <==> IsFree(h, c) && c.0 != q)
      && (forall c :: IsUsed(g, c) <==> (IsUsed(h, c) && c.0 != p) || c == (q, Next(h, p) - q))
      && g.top == h.top && g.topsize == h.topsize
  {
    Neighbours(h, base, end, p);
    var q := MergedStart(h, p);
    if q != p {
      JoinKeeps(h, base, end, q);
    }
  }

  /** The starts that are left when the chunk at p becomes part of the one at q. */
  function Absorbed(starts: set<nat>, p: nat, q: nat): set<nat> {
    if q == p then starts else starts - {p}
  }

  /** The heap after p, with the free space from q before it, is freed up to n. */
  function FreedTo(h: Heap, p: nat, q: nat, n: nat): Heap
    requires q <= n && n in h.heads
  {
    h.(heads := h.heads[q := Head(n - q, false, true)][n := h.heads[n].(pinuse := false)],
    feet := h.feet[n := n - q], starts := Absorbed(h.starts, p, q))
  }

  /** Freeing a chunk before one in use. */
  lemma FreeBetween(h: Heap, base: nat, end: nat, p: nat)
    requires HeapOk(h, base, end) && p in h.starts && p in h.heads && h.heads[p].cinuse
    requires Next(h, p) in h.starts && Next(h, p) in h.heads && h.heads[Next(h, p)].cinuse
    ensures var q, n := MergedStart(h, p), Next(h, p);
      && q <= p && var f := FreedTo(h, p, q, n);
      && HeapOk(f, base, end)
      && (forall c :: IsFree(f, c) <==> (IsFree(h, c) && c.0 != q) || c == (q, n - q))
      && (forall c :: IsUsed(f, c) <==> IsUsed(h, c) && c.0 != p)
  {
    var q, n := MergedStart(h, p), Next(h, p);
    Neighbours(h, base, end, p);
    JoinedBackKeeps(h, base, end, p);
    var g := JoinedBack(h, p);
    MarkFreeKeeps(g, base, end, q);
    assert MarkFree(g, q).heads == FreedTo(h, p, q, n).heads;
    assert MarkFree(g, q) == FreedTo(h, p, q, n);
  }

  /** The heap after p, with the free space from q before it, joins top. */
  function FreedToTop(h: Heap, p: nat, q: nat): Heap
    requires q <= h.top
  {
    var size := h.topsize + (h.top - q);
    h.(heads := h.heads[q := Head(size, false, true)], starts := h.starts - {p} - {q}, top := q, topsize := size)
  }

  lemma FreeIntoTop(h: Heap, base: nat, end: nat, p: nat)
    requires HeapOk(h, base, end) && p in h.starts && p in h.heads && h.heads[p].cinuse && Next(h, p) == h.top
    ensures var q := MergedStart(h, p);
      && q <= p && var f := FreedToTop(h, p, q);
      && HeapOk(f, base, end)
      && (forall c :: IsFree(f, c) <==> IsFree(h, c) && c.0 != q)
      && (forall c :: IsUsed(f, c) <==> IsUsed(h, c) && c.0 != p)
  {
    var q := MergedStart(h, p);
    Neighbours(h, base, end, p);
    JoinedBackKeeps(h, base, end, p);
    var g := JoinedBack(h, p);
    JoinTopKeeps(g, base, end, q);
    assert JoinTop(g, q).heads == FreedToTop(h, p, q).heads;
    assert JoinTop(g, q) == FreedToTop(h, p, q);
  }

  /** The heap after p is freed and joined with the free chunk at n that follows. */
  function FreedOver(h: Heap, p: nat, q: nat, n: nat, size: nat): Heap {
    h.(heads := h.heads[q := Head(size, false, true)], feet := h.feet[q + size := size],
    starts := Absorbed(h.starts, p, q) - {n})
  }

  lemma FreeWithNext(h: Heap, base: nat, end: nat, p: nat)
    requires HeapOk(h, base, end) && p in h.starts && p in h.heads && h.heads[p].cinuse
    requires Next(h, p) in h.starts && Next(h, p) in h.heads && !h.heads[Next(h, p)].cinuse
    ensures var q, n := MergedStart(h, p), Next(h, p);
      && q <= p && var f := FreedOver(h, p, q, n, Next(h, n) - q);
      && HeapOk(f, base, end)
      && (forall c :: IsFree(f, c) <==> (IsFree(h, c) && c.0 != q && c.0 != n) || c == (q, Next(h, n) - q))
      && (forall c :: IsUsed(f, c) <==> IsUsed(h, c) && c.0 != p)
  {
    var q, n := MergedStart(h, p), Next(h, p);
    Neighbours(h, base, end, p);
    JoinedBackKeeps(h, base, end, p);
    var g := JoinedBack(h, p);
    EndsBeforeTop(g, base, end, n);
    assert ChunkOk(h, base, n);
    JoinKeeps(g, base, end, q);
    var k := Join(g, q);
    MarkFreeKeeps(k, base, end, q);
    var f := FreedOver(h, p, q, n, Next(h, n) - q);
    assert MarkFree(k, q).heads == f.heads;
    assert MarkFree(k, q) == f;
  }

  // ---------------------------------------------------------------- allocating

  /** The heap after the first nb bytes of the free chunk at p are taken and the rest stays free. */
  function TakenPart(h: Heap, p: nat, s: nat, nb: nat): Heap
    requires nb <= s
  {
    h.(heads := h.heads[p := Head(nb, true, true)][p + nb := Head(s - nb, false, true)],
    feet := h.feet[p + s := s - nb], starts := h.starts + {p + nb})
  }

  lemma TakePart(h: Heap, base: nat, end: nat, p: nat, s: nat, nb: nat)
    requires HeapOk(h, base, end) && IsFree(h, (p, s))
    requires nb % 8 == 0 && MIN_CHUNK_SIZE <= nb && nb + MIN_CHUNK_SIZE <= s
    ensures var f := TakenPart(h, p, s, nb);
      && HeapOk(f, base, end)
      && (forall c :: IsFree(f, c) <==> (IsFree(h, c) && c.0 != p) || c == (p + nb, s - nb))
      && (forall c :: IsUsed(f, c) <==> IsUsed(h, c) || c == (p, nb))
  {
    assert ChunkOk(h, base, p);
    EndsBeforeTop(h, base, end, p);
    ClaimKeeps(h, base, end, p);
    var g := Claim(h, p);
    SplitKeeps(g, base, end, p, nb);
    var k, r := Split(g, p, nb), p + nb;
    if r in h.starts {
      EndsBefore(h, p, r);
    }
    MarkFreeKeeps(k, base, end, r);
    var f := TakenPart(h, p, s, nb);
    assert MarkFree(k, r).heads == f.heads;
    assert MarkFree(k, r) == f;
  }

  lemma NoneAtZero(h: Heap, base: nat, end: nat)
    requires HeapOk(h, base, end)
    ensures 0 !in h.starts
  {
    if 0 in h.starts {
      EndsBeforeTop(h, base, end, 0);
    }
  }

  /** The chunk after a free one is in use and knows its size. */
  lemma FreeChunk(h: Heap, base: nat, end: nat, c: (nat, nat))
    requires HeapOk(h, base, end) && IsFree(h, c)
    ensures base <= c.0 && c.0 + c.1 < h.top && MIN_CHUNK_SIZE <= c.1 < SIZE_LIMIT && c.1 % 8 == 0
    ensures h.heads[c.0].pinuse && c.0 + c.1 in h.heads && c.0 + c.1 in h.starts && h.heads[c.0 + c.1].cinuse
  {
    EndsBeforeTop(h, base, end, c.0);
    EndsBeforeTop(h, base, end, c.0 + c.1);
  }
}
