/** Allocating and freeing in an mspace (mspace_malloc and mspace_free of malloc.c). */
module Mspaces {
  import opened Bins
  import opened Heaps
  import opened TreeBins
  import opened TreeSearches

  const MAX_SMALL_REQUEST: nat := 240
  const MAX_REQUEST: nat := WORD - 128

  /** The chunk size for a request, with the head word and alignment. */
  function Padded(bytes: nat): nat {
    if bytes < 23 then MIN_CHUNK_SIZE
    else if bytes >= MAX_REQUEST then WORD - 1
    else (bytes + 15) / 8 * 8
  }

  /** The chunk serves the request: it holds the bytes and the head word that the chunk behind it does not share, and
      keeps the alignment. */
  predicate ServesBytes(n: nat, bytes: nat) {
    bytes + 8 <= n && MIN_CHUNK_SIZE <= n && n % 8 == 0
  }

  /** For every request that is allowed, the padded size is the least size of a chunk that serves it. */
  lemma PaddedIsLeast(bytes: nat)
    requires bytes < MAX_REQUEST
    ensures ServesBytes(Padded(bytes), bytes) && forall n: nat | ServesBytes(n, bytes) :: Padded(bytes) <= n
    ensures Padded(bytes) < WORD && (Padded(bytes) == MIN_CHUNK_SIZE || Padded(bytes) < bytes + 16)
  {
    forall n: nat | ServesBytes(n, bytes) ensures Padded(bytes) <= n {
      assert n == n / 8 * 8 && (bytes + 15) / 8 <= n / 8;
    }
  }

  /** The result of mspace_malloc: nothing stands for the call of sys_alloc. */
  datatype Block = NoBlock | Block(p: nat)

  /** A chunk that serves a small request with too little left over to be a chunk, in a small bin. */
  predicate Remainderless(s: nat, nb: nat) {
    IsSmall(s) && (s == nb || s == nb + 8)
  }

  /** No free chunk and not even top serves the request. */
  ghost predicate OutOfSpace(binned: set<(nat, nat)>, dvsize: nat, topsize: nat, nb: nat) {
    (forall c | c in binned :: c.1 < nb) && dvsize < nb && topsize <= nb
  }

  /** p is a chunk of the smallest size, among these, that serves the request. */
  ghost predicate IsBestFit(chunks: set<(nat, nat)>, nb: nat, p: nat) {
    exists s :: (p, s) in chunks && nb <= s && forall c | c in chunks && nb <= c.1 :: s <= c.1
  }

  ghost predicate SomeFits(chunks: set<(nat, nat)>, nb: nat) {
    exists c | c in chunks :: nb <= c.1
  }

  /** What a small request gets: a remainderless small chunk, else dv if it is big enough, else the best fit in the
      bins, else the start of top. */
  ghost predicate SmallChoice(binned: set<(nat, nat)>, dv: nat, dvsize: nat, top: nat, nb: nat, p: nat) {
    if exists c | c in binned :: Remainderless(c.1, nb)
    then exists c | c in binned :: Remainderless(c.1, nb) && p == c.0
    else if nb <= dvsize then p == dv
    else if SomeFits(binned, nb) then IsBestFit(binned, nb, p)
    else p == top
  }

  /** What a large request gets: the best fit among the bins and dv, else the start of top. */
  ghost predicate LargeChoice(binned: set<(nat, nat)>, dv: nat, dvsize: nat, top: nat, nb: nat, p: nat) {
    var free := binned + {(dv, dvsize)};
    if SomeFits(free, nb) then IsBestFit(free, nb, p) else p == top
  }

  class Mspace {
    const bins: BinState
    var heads: map<nat, Head>
    var feet: map<nat, nat>
    var top: nat
    var topsize: nat
    var dv: nat
    var dvsize: nat
    ghost var starts: set<nat>   // where chunks start
    ghost const base: nat
    ghost const end: nat

    ghost function View(): Heap
      reads this
    {
      Heap(heads, feet, starts, top, topsize)
    }

    /** The designated victim is no chunk, or a free one. */
    ghost predicate DvOk()
      reads this
    {
      if dv == 0 then dvsize == 0 else IsFree(View(), (dv, dvsize))
    }

    /** The chunks tile the segment, and the bins hold exactly the free chunks, but for dv and the one at loose. */
    ghost predicate Sound(loose: nat)
      reads this, bins
    {
      && bins.Valid() && HeapOk(View(), base, end) && DvOk()
      && forall c :: c in bins.binned <==> IsFree(View(), c) && c.0 != dv && c.0 != loose
    }

    /** Every free chunk other than dv is in the bins, and nothing else is. */
    ghost predicate Valid()
      reads this, bins
    {
      Sound(0)
    }

    /** An mspace whose segment is all top, after its state chunk. */
    constructor (first: nat, size: nat)
      requires first > 0 && 0 < size < SIZE_LIMIT
      ensures Valid() && fresh(bins) && base == first && end == first + size && starts == {}
    {
      bins := new BinState();
      heads := map[first := Head(size, false, true)];
      feet := map[];
      top, topsize := first, size;
      dv, dvsize := 0, 0;
      starts := {};
      base, end := first, first + size;
    }

    /** insert_chunk of a chunk that is in no bin. */
    method Bin(p: nat, s: nat)
      requires Sound(p) && IsFree(View(), (p, s)) && p != dv
      modifies bins
      ensures Valid()
    {
      NoneAtZero(View(), base, end);
      FreeChunk(View(), base, end, (p, s));
      bins.InsertChunk(p, s);
    }

    /** replace_dv with a chunk that is in no bin. */
    method ReplaceDv(p: nat, s: nat)
      requires Sound(p) && IsFree(View(), (p, s)) && p != dv && IsSmall(dvsize)
      modifies this`dv, this`dvsize, bins
      ensures Valid() && dv == p && dvsize == s
    {
      NoneAtZero(View(), base, end);
      if dv != 0 {
        FreeChunk(View(), base, end, (dv, dvsize));
      }
      if dvsize != 0 {
        bins.InsertSmallChunk(dv, dvsize);
      }
      dv, dvsize := p, s;
    }

    // -------------------------------------------------------------- freeing

    /** The chunks in use are those that were, without the one at p. */
    ghost predicate NoLonger(was: Heap, p: nat)
      reads this
    {
      forall c :: IsUsed(View(), c) <==> IsUsed(was, c) && c.0 != p
    }

    /** mspace_free of the chunk at p; the result is false for a chunk that is not in use, on which the program
        aborts. */
    method Free(p: nat) returns (ok: bool)
      requires Valid() && p in starts
      modifies this`heads, this`feet, this`top, this`topsize, this`dv, this`dvsize, this`starts, bins
      ensures Valid()
      ensures ok <==> old(p in heads && heads[p].cinuse)
      ensures ok ==> NoLonger(old(View()), p)
      ensures !ok ==> View() == old(View()) && bins.binned == old(bins.binned)
    {
      assert ChunkOk(View(), base, p);
      if !heads[p].cinuse {
        return false;
      }
      Neighbours(View(), base, end, p);
      NoneAtZero(View(), base, end);
      var psize := heads[p].size;
      var next := p + psize;
      var q := p;
      if !heads[p].pinuse {
        var prevsize := feet[p];
        psize := psize + prevsize;
        q := p - prevsize;
        if q != dv {
          bins.UnlinkChunk(q, prevsize);
        } else if heads[next].cinuse && heads[next].pinuse {
          FreeAfterDv(p, q, psize, next);
          return true;
        }
      }
      if !heads[next].cinuse {
        if next == top {
          FreeBeforeTop(p, q, psize);
        } else if next == dv {
          FreeBeforeDv(p, q, psize);
        } else {
          FreeBeforeBinned(p, q, psize, next);
        }
      } else {
        FreeBeforeUsed(p, q, psize, next);
      }
      return true;
    }

    /** The chunk at p is in use, and the free space before it, from q on, is in no bin. */
    ghost predicate Detached(p: nat, q: nat, psize: nat)
      reads this, bins
    {
      && Sound(q) && p in starts && p in heads && heads[p].cinuse && q == MergedStart(View(), p)
      && q + psize == Next(View(), p)
    }

    /** dv takes in the chunk behind it. */
    method FreeAfterDv(p: nat, q: nat, psize: nat, next: nat)
      requires Detached(p, q, psize) && q == dv && p != q && Next(View(), p) == next
      requires next in starts && next in heads && heads[next].cinuse
      modifies this`heads, this`feet, this`dvsize, this`starts
      ensures Valid() && NoLonger(old(View()), p)
    {
      NoneAtZero(View(), base, end);
      FreeBetween(View(), base, end, p);
      dvsize := psize;
      SetFreeWithPinuse(p, q, psize, next);
    }

    method FreeBeforeUsed(p: nat, q: nat, psize: nat, next: nat)
      requires Detached(p, q, psize) && q != dv && Next(View(), p) == next
      requires next in starts && next in heads && heads[next].cinuse
      modifies this`heads, this`feet, this`starts, bins
      ensures Valid() && NoLonger(old(View()), p)
    {
      FreeBetween(View(), base, end, p);
      SetFreeWithPinuse(p, q, psize, next);
      Bin(q, psize);
    }

    method FreeBeforeTop(p: nat, q: nat, psize: nat)
      requires Detached(p, q, psize) && Next(View(), p) == top
      modifies this`heads, this`top, this`topsize, this`dv, this`dvsize, this`starts
      ensures Valid() && NoLonger(old(View()), p)
    {
      FreeIntoTop(View(), base, end, p);
      NoneAtZero(View(), base, end);
      topsize := topsize + psize;
      top := q;
      heads := heads[q := Head(topsize, false, true)];
      starts := starts - {p} - {q};
      assert View() == FreedToTop(old(View()), p, q);
      if q == dv {
        dv, dvsize := 0, 0;
      }
    }

    method FreeBeforeDv(p: nat, q: nat, psize: nat)
      requires Detached(p, q, psize) && dv in starts && Next(View(), p) == dv
      modifies this`heads, this`feet, this`dv, this`dvsize, this`starts
      ensures Valid() && NoLonger(old(View()), p)
    {
      NoneAtZero(View(), base, end);
      FreeWithNext(View(), base, end, p);
      dvsize := dvsize + psize;
      dv := q;
      SetSizeAndPinuseOfFreeChunk(p, q, dvsize, q + psize);
    }

    method FreeBeforeBinned(p: nat, q: nat, psize0: nat, next: nat)
      requires Detached(p, q, psize0) && Next(View(), p) == next != dv && next in starts && next in heads
      requires !heads[next].cinuse
      modifies this`heads, this`feet, this`dvsize, this`starts, bins
      ensures Valid() && NoLonger(old(View()), p)
    {
      FreeWithNext(View(), base, end, p);
      NoneAtZero(View(), base, end);
      var nsize := heads[next].size;
      var psize := psize0 + nsize;
      bins.UnlinkChunk(next, nsize);
      SetSizeAndPinuseOfFreeChunk(p, q, psize, next);
      if q == dv {
        dvsize := psize;
      } else {
        Bin(q, psize);
      }
    }

    /** set_free_with_pinuse at q, which takes in the chunk at p. */
    method SetFreeWithPinuse(p: nat, q: nat, s: nat, n: nat)
      requires n in heads && n == q + s && s > 0
      modifies this`heads, this`feet, this`starts
      ensures View() == FreedTo(old(View()), p, q, n)
    {
      heads := heads[n := heads[n].(pinuse := false)];
      heads := heads[q := Head(s, false, true)];
      feet := feet[n := s];
      starts := Absorbed(starts, p, q);
      assert View().heads == FreedTo(old(View()), p, q, n).heads;
    }

    /** set_size_and_pinuse_of_free_chunk at q, which takes in the chunks at p and n. */
    method SetSizeAndPinuseOfFreeChunk(p: nat, q: nat, s: nat, n: nat)
      modifies this`heads, this`feet, this`starts
      ensures View() == FreedOver(old(View()), p, q, n, s)
    {
      heads := heads[q := Head(s, false, true)];
      feet := feet[q + s := s];
      starts := Absorbed(starts, p, q) - {n};
    }

    // -------------------------------------------------------------- allocating

    /** The chunks in use are those that were, and the one at p, which fits the request. */
    ghost predicate Allocated(was: Heap, p: nat, nb: nat)
      reads this
    {
      && p in heads && nb <= heads[p].size < nb + MIN_CHUNK_SIZE && !(exists s :: IsUsed(was, (p, s)))
      && forall c :: IsUsed(View(), c) <==> IsUsed(was, c) || c == (p, heads[p].size)
    }

    /** set_inuse_and_pinuse on a free chunk that is in no bin. */
    method TakeWhole(p: nat, s: nat, nb: nat)
      requires Sound(p) && IsFree(View(), (p, s)) && p != dv && nb <= s < nb + MIN_CHUNK_SIZE
      modifies this`heads
      ensures Valid() && Allocated(old(View()), p, nb)
    {
      NoneAtZero(View(), base, end);
      FreeChunk(View(), base, end, (p, s));
      ClaimKeeps(View(), base, end, p);
      SetInuseAndPinuse(p, s);
    }

    /** set_inuse_and_pinuse. */
    method SetInuseAndPinuse(p: nat, s: nat)
      requires p in heads && heads[p].size == s > 0 && heads[p].pinuse && p + s in heads
      modifies this`heads
      ensures View() == Claim(old(View()), p)
    {
      heads := heads[p := Head(s, true, true)];
      heads := heads[p + s := heads[p + s].(pinuse := true)];
      assert heads == Claim(old(View()), p).heads;
    }

    /** Splits a free chunk that is in no bin; the rest, again in no bin, starts at r. */
    method TakeFirst(p: nat, s: nat, nb: nat) returns (r: nat)
      requires Sound(p) && IsFree(View(), (p, s)) && p != dv
      requires nb % 8 == 0 && MIN_CHUNK_SIZE <= nb && nb + MIN_CHUNK_SIZE <= s
      modifies this`heads, this`feet, this`starts
      ensures r == p + nb && r != dv && Sound(r) && IsFree(View(), (r, s - nb)) && Allocated(old(View()), p, nb)
    {
      NoneAtZero(View(), base, end);
      Heaps.TakePart(View(), base, end, p, s, nb);
      heads := heads[p := Head(nb, true, true)];
      r := p + nb;
      heads := heads[r := Head(s - nb, false, true)];
      feet := feet[r + (s - nb) := s - nb];
      starts := starts + {r};
      assert View() == TakenPart(old(View()), p, s, nb);
      NotInFree(old(View()), p, s, r);
    }

    lemma NotInFree(h: Heap, p: nat, s: nat, r: nat)
      requires HeapOk(h, base, end) && IsFree(h, (p, s)) && p < r < p + s
      ensures r !in h.starts
    {
      if r in h.starts {
        EndsBefore(h, p, r);
      }
    }

    /** Allocation from dv. */
    method TakeDv(nb: nat) returns (p: nat)
      requires Valid() && nb % 8 == 0 && MIN_CHUNK_SIZE <= nb <= dvsize
      modifies this`heads, this`feet, this`starts, this`dv, this`dvsize
      ensures Valid() && p == old(dv) && Allocated(old(View()), p, nb)
    {
      NoneAtZero(View(), base, end);
      p := dv;
      var rsize := dvsize - nb;
      if rsize >= MIN_CHUNK_SIZE {
        SplitDv(p, rsize, nb);
      } else {
        var dvs := dvsize;
        dvsize := 0;
        dv := 0;
        TakeWhole(p, dvs, nb);
      }
    }

    method SplitDv(p: nat, rsize: nat, nb: nat)
      requires Valid() && nb % 8 == 0 && MIN_CHUNK_SIZE <= nb && MIN_CHUNK_SIZE <= rsize
      requires p == dv && dv != 0 && dvsize == nb + rsize
      modifies this`heads, this`feet, this`starts, this`dv, this`dvsize
      ensures Valid() && Allocated(old(View()), p, nb)
    {
      NoneAtZero(View(), base, end);
      Heaps.TakePart(View(), base, end, p, dvsize, nb);
      NotInFree(View(), p, dvsize, p + nb);
      var r := p + nb;
      dv := r;
      dvsize := rsize;
      WriteParts(p, r, rsize, nb);
    }

    /** The boundary tags of the new dv at r and of the chunk before it. */
    method WriteParts(p: nat, r: nat, rsize: nat, nb: nat)
      requires nb > 0 && r == p + nb
      modifies this`heads, this`feet, this`starts
      ensures View() == TakenPart(old(View()), p, nb + rsize, nb)
    {
      heads := heads[r := Head(rsize, false, true)];
      feet := feet[r + rsize := rsize];
      heads := heads[p := Head(nb, true, true)];
      starts := starts + {r};
      assert View().heads == TakenPart(old(View()), p, nb + rsize, nb).heads;
    }

    /** Allocation from top. */
    method TakeTop(nb: nat) returns (p: nat)
      requires Valid() && nb % 8 == 0 && MIN_CHUNK_SIZE <= nb < topsize
      modifies this`heads, this`starts, this`top, this`topsize
      ensures Valid() && p == old(top) && Allocated(old(View()), p, nb)
    {
      SplitTopKeeps(View(), base, end, nb);
      topsize := topsize - nb;
      p := top;
      var r := p + nb;
      top := r;
      heads := heads[r := Head(topsize, false, true)];
      heads := heads[p := Head(nb, true, true)];
      starts := starts + {p};
      assert View().heads == SplitTop(old(View()), nb).heads;
      assert View() == SplitTop(old(View()), nb);
    }

    /** tmalloc_large: the best fit among the bins, unless dv fits better. */
    method TmallocLarge(nb: nat) returns (r: Found)
      requires Valid() && nb % 8 == 0 && MIN_LARGE_SIZE <= nb < WORD
      modifies this`heads, this`feet, this`starts, bins
      ensures Valid() && dv == old(dv) && dvsize == old(dvsize) && top == old(top) && topsize == old(topsize)
      ensures r == Nothing ==> View() == old(View()) && bins.binned == old(bins.binned)
      ensures r == Nothing
        ==> (nb <= dvsize && forall c | c in bins.binned && nb <= c.1 :: dvsize <= c.1)
            || forall c | c in bins.binned :: c.1 < nb
      ensures r.Chunk? ==> (r.addr, r.size) in old(bins.binned) && Allocated(old(View()), r.addr, nb)
      ensures r.Chunk? ==> nb <= r.size && (nb <= dvsize ==> r.size < dvsize)
      ensures r.Chunk? ==> forall c | c in old(bins.binned) && nb <= c.1 :: r.size <= c.1
    {
      NoneAtZero(View(), base, end);
      var v, rsize := bins.FindLarge(nb);
      if v.Chunk? {
        DvBelow();
        if rsize < Minus(dvsize, nb) {
          bins.UnlinkLargeChunk(v.addr, v.size);
          if rsize < MIN_CHUNK_SIZE {
            TakeWhole(v.addr, v.size, nb);
          } else {
            var rest := TakeFirst(v.addr, v.size, nb);
            Bin(rest, rsize);
          }
          return v;
        }
      }
      return Nothing;
    }

    lemma DvBelow()
      requires Valid()
      ensures dvsize < SIZE_LIMIT
    {
      if dv != 0 {
        FreeChunk(View(), base, end, (dv, dvsize));
      }
    }

    /** tmalloc_small: the least of the tree-binned chunks; what is left becomes dv. */
    method TmallocSmall(nb: nat) returns (p: nat)
      requires Valid() && nb % 8 == 0 && MIN_CHUNK_SIZE <= nb && IsSmall(nb) && IsSmall(dvsize) && bins.treemap != {}
      modifies this`heads, this`feet, this`starts, this`dv, this`dvsize, bins
      ensures Valid() && Allocated(old(View()), p, nb)
      ensures exists s ::
          (p, s) in old(bins.binned) && !IsSmall(s) && forall c | c in old(bins.binned) && !IsSmall(c.1) :: s <= c.1
    {
      NoneAtZero(View(), base, end);
      var v, rsize := bins.FindSmall(nb);
      bins.UnlinkLargeChunk(v.addr, v.size);
      p := v.addr;
      if rsize < MIN_CHUNK_SIZE {
        TakeWhole(p, v.size, nb);
      } else {
        var r := TakeFirst(p, v.size, nb);
        ReplaceDv(r, rsize);
      }
      assert (p, v.size) in old(bins.binned);
    }

    /** Allocation from the first chunk of small bin i. */
    method TakeSmallBin(i: nat, nb: nat) returns (p: nat)
      requires Valid() && i in bins.smallmap && nb % 8 == 0 && MIN_CHUNK_SIZE <= nb <= 8 * i && IsSmall(dvsize)
      modifies this`heads, this`feet, this`starts, this`dv, this`dvsize, bins
      ensures Valid() && Allocated(old(View()), p, nb) && (p, 8 * i) in old(bins.binned)
    {
      NoneAtZero(View(), base, end);
      p := bins.UnlinkFirstSmallChunk(i);
      var rsize := 8 * i - nb;
      if rsize < MIN_CHUNK_SIZE {
        TakeWhole(p, 8 * i, nb);
      } else {
        var rest := TakeFirst(p, 8 * i, nb);
        ReplaceDv(rest, rsize);
      }
    }

    /** A remainderless fit: small bin i, which is the one of the request or the next. */
    method TakeRemainderless(i: nat, nb: nat) returns (p: nat)
      requires Valid() && i in bins.smallmap && MIN_CHUNK_SIZE <= nb <= 8 * i <= nb + 8
      modifies this`heads, bins
      ensures Valid() && Allocated(old(View()), p, nb) && (p, 8 * i) in old(bins.binned)
    {
      NoneAtZero(View(), base, end);
      p := bins.UnlinkFirstSmallChunk(i);
      TakeWhole(p, 8 * i, nb);
    }

    /** The part of mspace_malloc that serves a small request without dv and top. */
    method MallocFromBins(nb: nat) returns (r: Block)
      requires Valid() && nb % 8 == 0 && MIN_CHUNK_SIZE <= nb && IsSmall(nb) && dvsize < nb
      requires forall c | c in bins.binned :: !Remainderless(c.1, nb)
      modifies this`heads, this`feet, this`starts, this`dv, this`dvsize, bins
      ensures Valid()
      ensures r.NoBlock? ==> View() == old(View()) && bins.binned == old(bins.binned) && dvsize == old(dvsize)
      ensures r.NoBlock? ==> !SomeFits(bins.binned, nb)
      ensures r.Block? ==> Allocated(old(View()), r.p, nb) && IsBestFit(old(bins.binned), nb, r.p)
    {
      var idx := nb / 8;
      var smallbits := set i | i in bins.smallmap && idx <= i;
      if smallbits != {} {
        var i := LeastBit(smallbits);
        forall k | k in bins.smallmap && idx <= k ensures i <= k {
          assert k in smallbits;
        }
        bins.LeastSmallBin(idx, i);
        var p := TakeSmallBin(i, nb);
        return Block(p);
      }
      assert forall k | k in bins.smallmap :: k !in smallbits;
      bins.SmallMapTells(idx);
      if bins.treemap != {} {
        var p := TmallocSmall(nb);
        return Block(p);
      }
      bins.TreeMapTells();
      return NoBlock;
    }

    /** mspace_malloc for a small request. */
    method MallocSmall(nb: nat) returns (r: Block)
      requires Valid() && nb % 8 == 0 && MIN_CHUNK_SIZE <= nb && IsSmall(nb)
      modifies this`heads, this`feet, this`starts, this`dv, this`dvsize, this`top, this`topsize, bins
      ensures Valid()
      ensures r.NoBlock? ==> View() == old(View()) && bins.binned == old(bins.binned)
      ensures r.NoBlock? <==> OutOfSpace(old(bins.binned), old(dvsize), old(topsize), nb)
      ensures r.Block? ==> Allocated(old(View()), r.p, nb)
      ensures r.Block? ==> SmallChoice(old(bins.binned), old(dv), old(dvsize), old(top), nb, r.p)
    {
      var idx := nb / 8;
      bins.SmallMapExact(idx);
      bins.SmallMapExact(idx + 1);
      if idx in bins.smallmap || idx + 1 in bins.smallmap {
        var i := if idx in bins.smallmap then idx else idx + 1;
        var p := TakeRemainderless(i, nb);
        return Block(p);
      }
      if nb > dvsize {
        r := MallocFromBins(nb);
        if r.Block? {
          return;
        }
      }
      r := MallocFromEnds(nb);
    }

    /** The last resorts: dv, then top. */
    method MallocFromEnds(nb: nat) returns (r: Block)
      requires Valid() && nb % 8 == 0 && MIN_CHUNK_SIZE <= nb
      modifies this`heads, this`feet, this`starts, this`dv, this`dvsize, this`top, this`topsize
      ensures Valid()
      ensures r.NoBlock? ==> View() == old(View())
      ensures r.NoBlock? <==> old(dvsize) < nb && old(topsize) <= nb
      ensures r.Block? ==> Allocated(old(View()), r.p, nb) && r.p == if nb <= old(dvsize) then old(dv) else old(top)
    {
      if nb <= dvsize {
        var p := TakeDv(nb);
        return Block(p);
      } else if nb < topsize {
        var p := TakeTop(nb);
        return Block(p);
      }
      return NoBlock;
    }

    /** mspace_malloc for a large request. */
    method MallocLarge(nb: nat) returns (r: Block)
      requires Valid() && nb % 8 == 0 && MIN_LARGE_SIZE <= nb < WORD
      modifies this`heads, this`feet, this`starts, this`dv, this`dvsize, this`top, this`topsize, bins
      ensures Valid()
      ensures r.NoBlock? ==> View() == old(View()) && bins.binned == old(bins.binned)
      ensures r.NoBlock? <==> OutOfSpace(old(bins.binned), old(dvsize), old(topsize), nb)
      ensures r.Block? ==> Allocated(old(View()), r.p, nb)
      ensures r.Block? ==> LargeChoice(old(bins.binned), old(dv), old(dvsize), old(top), nb, r.p)
    {
      if bins.treemap != {} {
        var v := TmallocLarge(nb);
        if v.Chunk? {
          assert (v.addr, v.size) in old(bins.binned) + {(old(dv), old(dvsize))};
          return Block(v.addr);
        }
      } else {
        bins.TreeMapTells();
      }
      r := MallocFromEnds(nb);
      assert (old(dv), old(dvsize)) in old(bins.binned) + {(old(dv), old(dvsize))};
    }

    /** mspace_malloc. A request for more than the largest size asks for a chunk that no mspace has. */
    method Malloc(bytes: nat) returns (r: Block)
      requires Valid() && bytes < WORD
      modifies this`heads, this`feet, this`starts, this`dv, this`dvsize, this`top, this`topsize, bins
      ensures Valid()
      ensures r.NoBlock? ==> View() == old(View()) && bins.binned == old(bins.binned)
      ensures r.NoBlock? <==> OutOfSpace(old(bins.binned), old(dvsize), old(topsize), Padded(bytes))
      ensures r.Block? ==> Allocated(old(View()), r.p, Padded(bytes))
      ensures r.Block? ==> bytes < MAX_REQUEST && ServesBytes(heads[r.p].size, bytes)
      ensures r.Block? ==> forall n: nat | ServesBytes(n, bytes) :: heads[r.p].size < n + MIN_CHUNK_SIZE
      ensures r.Block? && bytes <= MAX_SMALL_REQUEST
        ==> SmallChoice(old(bins.binned), old(dv), old(dvsize), old(top), Padded(bytes), r.p)
      ensures r.Block? && bytes > MAX_SMALL_REQUEST
        ==> LargeChoice(old(bins.binned), old(dv), old(dvsize), old(top), Padded(bytes), r.p)
    {
      if bytes <= MAX_SMALL_REQUEST {
        r := MallocSmall(Padded(bytes));
      } else if bytes >= MAX_REQUEST {
        NothingThatLarge();
        r := NoBlock;
      } else {
        r := MallocLarge(Padded(bytes));
      }
      if r.Block? {
        AllocatedServes(View(), base, end, r.p, bytes);
      }
    }

    lemma AllocatedServes(h: Heap, base: nat, end: nat, p: nat, bytes: nat)
      requires HeapOk(h, base, end) && bytes < MAX_REQUEST && p in h.heads && IsUsed(h, (p, h.heads[p].size))
      requires Padded(bytes) <= h.heads[p].size < Padded(bytes) + MIN_CHUNK_SIZE
      ensures ServesBytes(h.heads[p].size, bytes)
      ensures forall n: nat | ServesBytes(n, bytes) :: h.heads[p].size < n + MIN_CHUNK_SIZE
    {
      PaddedIsLeast(bytes);
      EndsBeforeTop(h, base, end, p);
    }

    /** A chunk that is allocated and freed again leaves the same chunks in use and as many bytes free. */
    method MallocAndFree(bytes: nat) returns (r: Block)
      requires Valid() && bytes < WORD
      modifies this`heads, this`feet, this`starts, this`dv, this`dvsize, this`top, this`topsize, bins
      ensures Valid() && UsedChunks(View()) == old(UsedChunks(View()))
      ensures SumSizes(FreeChunks(View())) + topsize == old(SumSizes(FreeChunks(View())) + topsize)
    {
      ghost var h := View();
      r := Malloc(bytes);
      if r.Block? {
        ghost var g, c := View(), (r.p, heads[r.p].size);
        assert IsUsed(g, c);
        var ok := Free(r.p);
        assert ok;
        FreeUndoesMalloc(h, g, View(), base, end, c);
      }
    }

    lemma NothingThatLarge()
      requires Valid()
      ensures OutOfSpace(bins.binned, dvsize, topsize, WORD - 1)
    {
      DvBelow();
      forall c | c in bins.binned ensures c.1 < WORD - 1 {
        FreeChunk(View(), base, end, c);
      }
    }
  }
}
