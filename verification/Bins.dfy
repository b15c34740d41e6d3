/** The bins of an mspace (malloc.c): lists of small free chunks, one for each size, and tries of large ones. */
module Bins {
  import opened Encodings
  import opened TreeBins
  import opened TreeSearches

  const NSMALLBINS: nat := 32
  const MIN_LARGE_SIZE: nat := 256

  predicate IsSmall(s: nat) {
    s / 8 < NSMALLBINS
  }

  /** The chunk is in the small bin of its size. */
  predicate InSmallBins(bins: seq<seq<nat>>, c: (nat, nat)) {
    c.1 % 8 == 0 && c.1 / 8 < |bins| && c.0 in bins[c.1 / 8]
  }

  ghost predicate SmallOk(bins: seq<seq<nat>>, smallmap: set<nat>) {
    && |bins| == NSMALLBINS && (forall i | 0 <= i < NSMALLBINS :: Distinct(bins[i]))
    && forall i :: i in smallmap <==> 0 <= i < NSMALLBINS && bins[i] != []
  }

  /** The sizes that a free chunk may have. */
  predicate ChunkSize(s: nat) {
    s % 8 == 0 && s < 0x100_0000_0000
  }

  /** The chunk is in binned exactly when it is in the bin of its size. */
  ghost predicate InItsBin(small: seq<seq<nat>>, trees: seq<Tree>, binned: set<(nat, nat)>, c: (nat, nat)) {
    c in binned <==> if IsSmall(c.1) then InSmallBins(small, c) else InTrees(trees, c)
  }

  class BinState {
    var smallbins: seq<seq<nat>>
    var smallmap: set<nat>
    var treebins: seq<Tree>
    var treemap: set<nat>
    ghost var binned: set<(nat, nat)>   // the chunks in the bins, with their sizes

    /** The bins are sound and hold what binned says. */
    ghost predicate Valid()
      reads this
    {
      && SmallOk(smallbins, smallmap) && TreesOk(treebins) && MapOk(treebins, treemap)
      && forall c {:trigger InItsBin(smallbins, treebins, binned, c)} :: InItsBin(smallbins, treebins, binned, c)
    }

    constructor ()
      ensures Valid() && binned == {}
    {
      smallbins := seq(NSMALLBINS, _ => []);
      smallmap := {};
      treebins := seq(NTREEBINS, _ => Nil);
      treemap := {};
      binned := {};
      new;
      forall c ensures InItsBin(smallbins, treebins, binned, c) {
      }
    }

    method InsertSmallChunk(p: nat, s: nat)
      requires Valid() && ChunkSize(s) && IsSmall(s) && (p, s) !in binned
      modifies this
      ensures Valid() && binned == old(binned) + {(p, s)}
    {
      var i := s / 8;
      assert InItsBin(smallbins, treebins, binned, (p, s));
      if i !in smallmap {
        smallmap := smallmap + {i};
        smallbins := smallbins[i := [p]];
      } else {
        smallbins := smallbins[i := [p] + smallbins[i]];
      }
      binned := binned + {(p, s)};
      forall c ensures InItsBin(smallbins, treebins, binned, c) {
        assert InItsBin(old(smallbins), old(treebins), old(binned), c);
      }
    }

    method UnlinkSmallChunk(p: nat, s: nat)
      requires Valid() && IsSmall(s) && (p, s) in binned
      modifies this
      ensures Valid() && binned == old(binned) - {(p, s)}
    {
      var i := s / 8;
      assert InItsBin(smallbins, treebins, binned, (p, s));
      WithoutDistinct(smallbins[i], p);
      smallbins := smallbins[i := WithoutElement(smallbins[i], p)];
      if smallbins[i] == [] {
        smallmap := smallmap - {i};
      }
      binned := binned - {(p, s)};
      forall c ensures InItsBin(smallbins, treebins, binned, c) {
        assert InItsBin(old(smallbins), old(treebins), old(binned), c);
      }
    }

    method UnlinkFirstSmallChunk(i: nat) returns (p: nat)
      requires Valid() && i in smallmap
      modifies this
      ensures Valid() && (p, 8 * i) in old(binned) && binned == old(binned) - {(p, 8 * i)}
    {
      p := smallbins[i][0];
      assert InItsBin(smallbins, treebins, binned, (p, 8 * i));
      smallbins := smallbins[i := smallbins[i][1..]];
      if smallbins[i] == [] {
        smallmap := smallmap - {i};
      }
      binned := binned - {(p, 8 * i)};
      forall c ensures InItsBin(smallbins, treebins, binned, c) {
        assert InItsBin(old(smallbins), old(treebins), old(binned), c);
      }
    }

    method InsertLargeChunk(x: nat, s: nat)
      requires Valid() && LargeSize(s) && (x, s) !in binned
      modifies this
      ensures Valid() && binned == old(binned) + {(x, s)}
    {
      IndexBound(s);
      var i := TreeIndex(s);
      assert InItsBin(smallbins, treebins, binned, (x, s));
      ghost var was := treebins;
      if i !in treemap {
        treemap := treemap + {i};
        treebins := treebins[i := Node(s, [x], Nil, Nil)];
      } else {
        treebins := treebins[i := Insert(treebins[i], Word(s, i), x, s)];
      }
      TreesInsert(was, i, x, s, treebins);
      binned := binned + {(x, s)};
      forall c ensures InItsBin(smallbins, treebins, binned, c) {
        assert InItsBin(old(smallbins), old(treebins), old(binned), c);
      }
    }

    method UnlinkLargeChunk(x: nat, s: nat)
      requires Valid() && !IsSmall(s) && (x, s) in binned
      modifies this
      ensures Valid() && binned == old(binned) - {(x, s)}
    {
      var i := TreeIndex(s);
      assert InItsBin(smallbins, treebins, binned, (x, s));
      ghost var was := treebins;
      treebins := treebins[i := Remove(treebins[i], BinLow(i), BinWidth(i), x, s)];
      TreesRemove(was, i, x, s, treebins);
      if treebins[i] == Nil {
        treemap := treemap - {i};
      }
      binned := binned - {(x, s)};
      forall c ensures InItsBin(smallbins, treebins, binned, c) {
        assert InItsBin(old(smallbins), old(treebins), old(binned), c);
      }
    }

    method InsertChunk(p: nat, s: nat)
      requires Valid() && ChunkSize(s) && (p, s) !in binned
      modifies this
      ensures Valid() && binned == old(binned) + {(p, s)}
    {
      if IsSmall(s) {
        InsertSmallChunk(p, s);
      } else {
        InsertLargeChunk(p, s);
      }
    }

    method UnlinkChunk(p: nat, s: nat)
      requires Valid() && (p, s) in binned
      modifies this
      ensures Valid() && binned == old(binned) - {(p, s)}
    {
      if IsSmall(s) {
        UnlinkSmallChunk(p, s);
      } else {
        UnlinkLargeChunk(p, s);
      }
    }

    /** What tmalloc_large looks for: a chunk of the smallest size that serves a large request, among all chunks
        in the bins. */
    method FindLarge(nb: nat) returns (v: Found, rsize: nat)
      requires Valid() && MIN_LARGE_SIZE <= nb < WORD
      ensures Excess(v, rsize, nb)
      ensures v.Chunk? ==> (v.addr, v.size) in binned && !IsSmall(v.size)
      ensures forall c | c in binned && nb <= c.1 :: Serves(v, c.1)
    {
      v, rsize := BestFit(treebins, treemap, nb);
      assert v.Chunk? ==> InItsBin(smallbins, treebins, binned, (v.addr, v.size));
      forall c | c in binned && nb <= c.1 ensures Serves(v, c.1) {
        assert InItsBin(smallbins, treebins, binned, c);
      }
    }

    /** What tmalloc_small looks for: a chunk of the smallest size in the tree bins. */
    method FindSmall(nb: nat) returns (v: Found, rsize: nat)
      requires Valid() && nb < MIN_LARGE_SIZE && treemap != {}
      ensures v.Chunk? && Excess(v, rsize, nb) && (v.addr, v.size) in binned && !IsSmall(v.size)
      ensures forall c | c in binned && !IsSmall(c.1) :: v.size <= c.1
    {
      v, rsize := LeastFit(treebins, treemap, nb);
      assert v.Chunk? ==> InItsBin(smallbins, treebins, binned, (v.addr, v.size));
      forall c | c in binned && !IsSmall(c.1) ensures v.size <= c.1 {
        assert InItsBin(smallbins, treebins, binned, c);
      }
    }

    /** The least small bin from index i on that is not empty, with the smallest of its chunks' sizes. */
    lemma LeastSmallBin(i: nat, j: nat)
      requires Valid() && i <= j && j in smallmap && forall k | k in smallmap && i <= k :: j <= k
      ensures j < NSMALLBINS && forall c | c in binned && 8 * i <= c.1 :: 8 * j <= c.1
    {
      forall c | c in binned && 8 * i <= c.1 ensures 8 * j <= c.1 {
        if IsSmall(c.1) {
          assert InItsBin(smallbins, treebins, binned, c);
          assert c.1 / 8 in smallmap;
        }
      }
    }

    lemma MarkedTree(c: (nat, nat))
      requires Valid() && c in binned && !IsSmall(c.1)
      ensures TreeIndex(c.1) in treemap
    {
      assert InItsBin(smallbins, treebins, binned, c);
    }

    /** When smallmap has no bit for a request, no chunk in the small bins serves it. */
    lemma SmallMapTells(i: nat)
      requires Valid() && forall k | k in smallmap :: k < i
      ensures forall c | c in binned && IsSmall(c.1) :: c.1 < 8 * i
    {
      forall c | c in binned && IsSmall(c.1) ensures c.1 < 8 * i {
        assert InItsBin(smallbins, treebins, binned, c);
        assert c.1 / 8 in smallmap;
      }
    }

    lemma TreeMapTells()
      requires Valid() && treemap == {}
      ensures forall c | c in binned :: IsSmall(c.1)
    {
      forall c | c in binned ensures IsSmall(c.1) {
        if !IsSmall(c.1) {
          MarkedTree(c);
        }
      }
    }

    /** A bit of smallmap is set exactly when the bins hold chunks of that size. */
    lemma SmallMapExact(i: nat)
      requires Valid()
      ensures i in smallmap <==> i < NSMALLBINS && exists p: nat :: (p, 8 * i) in binned
    {
      if i in smallmap {
        assert smallbins[i][0] in smallbins[i] && 8 * i / 8 == i;
        assert InItsBin(smallbins, treebins, binned, (smallbins[i][0], 8 * i));
      }
      if i < NSMALLBINS && exists p: nat :: (p, 8 * i) in binned {
        var p: nat :| (p, 8 * i) in binned;
        assert InItsBin(smallbins, treebins, binned, (p, 8 * i)) && IsSmall(8 * i) && 8 * i / 8 == i;
      }
    }
  }
}
