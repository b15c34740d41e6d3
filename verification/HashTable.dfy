/** The hash table with linear probing and tombstones (hashtable.h). */
module HashTables {
  import opened Encodings

  /** A slot: never used, emptied by remove (a tombstone), or holding a key, which is not 0. */
  datatype Slot<V> = Vacant | Removed | Taken(key: nat, val: V)

  // ---------------------------------------------------------------- probing

  /** Steps from a to b around a table of n slots. */
  function Dist(n: nat, a: nat, b: nat): nat
    requires a < n && b < n
  {
    if b >= a then b - a else b - a + n
  }

  function Next(n: nat, i: nat): nat
    requires i < n
  {
    if i + 1 == n then 0 else i + 1
  }

  /** Where the probe for a key starts; the capacity is a power of two, so that masking is remainder. */
  function Home(hash: nat -> nat, n: nat, key: nat): nat
    requires n > 0
  {
    hash(key) % n
  }

  /** Every slot before i, from h on, holds another key. */
  ghost predicate AllOthers<V>(slots: seq<Slot<V>>, h: nat, i: nat, key: nat)
    requires h < |slots| && i < |slots|
  {
    forall p | 0 <= p < |slots| && Dist(|slots|, h, p) < Dist(|slots|, h, i) :: slots[p].Taken? && slots[p].key != key
  }

  /** No slot before i, from h on, is vacant. */
  ghost predicate NoVacant<V>(slots: seq<Slot<V>>, h: nat, i: nat)
    requires h < |slots| && i < |slots|
  {
    forall p | 0 <= p < |slots| && Dist(|slots|, h, p) < Dist(|slots|, h, i) :: !slots[p].Vacant?
  }

  ghost predicate Has<V>(slots: seq<Slot<V>>, key: nat) {
    exists j | 0 <= j < |slots| :: Holds(slots[j], key)
  }

  predicate Holds<V>(s: Slot<V>, key: nat) {
    s.Taken? && s.key == key
  }

  /** What the probe of remove and contains needs to end: the key, or a vacant slot. */
  ghost predicate ProbeEnds<V>(slots: seq<Slot<V>>, key: nat) {
    exists j | 0 <= j < |slots| :: slots[j].Vacant? || Holds(slots[j], key)
  }

  /** Each key is reachable from its home slot past tombstones, and no key is there twice. */
  ghost predicate Reachable<V>(slots: seq<Slot<V>>, hash: nat -> nat) {
    && |slots| > 0
    && (forall j | 0 <= j < |slots| && slots[j].Taken? ::
          slots[j].key != 0 && NoVacant(slots, Home(hash, |slots|, slots[j].key), j))
    && (forall i, j | 0 <= i < |slots| && 0 <= j < |slots| && slots[i].Taken? && slots[j].Taken?
          && slots[i].key == slots[j].key :: i == j)
  }

  /** The slots hold exactly the map, except for key 0. */
  ghost predicate Represents<V>(slots: seq<Slot<V>>, m: map<nat, V>) {
    && (forall j | 0 <= j < |slots| && slots[j].Taken? :: slots[j].key in m && m[slots[j].key] == slots[j].val)
    && (forall k {:trigger Has(slots, k)} | k in m && k != 0 :: Has(slots, k))
  }

  function Count<V>(slots: seq<Slot<V>>): nat {
    if slots == [] then 0 else Count(slots[..|slots| - 1]) + if slots[|slots| - 1].Taken? then 1 else 0
  }

  lemma {:induction false} CountUpdate<V>(slots: seq<Slot<V>>, i: nat, s: Slot<V>)
    requires i < |slots|
    ensures Count(slots[i := s]) == Count(slots) - (if slots[i].Taken? then 1 else 0) + (if s.Taken? then 1 else 0)
  {
    var n := |slots| - 1;
    if i == n {
      assert slots[i := s][..n] == slots[..n];
    } else {
      assert slots[i := s][..n] == slots[..n][i := s];
      CountUpdate(slots[..n], i, s);
    }
  }

  /** A table that is not full has a slot to put a key in. */
  lemma {:induction false} HoleExists<V>(slots: seq<Slot<V>>) returns (i: nat)
    requires Count(slots) < |slots|
    ensures i < |slots| && !slots[i].Taken?
  {
    var n := |slots| - 1;
    if slots[n].Taken? {
      i := HoleExists(slots[..n]);
    } else {
      i := n;
    }
  }

  lemma {:induction false} CountVacant<V>(n: nat)
    ensures Count(seq<Slot<V>>(n, _ => Vacant)) == 0
  {
    if n > 0 {
      assert seq<Slot<V>>(n, _ => Vacant)[..n - 1] == seq<Slot<V>>(n - 1, _ => Vacant);
      CountVacant<V>(n - 1);
    }
  }

  // ---------------------------------------------------------------- what the operations do to the slots

  /** Where put stores: the first slot that holds the key or no key. */
  ghost predicate PutSlot<V>(slots: seq<Slot<V>>, h: nat, i: nat, key: nat) {
    h < |slots| && i < |slots| && AllOthers(slots, h, i, key) && (!slots[i].Taken? || slots[i].key == key)
  }

  /** No hole comes before the key's slot on its probe path. */
  ghost predicate NoHoleBefore<V>(slots: seq<Slot<V>>, hash: nat -> nat, key: nat)
    requires |slots| > 0
  {
    forall j | 0 <= j < |slots| && slots[j].Taken? && slots[j].key == key ::
      AllOthers(slots, Home(hash, |slots|, key), j, key)
  }

  /** Putting a key that is absent, or that no hole precedes, keeps the table right. */
  lemma PutKeeps<V>(slots: seq<Slot<V>>, hash: nat -> nat, m: map<nat, V>, i: nat, key: nat, val: V)
    requires Reachable(slots, hash) && Represents(slots, m) && key != 0
    requires PutSlot(slots, Home(hash, |slots|, key), i, key) && NoHoleBefore(slots, hash, key)
    ensures Reachable(slots[i := Taken(key, val)], hash) && Represents(slots[i := Taken(key, val)], m[key := val])
    ensures slots[i].Taken? <==> Has(slots, key)
    ensures Has(slots, key) <==> key in m
  {
    var n, h, now := |slots|, Home(hash, |slots|, key), slots[i := Taken(key, val)];
    forall j | 0 <= j < n && slots[j].Taken? && slots[j].key == key ensures j == i {
      assert AllOthers(slots, h, j, key);
    }
    assert now[i].Taken? && now[i].key == key;
    forall j | 0 <= j < n && now[j].Taken? ensures NoVacant(now, Home(hash, n, now[j].key), j) {
      if j != i {
        assert NoVacant(slots, Home(hash, n, slots[j].key), j);
      }
    }
    forall k | k in m[key := val] && k != 0 ensures Has(now, k) {
      if k != key {
        assert Has(slots, k);
        var j :| 0 <= j < n && Holds(slots[j], k);
        assert now[j] == slots[j];
      }
    }
  }

  /** Putting a key that a hole precedes stores it twice. */
  lemma PutDuplicates<V>(slots: seq<Slot<V>>, hash: nat -> nat, i: nat, key: nat, val: V)
    requires Reachable(slots, hash) && PutSlot(slots, Home(hash, |slots|, key), i, key)
    requires !NoHoleBefore(slots, hash, key)
    ensures !Reachable(slots[i := Taken(key, val)], hash)
  {
    var n, h, now := |slots|, Home(hash, |slots|, key), slots[i := Taken(key, val)];
    var j :| 0 <= j < n && slots[j].Taken? && slots[j].key == key && !AllOthers(slots, h, j, key);
    assert now[i].Taken? && now[i].key == key;
    assert now[j].Taken? && now[j].key == key;
  }

  /** A key behind a tombstone is stored a second time. */
  lemma TombstoneDuplicates(v: int, v': int)
    ensures var slots, hash := [Removed, Taken(5, v)], (k: nat) => 0;
      && Reachable(slots, hash) && PutSlot(slots, Home(hash, 2, 5), 0, 5)
      && !Reachable(slots[0 := Taken(5, v')], hash)
  {
    var slots, hash := [Removed, Taken(5, v)], (k: nat) => 0;
    assert slots[1].Taken? && slots[1].key == 5 && Dist(2, 0, 0) < Dist(2, 0, 1);
    assert !AllOthers(slots, 0, 1, 5);
    PutDuplicates(slots, hash, 0, 5, v');
  }

  /** Leaving a tombstone keeps the other keys reachable. */
  lemma RemoveKeeps<V>(slots: seq<Slot<V>>, hash: nat -> nat, m: map<nat, V>, i: nat)
    requires Reachable(slots, hash) && Represents(slots, m) && i < |slots| && slots[i].Taken?
    ensures Reachable(slots[i := Removed], hash) && Represents(slots[i := Removed], m - {slots[i].key})
  {
    var n, now := |slots|, slots[i := Removed];
    forall j | 0 <= j < n && now[j].Taken? ensures NoVacant(now, Home(hash, n, now[j].key), j) {
      assert NoVacant(slots, Home(hash, n, slots[j].key), j);
    }
    forall k | k in m && k != slots[i].key && k != 0 ensures Has(now, k) {
      assert Has(slots, k);
      var j :| 0 <= j < n && Holds(slots[j], k);
      assert now[j] == slots[j];
    }
  }

  /** A probe that meets a vacant slot, or comes around, without the key shows that it is absent. */
  lemma Absent<V>(slots: seq<Slot<V>>, hash: nat -> nat, i: nat, key: nat)
    requires Reachable(slots, hash) && i < |slots| && slots[i].Vacant?
    requires forall p | 0 <= p < |slots|
      && Dist(|slots|, Home(hash, |slots|, key), p) < Dist(|slots|, Home(hash, |slots|, key), i) ::
      !Holds(slots[p], key)
    ensures !Has(slots, key)
  {
    var n, h := |slots|, Home(hash, |slots|, key);
    forall j | 0 <= j < n ensures !Holds(slots[j], key) {
    }
  }

  ghost predicate NoTombstones<V>(slots: seq<Slot<V>>) {
    forall j | 0 <= j < |slots| :: !slots[j].Removed?
  }

  lemma {:induction false} CountBelow<V>(slots: seq<Slot<V>>)
    ensures Count(slots) <= |slots|
  {
    if slots != [] {
      CountBelow(slots[..|slots| - 1]);
    }
  }

  lemma {:induction false} CountPrefix<V>(slots: seq<Slot<V>>, i: nat)
    requires i < |slots|
    ensures Count(slots[..i]) + (if slots[i].Taken? then 1 else 0) == Count(slots[..i + 1]) <= Count(slots)
    decreases |slots| - i
  {
    assert slots[..i + 1][..i] == slots[..i];
    if i + 1 < |slots| {
      CountPrefix(slots, i + 1);
    } else {
      assert slots[..i + 1] == slots;
    }
  }

  /** Without tombstones, no hole comes before a key. */
  lemma NoHoles<V>(slots: seq<Slot<V>>, hash: nat -> nat, key: nat)
    requires Reachable(slots, hash) && NoTombstones(slots)
    ensures NoHoleBefore(slots, hash, key)
  {
    var h := Home(hash, |slots|, key);
    forall j | 0 <= j < |slots| && slots[j].Taken? && slots[j].key == key ensures AllOthers(slots, h, j, key) {
      assert NoVacant(slots, h, j);
    }
  }

  /** acc is what the first i slots hold. */
  ghost predicate Copied<V>(slots: seq<Slot<V>>, i: nat, m: map<nat, V>, acc: map<nat, V>)
    requires i <= |slots|
  {
    && (forall k | k in acc :: k in m && acc[k] == m[k] && Has(slots[..i], k))
    && (forall j | 0 <= j < i && slots[j].Taken? :: slots[j].key in acc)
  }

  lemma NotCopied<V>(slots: seq<Slot<V>>, hash: nat -> nat, i: nat, m: map<nat, V>, acc: map<nat, V>)
    requires Reachable(slots, hash) && Represents(slots, m) && i < |slots| && Copied(slots, i, m, acc)
    requires slots[i].Taken?
    ensures slots[i].key !in acc && slots[i].key != 0 && Copied(slots, i + 1, m, acc[slots[i].key := slots[i].val])
  {
    var now := acc[slots[i].key := slots[i].val];
    forall k | k in now ensures Has(slots[..i + 1], k) {
      if k in acc {
        var j :| 0 <= j < i && Holds(slots[..i][j], k);
        assert Holds(slots[..i + 1][j], k);
      } else {
        assert Holds(slots[..i + 1][i], k);
      }
    }
  }

  lemma CopiedSkip<V>(slots: seq<Slot<V>>, i: nat, m: map<nat, V>, acc: map<nat, V>)
    requires i < |slots| && Copied(slots, i, m, acc) && !slots[i].Taken?
    ensures Copied(slots, i + 1, m, acc)
  {
    forall k | k in acc ensures Has(slots[..i + 1], k) {
      var j :| 0 <= j < i && Holds(slots[..i][j], k);
      assert Holds(slots[..i + 1][j], k);
    }
  }

  lemma AllCopied<V>(slots: seq<Slot<V>>, now: seq<Slot<V>>, m: map<nat, V>, acc: map<nat, V>)
    requires Represents(slots, m) && Copied(slots, |slots|, m, acc) && Represents(now, acc)
    ensures Represents(now, m)
  {
    forall k | k in m && k != 0 ensures Has(now, k) {
      assert Has(slots, k);
      var j :| 0 <= j < |slots| && Holds(slots[j], k);
      assert k in acc;
    }
  }

  // ---------------------------------------------------------------- probes without end

  /** The slot at which a probe for the key stands after n steps. */
  function ProbeAt(hash: nat -> nat, size: nat, key: nat, n: nat): (i: nat)
    requires size > 0
    ensures i < size
  {
    if n == 0 then Home(hash, size, key) else Next(size, ProbeAt(hash, size, key, n - 1))
  }

  /** The loops of remove and contains stop after n steps. */
  predicate StopsAt<V>(slots: seq<Slot<V>>, hash: nat -> nat, key: nat, n: nat)
    requires slots != []
  {
    var slot := slots[ProbeAt(hash, |slots|, key, n)];
    slot.Vacant? || Holds(slot, key)
  }

  lemma {:induction false} ProbeReaches(hash: nat -> nat, size: nat, key: nat, j: nat, n: nat)
    requires j < size && n == Dist(size, Home(hash, size, key), j)
    ensures ProbeAt(hash, size, key, n) == j
    decreases n
  {
    if n > 0 {
      ProbeReaches(hash, size, key, if j == 0 then size - 1 else j - 1, n - 1);
    }
  }

  /** They stop at all exactly when the table has the key or a vacant slot; otherwise they run forever. */
  lemma ProbeStopsExactly<V>(slots: seq<Slot<V>>, hash: nat -> nat, key: nat)
    requires slots != []
    ensures (exists n: nat :: StopsAt(slots, hash, key, n)) <==> ProbeEnds(slots, key)
  {
    if ProbeEnds(slots, key) {
      var j :| 0 <= j < |slots| && (slots[j].Vacant? || Holds(slots[j], key));
      var n := Dist(|slots|, Home(hash, |slots|, key), j);
      ProbeReaches(hash, |slots|, key, j, n);
      assert StopsAt(slots, hash, key, n);
    }
  }

  /** Puts and removes reach such a table: after putting and removing 2 and then 1 in a new table of two slots, which
      never has a key too many, no slot is vacant, and a probe for 3 does not stop. */
  lemma TombstonesFill(v: int)
    ensures var hash, empty := (k: nat) => k, [Vacant, Vacant];
      var one := empty[0 := Taken(2, v)];
      var two := one[0 := Removed][1 := Taken(1, v)];
      var full := two[1 := Removed];
      && Reachable(empty, hash) && PutSlot(empty, Home(hash, 2, 2), 0, 2)
      && Reachable(one, hash) && Holds(one[0], 2)
      && Reachable(one[0 := Removed], hash) && PutSlot(one[0 := Removed], Home(hash, 2, 1), 1, 1)
      && Reachable(two, hash) && Holds(two[1], 1) && Reachable(full, hash)
      && forall n: nat :: !StopsAt(full, hash, 3, n)
  {
    var hash := (k: nat) => k;
    var full: seq<Slot<int>> := [Removed, Removed];
    assert [Vacant, Vacant][0 := Taken(2, v)] == [Taken(2, v), Vacant];
    assert [Taken(2, v), Vacant][0 := Removed][1 := Taken(1, v)] == [Removed, Taken(1, v)];
    assert [Removed, Taken(1, v)][1 := Removed] == full;
    ProbeStopsExactly(full, hash, 3);
  }

  function Threshold(capacity: nat, loadfactor: real): int {
    (capacity as real * loadfactor).Floor
  }

  lemma ThresholdBelow(capacity: nat, loadfactor: real)
    requires capacity > 0 && 0.0 <= loadfactor < 1.0
    ensures 0 <= Threshold(capacity, loadfactor) < capacity
  {
    assert 0.0 <= capacity as real * loadfactor < capacity as real;
  }

  // ---------------------------------------------------------------- the class

  class HashTable<V> {
    var table: array<Slot<V>>
    var zero: Option<V>
    var size: nat
    var threshold: int
    const loadfactor: real
    const hash: nat -> nat
    ghost var m: map<nat, V>   // what the table holds

    /** Every key is found by its probe, and the slots hold m. */
    ghost predicate Valid()
      reads this, table
    {
      && 0.0 <= loadfactor < 1.0 && threshold == Threshold(table.Length, loadfactor)
      && Reachable(table[..], hash) && Represents(table[..], m)
      && (0 in m <==> zero.Some?) && (zero.Some? ==> m[0] == zero.value)
      && size == |m| && Count(table[..]) + (if zero.Some? then 1 else 0) == size
    }

    constructor (initialcapacity: nat, factor: real, hash: nat -> nat)
      requires initialcapacity > 0 && 0.0 <= factor < 1.0
      ensures Valid() && fresh(table) && m == map[] && table.Length == initialcapacity && loadfactor == factor
      ensures this.hash == hash
    {
      table := new Slot<V>[initialcapacity](_ => Vacant);
      zero, size, m := None, 0, map[];
      loadfactor, this.hash := factor, hash;
      threshold := Threshold(initialcapacity, factor);
      new;
      assert table[..] == seq<Slot<V>>(initialcapacity, _ => Vacant);
      CountVacant<V>(initialcapacity);
      assert Valid();
    }

    /** The probe of put: the first slot with the key or without a key. */
    method PutIndex(key: nat) returns (index: nat)
      requires Count(table[..]) < table.Length
      ensures PutSlot(table[..], Home(hash, table.Length, key), index, key)
    {
      ghost var slots, n, h := table[..], table.Length, Home(hash, table.Length, key);
      ghost var hole := HoleExists(slots);
      index := hash(key) % table.Length;
      while table[index].Taken? && table[index].key != key
        invariant index < n && AllOthers(slots, h, index, key) && Dist(n, h, index) <= Dist(n, h, hole)
        decreases Dist(n, h, hole) - Dist(n, h, index)
      {
        assert slots[index] == table[index];
        index := Next(table.Length, index);
      }
    }

    /** put, once there is room: right for a key that no hole precedes on its probe path, and otherwise
        the key is stored twice. */
    method Store(key: nat, val: V)
      requires Valid() && key != 0 && Count(table[..]) < table.Length
      modifies this`size, this`m, table
      ensures old(NoHoleBefore(table[..], hash, key)) ==> Valid() && m == old(m)[key := val]
      ensures !old(NoHoleBefore(table[..], hash, key)) ==> !Reachable(table[..], hash)
    {
      var index := PutIndex(key);
      ghost var slots := table[..];
      if NoHoleBefore(slots, hash, key) {
        PutKeeps(slots, hash, m, index, key, val);
        CountUpdate(slots, index, Taken(key, val));
      } else {
        PutDuplicates(slots, hash, index, key, val);
      }
      if !table[index].Taken? {
        size := size + 1;
      }
      table[index] := Taken(key, val);
      assert table[..] == slots[index := Taken(key, val)];
      m := m[key := val];
      if NoHoleBefore(slots, hash, key) {
        assert Valid();
      }
    }

    /** put keeps the table right for key 0, for an absent key, when the table grows, and for a key that
        no hole precedes. */
    ghost predicate PutIsProper(key: nat)
      reads this, table
      requires Valid()
    {
      key == 0 || key !in m || size > threshold || NoHoleBefore(table[..], hash, key)
    }

    /** put. */
    method Put(key: nat, val: V)
      requires Valid()
      modifies this, table
      ensures table == old(table) || fresh(table)
      ensures old(PutIsProper(key)) ==> Valid() && m == old(m)[key := val]
      ensures !old(PutIsProper(key)) ==> !Reachable(table[..], hash)
    {
      if key == 0 {
        if zero.None? {
          size := size + 1;
        }
        zero := Some(val);
        m := m[0 := val];
        assert Valid();
        return;
      }
      ThresholdBelow(table.Length, loadfactor);
      if size > threshold {
        CountBelow(table[..]);
        Resize(2 * table.Length);
        NoHoles(table[..], hash, key);
      } else if key !in m {
        assert !Has(table[..], key);
      }
      Store(key, val);
    }

    /** resize: every key is put into a table without tombstones. */
    method Resize(newsize: nat)
      requires Valid() && Count(table[..]) < newsize
      modifies this`table, this`threshold
      ensures Valid() && fresh(table) && table.Length == newsize && NoTombstones(table[..])
    {
      var oldtable := table;
      ghost var slots := table[..];
      table := new Slot<V>[newsize](_ => Vacant);
      threshold := Threshold(newsize, loadfactor);
      assert table[..] == seq<Slot<V>>(newsize, _ => Vacant);
      CountVacant<V>(newsize);
      CopyBins(oldtable, slots);
      assert Valid();
    }

    /** The loop of resize over the old table. */
    method CopyBins(oldtable: array<Slot<V>>, ghost slots: seq<Slot<V>>)
      requires oldtable != table && oldtable[..] == slots && Reachable(slots, hash) && Represents(slots, m)
      requires Count(slots) < table.Length && Reachable(table[..], hash) && Represents(table[..], map[])
      requires NoTombstones(table[..])
      requires Count(table[..]) == 0
      modifies table
      ensures Reachable(table[..], hash) && Represents(table[..], m) && NoTombstones(table[..])
      ensures Count(table[..]) == Count(slots)
    {
      ghost var acc: map<nat, V> := map[];
      var i := 0;
      while i < oldtable.Length
        invariant 0 <= i <= oldtable.Length == |slots| && oldtable[..] == slots
        invariant Reachable(table[..], hash) && Represents(table[..], acc) && NoTombstones(table[..])
        invariant Count(table[..]) == Count(slots[..i]) && Copied(slots, i, m, acc)
      {
        var bin := oldtable[i];
        assert bin == slots[i];
        CountPrefix(slots, i);
        if bin.Taken? {
          NotCopied(slots, hash, i, m, acc);
          Reinsert(bin.key, bin.val, acc);
          acc := acc[bin.key := bin.val];
        } else {
          CopiedSkip(slots, i, m, acc);
        }
        i := i + 1;
      }
      assert slots[..i] == slots;
      AllCopied(slots, table[..], m, acc);
    }

    /** The probe of resize: the first slot without a key. */
    method EmptyIndex(key: nat) returns (index: nat)
      requires Count(table[..]) < table.Length && !Has(table[..], key)
      ensures PutSlot(table[..], Home(hash, table.Length, key), index, key) && !table[index].Taken?
    {
      ghost var slots, h := table[..], Home(hash, table.Length, key);
      ghost var hole := HoleExists(slots);
      index := hash(key) % table.Length;
      while table[index].Taken?
        invariant index < table.Length && AllOthers(slots, h, index, key)
        invariant Dist(table.Length, h, index) <= Dist(table.Length, h, hole)
        decreases Dist(table.Length, h, hole) - Dist(table.Length, h, index)
      {
        assert slots[index] == table[index] && !Holds(slots[index], key);
        index := Next(table.Length, index);
      }
    }

    /** One round of resize. */
    method Reinsert(key: nat, val: V, ghost acc: map<nat, V>)
      requires Reachable(table[..], hash) && Represents(table[..], acc) && NoTombstones(table[..])
      requires key != 0 && key !in acc && Count(table[..]) < table.Length
      modifies table
      ensures Reachable(table[..], hash) && Represents(table[..], acc[key := val]) && NoTombstones(table[..])
      ensures Count(table[..]) == Count(old(table[..])) + 1
    {
      ghost var slots := table[..];
      assert forall j | 0 <= j < |slots| :: !Holds(slots[j], key);
      var index := EmptyIndex(key);
      PutKeeps(slots, hash, acc, index, key, val);
      CountUpdate(slots, index, Taken(key, val));
      table[index] := Taken(key, val);
      assert table[..] == slots[index := Taken(key, val)];
    }

    /** reset. */
    method Reset()
      requires Valid()
      modifies this`zero, this`size, this`m, table
      ensures Valid() && m == map[]
    {
      forall i | 0 <= i < table.Length {
        table[i] := Vacant;
      }
      zero, size, m := None, 0, map[];
      assert table[..] == seq<Slot<V>>(table.Length, _ => Vacant);
      CountVacant<V>(table.Length);
      assert Valid();
    }

    /** The probe of get, which stops where it started. */
    method GetIndex(key: nat) returns (r: Option<nat>)
      requires Reachable(table[..], hash)
      ensures r.Some? ==> r.value < table.Length && table[r.value].Taken? && table[r.value].key == key
      ensures r.None? ==> !Has(table[..], key)
    {
      ghost var slots := table[..];
      var n := table.Length;
      var oindex: nat := hash(key) % n;
      var index: nat := oindex;
      while true
        invariant index < n
        invariant forall p | 0 <= p < n && Dist(n, oindex, p) < Dist(n, oindex, index) :: !Holds(slots[p], key)
        decreases n - Dist(n, oindex, index)
      {
        assert slots[index] == table[index];
        if table[index].Vacant? {
          Absent(slots, hash, index, key);
          return None;
        }
        if table[index].Taken? && table[index].key == key {
          return Some(index);
        }
        if Next(n, index) == oindex {
          assert forall p | 0 <= p < n :: Dist(n, oindex, p) <= Dist(n, oindex, index);
          return None;
        }
        index := Next(n, index);
      }
    }

    /** get: None where the source answers NULL. */
    method Get(key: nat) returns (r: Option<V>)
      requires Valid()
      ensures r == if key in m then Some(m[key]) else None
    {
      if key == 0 {
        return zero;
      }
      var index := GetIndex(key);
      r := if index.Some? then Some(table[index.value].val) else None;
      assert index.Some? ==> table[..][index.value] == table[index.value];
    }

    /** The probe of remove and contains. Without the key, it ends only at a vacant slot. */
    method FindIndex(key: nat) returns (r: Option<nat>)
      requires Reachable(table[..], hash) && ProbeEnds(table[..], key)
      ensures r.Some? ==> r.value < table.Length && table[r.value].Taken? && table[r.value].key == key
      ensures r.None? ==> !Has(table[..], key)
    {
      ghost var slots, h := table[..], Home(hash, table.Length, key);
      var n := table.Length;
      ghost var stop :| 0 <= stop < n && (slots[stop].Vacant? || Holds(slots[stop], key));
      var index: nat := hash(key) % n;
      while !table[index].Vacant?
        invariant index < n && Dist(n, h, index) <= Dist(n, h, stop)
        invariant forall p | 0 <= p < n && Dist(n, h, p) < Dist(n, h, index) :: !Holds(slots[p], key)
        decreases Dist(n, h, stop) - Dist(n, h, index)
      {
        assert slots[index] == table[index];
        if table[index].Taken? && table[index].key == key {
          return Some(index);
        }
        index := Next(n, index);
      }
      Absent(slots, hash, index, key);
      return None;
    }

    /** contains. */
    method Contains(key: nat) returns (r: bool)
      requires Valid() && (key == 0 || ProbeEnds(table[..], key))
      ensures r <==> key in m
    {
      if key == 0 {
        return zero.Some?;
      }
      var index := FindIndex(key);
      return index.Some?;
    }

    /** remove: the slot of the key becomes a tombstone. */
    method Remove(key: nat) returns (r: Option<V>)
      requires Valid() && (key == 0 || ProbeEnds(table[..], key))
      modifies this`zero, this`size, this`m, table
      ensures Valid() && r == (if key in old(m) then Some(old(m)[key]) else None) && m == old(m) - {key}
    {
      if key == 0 {
        r := zero;
        if zero.Some? {
          size := size - 1;
        }
        zero := None;
        m := m - {0};
        assert Valid();
        return;
      }
      var index := FindIndex(key);
      if index.None? {
        assert m - {key} == m;
        return None;
      }
      r := Some(table[index.value].val);
      Clear(index.value);
    }

    /** The slot of a key becomes a tombstone. */
    method Clear(index: nat)
      requires Valid() && index < table.Length && table[index].Taken?
      modifies this`size, this`m, table
      ensures Valid() && m == old(m) - {old(table[index].key)}
    {
      ghost var slots := table[..];
      RemoveKeeps(slots, hash, m, index);
      CountUpdate(slots, index, Removed);
      m := m - {table[index].key};
      table[index] := Removed;
      assert table[..] == slots[index := Removed];
      size := size - 1;
      assert Valid();
    }
  }
}
