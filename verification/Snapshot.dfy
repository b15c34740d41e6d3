/** Page snapshots by write protection: copy on first write, and rollback (snapshot.cc). */
module Snapshots {

  /** The contents of a page. */
  type Page = seq<bv8>

  // ---------------------------------------------------------------- backing records

  /** The first backing record for page p, from record k on. */
  function FirstRecord(records: seq<nat>, k: nat, p: nat): (i: nat)
    requires k <= |records|
    ensures k <= i <= |records| && (i < |records| ==> records[i] == p)
    ensures forall j | k <= j < i :: records[j] != p
    decreases |records| - k
  {
    if k == |records| || records[k] == p then k else FirstRecord(records, k + 1, p)
  }

  /** What page p held when record k was the next one: the oldest copy since then, or the page itself. */
  function Original(records: seq<nat>, store: seq<Page>, memory: seq<Page>, k: nat, p: nat): Page
    requires k <= |records| == |store| && p < |memory|
  {
    var i := FirstRecord(records, k, p);
    if i < |records| then store[i] else memory[p]
  }

  /** The records from k on are copies of different pages, which are exactly the writable ones. */
  ghost predicate CopiedOnce(records: seq<nat>, k: nat, writable: seq<bool>)
    requires k <= |records|
  {
    && (forall i, j | k <= i < j < |records| :: records[i] != records[j])
    && (forall p | 0 <= p < |writable| :: writable[p] <==> FirstRecord(records, k, p) < |records|)
  }

  /** Every snapshot can be restored from the records. */
  ghost predicate Restorable(records: seq<nat>, store: seq<Page>, memory: seq<Page>, firsts: seq<nat>,
                             saved: seq<seq<Page>>)
    requires |records| == |store|
  {
    && |saved| == |firsts|
    && (forall i | 0 <= i < |records| :: records[i] < |memory|)
    && (forall i, j | 0 <= i <= j < |firsts| :: firsts[i] <= firsts[j] <= |records|)
    && (forall i | 0 <= i < |saved| :: |saved[i]| == |memory|)
    && (forall i, p | 0 <= i < |firsts| && 0 <= p < |memory| ::
          saved[i][p] == Original(records, store, memory, firsts[i], p))
  }

  /** One more record. */
  lemma {:induction false} FirstRecordSnoc(records: seq<nat>, k: nat, q: nat, p: nat)
    requires k <= |records|
    ensures FirstRecord(records + [q], k, p) ==
      if FirstRecord(records, k, p) < |records| then FirstRecord(records, k, p)
      else if q == p then |records| else |records| + 1
    decreases |records| - k
  {
    if k < |records| {
      FirstRecordSnoc(records, k + 1, q, p);
    }
  }

  /** Fewer records. */
  lemma {:induction false} FirstRecordPrefix(records: seq<nat>, k: nat, n: nat, p: nat)
    requires k <= n <= |records|
    ensures FirstRecord(records[..n], k, p) == if FirstRecord(records, k, p) < n then FirstRecord(records, k, p) else n
    ensures FirstRecord(records, k, p) >= n ==> FirstRecord(records, n, p) == FirstRecord(records, k, p)
    decreases n - k
  {
    if k < n {
      FirstRecordPrefix(records, k + 1, n, p);
    }
  }

  /** A first write to a page copies it and changes nothing about the snapshots. */
  lemma FaultKeeps(records: seq<nat>, store: seq<Page>, memory: seq<Page>, firsts: seq<nat>, saved: seq<seq<Page>>,
                   writable: seq<bool>, p: nat, contents: Page)
    requires |records| == |store| && Restorable(records, store, memory, firsts, saved) && firsts != []
    requires |writable| == |memory| && p < |memory| && !writable[p]
    requires CopiedOnce(records, firsts[|firsts| - 1], writable)
    ensures Restorable(records + [p], store + [memory[p]], memory[p := contents], firsts, saved)
    ensures CopiedOnce(records + [p], firsts[|firsts| - 1], writable[p := true])
  {
    var now, memory' := records + [p], memory[p := contents];
    forall i, q | 0 <= i < |firsts| && 0 <= q < |memory|
      ensures saved[i][q] == Original(now, store + [memory[p]], memory', firsts[i], q)
    {
      FirstRecordSnoc(records, firsts[i], p, q);
    }
    var k := firsts[|firsts| - 1];
    forall q | 0 <= q < |memory| ensures writable[p := true][q] <==> FirstRecord(now, k, q) < |now| {
      FirstRecordSnoc(records, k, p, q);
    }
    assert FirstRecord(records, k, p) == |records|;
  }

  /** A later write to a page changes nothing about the snapshots: a copy is older. */
  lemma WriteKeeps(records: seq<nat>, store: seq<Page>, memory: seq<Page>, firsts: seq<nat>, saved: seq<seq<Page>>,
                   writable: seq<bool>, p: nat, contents: Page)
    requires |records| == |store| && Restorable(records, store, memory, firsts, saved)
    requires |writable| == |memory| && p < |memory|
    requires firsts != [] ==> writable[p] && CopiedOnce(records, firsts[|firsts| - 1], writable)
    ensures Restorable(records, store, memory[p := contents], firsts, saved)
  {
    forall i, q | 0 <= i < |firsts| && 0 <= q < |memory|
      ensures saved[i][q] == Original(records, store, memory[p := contents], firsts[i], q)
    {
      FirstRecordPrefix(records, firsts[i], firsts[|firsts| - 1], q);
      assert saved[i][q] == Original(records, store, memory, firsts[i], q);
    }
  }

  /** A new snapshot. */
  lemma TakeKeeps(records: seq<nat>, store: seq<Page>, memory: seq<Page>, firsts: seq<nat>, saved: seq<seq<Page>>)
    requires |records| == |store| && Restorable(records, store, memory, firsts, saved)
    ensures Restorable(records, store, memory, firsts + [|records|], saved + [memory])
    ensures CopiedOnce(records, |records|, seq(|memory|, _ => false))
  {
  }

  /** After a rollback, the older snapshots are restored from the records that are left. */
  lemma RollBackKeeps(records: seq<nat>, store: seq<Page>, memory: seq<Page>, firsts: seq<nat>, saved: seq<seq<Page>>,
                      id: nat)
    requires |records| == |store| && Restorable(records, store, memory, firsts, saved) && id < |firsts|
    ensures var n := firsts[id]; Restorable(records[..n], store[..n], saved[id], firsts[..id], saved[..id])
  {
    var n := firsts[id];
    forall i, p | 0 <= i < id && 0 <= p < |memory|
      ensures saved[i][p] == Original(records[..n], store[..n], saved[id], firsts[i], p)
    {
      FirstRecordPrefix(records, firsts[i], n, p);
      assert saved[i][p] == Original(records, store, memory, firsts[i], p);
      assert saved[id][p] == Original(records, store, memory, firsts[id], p);
    }
  }

  // ---------------------------------------------------------------- the snapshotter

  /** What the loops of mprot_roll_back have copied back after the records k to page. */
  ghost predicate CopiedBack(records: seq<nat>, store: seq<Page>, before: seq<Page>, now: seq<Page>, k: nat, page: nat)
    requires k <= page <= |records| == |store| && |before| == |now|
  {
    forall p | 0 <= p < |now| ::
      now[p] == if FirstRecord(records, k, p) < page then store[FirstRecord(records, k, p)] else before[p]
  }

  class Snapshotter {
    const maxBackingPages: nat
    const maxSnapShots: nat
    const latestFast: bool      // USE_MPROTECT_SNAPSHOT is 2
    const memory: array<Page>   // the pages of all regions
    const writable: array<bool>
    const backingStore: array<Page>
    const backingRecords: array<nat>
    const snapShots: array<nat>
    var lastBackingPage: nat
    var lastSnapShot: nat
    ghost var saved: seq<seq<Page>>   // the memory when each live snapshot was taken

    /** Every live snapshot can be restored; between snapshots, exactly the copied pages are writable. */
    ghost predicate Valid()
      reads this, memory, writable, backingStore, backingRecords, snapShots
    {
      && Sane()
      && (lastSnapShot > 0 ==>
            && Firsts()[lastSnapShot - 1] <= |Records()|
            && CopiedOnce(Records(), Firsts()[lastSnapShot - 1], writable[..]))
      && (lastSnapShot == 0 ==> forall p | 0 <= p < writable.Length :: writable[p])
    }

    ghost predicate Sane()
      reads this, memory, writable, backingStore, backingRecords, snapShots
    {
      && memory.Length == writable.Length && backingStore.Length == maxBackingPages == backingRecords.Length
      && snapShots.Length == maxSnapShots
      && lastBackingPage <= maxBackingPages && lastSnapShot <= maxSnapShots
      && memory != backingStore && backingRecords != snapShots
      && Restorable(Records(), Store(), memory[..], Firsts(), saved)
    }

    ghost function Records(): seq<nat>
      requires lastBackingPage <= backingRecords.Length
      reads this, backingRecords
    {
      backingRecords[..lastBackingPage]
    }

    ghost function Store(): seq<Page>
      requires lastBackingPage <= backingStore.Length
      reads this, backingStore
    {
      backingStore[..lastBackingPage]
    }

    ghost function Firsts(): seq<nat>
      requires lastSnapShot <= snapShots.Length
      reads this, snapShots
    {
      snapShots[..lastSnapShot]
    }

    constructor (pages: nat, backingpages: nat, snapshots: nat, latestFast: bool)
      ensures Valid() && saved == [] && memory.Length == pages && this.latestFast == latestFast
      ensures maxBackingPages == backingpages && maxSnapShots == snapshots
      ensures fresh(memory) && fresh(writable) && fresh(backingStore) && fresh(backingRecords) && fresh(snapShots)
    {
      maxBackingPages, maxSnapShots, this.latestFast := backingpages, snapshots, latestFast;
      memory := new Page[pages](_ => []);
      writable := new bool[pages](_ => true);
      backingStore := new Page[backingpages](_ => []);
      backingRecords := new nat[backingpages](_ => 0);
      snapShots := new nat[snapshots](_ => 0);
      lastBackingPage, lastSnapShot, saved := 0, 0, [];
    }

    /** mprot_handle_pf: the faulting page is copied and made writable; false when there is no backing
        page left, where the source ends the program. */
    method HandlePf(page: nat) returns (ok: bool)
      requires Valid() && page < memory.Length && !writable[page]
      modifies this`lastBackingPage, backingStore, backingRecords, writable
      ensures Valid() && memory[..] == old(memory[..]) && saved == old(saved) && lastSnapShot == old(lastSnapShot)
      ensures ok <==> old(lastBackingPage) < maxBackingPages
      ensures ok ==> writable[page]
    {
      if lastBackingPage == maxBackingPages {
        return false;
      }
      ghost var records, store, w := Records(), Store(), writable[..];
      FaultKeeps(records, store, memory[..], Firsts(), saved, w, page, memory[page]);
      backingStore[lastBackingPage] := memory[page];
      backingRecords[lastBackingPage] := page;
      lastBackingPage := lastBackingPage + 1;
      writable[page] := true;
      assert Records() == records + [page] && Store() == store + [memory[page]];
      assert writable[..] == w[page := true] && memory[..][page := memory[page]] == memory[..];
      return true;
    }

    /** A write to a page of a region; a protected page faults first. */
    method Write(page: nat, contents: Page) returns (ok: bool)
      requires Valid() && page < memory.Length
      modifies this`lastBackingPage, memory, backingStore, backingRecords, writable
      ensures Valid() && saved == old(saved) && lastSnapShot == old(lastSnapShot)
      ensures memory[..] == if ok then old(memory[..])[page := contents] else old(memory[..])
      ensures !ok ==> old(lastBackingPage) == maxBackingPages && !old(writable[page])
    {
      if !writable[page] {
        ok := HandlePf(page);
        if !ok {
          return;
        }
      }
      WriteKeeps(Records(), Store(), memory[..], Firsts(), saved, writable[..], page, contents);
      ghost var before := memory[..];
      memory[page] := contents;
      assert memory[..] == before[page := contents];
      return true;
    }

    /** mprot_take_snapshot: every page is protected; None when there is no snapshot record left, where
        the source ends the program. */
    method TakeSnapshot() returns (ok: bool, id: nat)
      requires Sane()
      modifies this`lastSnapShot, this`saved, snapShots, writable
      ensures ok <==> old(lastSnapShot) < maxSnapShots
      ensures ok ==> Valid() && id == |old(saved)| == old(lastSnapShot) && saved == old(saved) + [memory[..]]
      ensures ok ==> lastSnapShot == old(lastSnapShot) + 1 && lastBackingPage == old(lastBackingPage)
      ensures ok ==> Firsts() == old(Firsts()) + [lastBackingPage]
    {
      ProtectAll(false);
      if lastSnapShot == maxSnapShots {
        return false, 0;
      }
      TakeKeeps(Records(), Store(), memory[..], Firsts(), saved);
      ghost var firsts := Firsts();
      id := lastSnapShot;
      lastSnapShot := lastSnapShot + 1;
      snapShots[id] := lastBackingPage;
      saved := saved + [memory[..]];
      assert Firsts() == firsts + [lastBackingPage];
      assert writable[..] == seq(memory.Length, _ => false);
      return true, id;
    }

    /** mprotect over all regions. */
    method ProtectAll(w: bool)
      modifies writable
      ensures forall p | 0 <= p < writable.Length :: writable[p] == w
    {
      var p := 0;
      while p < writable.Length
        invariant 0 <= p <= writable.Length && forall q | 0 <= q < p :: writable[q] == w
      {
        writable[p] := w;
        p := p + 1;
      }
    }

    /** The loop of the fast path: every record is copied back, to a page that is not protected. */
    method CopyLatest(from: nat)
      requires Valid() && lastSnapShot > 0 && from == Firsts()[lastSnapShot - 1]
      modifies memory
      ensures CopiedBack(Records(), Store(), old(memory[..]), memory[..], from, lastBackingPage)
    {
      ghost var records, store, before := Records(), Store(), memory[..];
      var page := from;
      while page < lastBackingPage
        invariant from <= page <= lastBackingPage && CopiedBack(records, store, before, memory[..], from, page)
      {
        ghost var was, p := memory[..], backingRecords[page];
        assert records[page] == p && store[page] == backingStore[page];
        RecordIsFirst(records, from, page);
        assert writable[..][p];
        memory[backingRecords[page]] := backingStore[page];
        assert memory[..] == was[p := store[page]];
        CopiedBackStep(records, store, before, was, from, page);
        page := page + 1;
      }
    }

    /** The loop of the general path: the oldest record of every page is copied back. */
    method CopyOldest(from: nat)
      requires Sane() && from <= lastBackingPage
      modifies memory
      ensures CopiedBack(Records(), Store(), old(memory[..]), memory[..], from, lastBackingPage)
    {
      ghost var records, store, before := Records(), Store(), memory[..];
      var duplicateMap: set<nat> := {};
      var page := from;
      while page < lastBackingPage
        invariant from <= page <= lastBackingPage && CopiedBack(records, store, before, memory[..], from, page)
        invariant forall p :: p in duplicateMap <==> FirstRecord(records, from, p) < page
      {
        ghost var was, p := memory[..], backingRecords[page];
        assert records[page] == p && store[page] == backingStore[page];
        if backingRecords[page] !in duplicateMap {
          duplicateMap := duplicateMap + {backingRecords[page]};
          memory[backingRecords[page]] := backingStore[page];
          assert memory[..] == was[p := store[page]];
        }
        CopiedBackStep(records, store, before, was, from, page);
        forall q ensures FirstRecord(records, from, q) < page + 1 <==> FirstRecord(records, from, q) < page || q == p {
          FirstBelow(records, from, page, q);
        }
        page := page + 1;
      }
    }

    /** mprot_roll_back to a live snapshot: every page is as it was when the snapshot was taken, the
        snapshot stays, and later ones are gone. Rolling back to the latest snapshot in the fast way
        changes no protection and no record, so it can be repeated. */
    method RollBack(id: nat)
      requires Valid() && id < lastSnapShot
      modifies this`lastSnapShot, this`lastBackingPage, this`saved, memory, writable, snapShots
      ensures Valid() && memory[..] == old(saved)[id] && saved == old(saved)[..id + 1] && lastSnapShot == id + 1
      ensures latestFast && old(lastSnapShot) == id + 1 ==>
        writable[..] == old(writable[..]) && lastBackingPage == old(lastBackingPage)
      ensures forall p | 0 <= p < memory.Length && !old(writable[p]) && latestFast && old(lastSnapShot) == id + 1 ::
        memory[p] == old(memory[p])
    {
      ghost var records, store, firsts, before := Records(), Store(), Firsts(), memory[..];
      var from := snapShots[id];
      assert from == firsts[id];
      if latestFast && lastSnapShot == id + 1 {
        CopyLatest(from);
        BackAtSnapshot(records, store, before, memory[..], firsts, saved, id);
        SameRestorable(records, store, before, firsts, saved, memory[..]);
        assert saved[..id + 1] == saved;
        assert forall p | 0 <= p < memory.Length && !writable[p] :: FirstRecord(records, from, p) == |records|;
        return;
      }
      RollBackFully(id);
    }

    /** The general path: everything is writable while the oldest copies are restored, and then the
        snapshot is taken again. */
    method RollBackFully(id: nat)
      requires Valid() && id < lastSnapShot
      modifies this`lastSnapShot, this`lastBackingPage, this`saved, memory, writable, snapShots
      ensures Valid() && memory[..] == old(saved)[id] && saved == old(saved)[..id + 1] && lastSnapShot == id + 1
    {
      RestorePages(id);
      var ok, again := TakeSnapshot();   // the current snapshot stays good
    }

    /** Everything that was backed up since the snapshot is copied back, and the snapshot is dropped. */
    method RestorePages(id: nat)
      requires Valid() && id < lastSnapShot
      modifies this`lastSnapShot, this`lastBackingPage, this`saved, memory, writable
      ensures Sane() && lastSnapShot == id < |old(saved)| && memory[..] == old(saved)[id] && saved == old(saved)[..id]
    {
      ghost var records, store, firsts, before := Records(), Store(), Firsts(), memory[..];
      var from := snapShots[id];
      assert from == firsts[id];
      ProtectAll(true);
      CopyOldest(from);
      BackAtSnapshot(records, store, before, memory[..], firsts, saved, id);
      RollBackKeeps(records, store, before, firsts, saved, id);
      lastSnapShot := id;
      lastBackingPage := from;
      saved := saved[..id];
      assert Records() == records[..from] && Store() == store[..from] && Firsts() == firsts[..id];
    }
  }

  /** Records after the last snapshot are of different pages, so each is the first of its page. */
  lemma RecordIsFirst(records: seq<nat>, k: nat, page: nat)
    requires k <= page < |records| && forall i, j | k <= i < j < |records| :: records[i] != records[j]
    ensures FirstRecord(records, k, records[page]) == page
  {
  }

  lemma CopiedBackStep(records: seq<nat>, store: seq<Page>, before: seq<Page>, was: seq<Page>, k: nat, page: nat)
    requires k <= page < |records| == |store| && |before| == |was| && records[page] < |was|
    requires CopiedBack(records, store, before, was, k, page)
    ensures CopiedBack(records, store, before,
                       if FirstRecord(records, k, records[page]) == page
                       then was[records[page] := store[page]] else was, k, page + 1)
  {
    var now := if FirstRecord(records, k, records[page]) == page then was[records[page] := store[page]] else was;
    forall p | 0 <= p < |now|
      ensures now[p] == if FirstRecord(records, k, p) < page + 1 then store[FirstRecord(records, k, p)] else before[p]
    {
      FirstBelow(records, k, page, p);
    }
  }

  /** The records up to page cover its own page, and otherwise what was covered before. */
  lemma FirstBelow(records: seq<nat>, k: nat, page: nat, p: nat)
    requires k <= page < |records|
    ensures FirstRecord(records, k, p) < page + 1 <==> FirstRecord(records, k, p) < page || p == records[page]
  {
    FirstRecordBound(records, k, page);
  }

  lemma {:induction false} FirstRecordBound(records: seq<nat>, k: nat, page: nat)
    requires k <= page < |records|
    ensures FirstRecord(records, k, records[page]) <= page
    decreases page - k
  {
    if k < page {
      FirstRecordBound(records, k + 1, page);
    }
  }

  /** After all records of a snapshot are copied back, the memory is as when it was taken. */
  lemma BackAtSnapshot(records: seq<nat>, store: seq<Page>, before: seq<Page>, now: seq<Page>, firsts: seq<nat>,
                       saved: seq<seq<Page>>, id: nat)
    requires |records| == |store| && Restorable(records, store, before, firsts, saved) && id < |firsts|
    requires |now| == |before|
    requires CopiedBack(records, store, before, now, firsts[id], |records|)
    ensures now == saved[id]
  {
    forall p | 0 <= p < |now| ensures now[p] == saved[id][p] {
      assert saved[id][p] == Original(records, store, before, firsts[id], p);
    }
  }

  /** Back at the latest snapshot, the records still restore every snapshot. */
  lemma SameRestorable(records: seq<nat>, store: seq<Page>, before: seq<Page>, firsts: seq<nat>, saved: seq<seq<Page>>,
                       now: seq<Page>)
    requires |records| == |store| && Restorable(records, store, before, firsts, saved) && firsts != []
    requires |now| == |before|
    requires now == saved[|saved| - 1]
    ensures Restorable(records, store, now, firsts, saved)
  {
    var last := |firsts| - 1;
    forall i, p | 0 <= i < |firsts| && 0 <= p < |now|
      ensures saved[i][p] == Original(records, store, now, firsts[i], p)
    {
      FirstRecordPrefix(records, firsts[i], firsts[last], p);
      assert saved[i][p] == Original(records, store, before, firsts[i], p);
      assert saved[last][p] == Original(records, store, before, firsts[last], p);
    }
  }
}
