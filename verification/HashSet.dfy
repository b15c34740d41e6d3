/** The hash set: a hash table of nodes under a doubly linked list in insertion order (hashset.h). */
module HashSets {
  import opened Encodings
  import opened HashTables

  class LinkNode {
    const key: nat
    var prev: LinkNode?
    var next: LinkNode?

    constructor (key: nat, prev: LinkNode?)
      ensures this.key == key && this.prev == prev && next == null
    {
      this.key, this.prev, next := key, prev, null;
    }
  }

  /** The sequence without its i-th element. */
  function Cut<T>(s: seq<T>, i: nat): (t: seq<T>)
    requires i < |s|
    ensures |t| == |s| - 1 && forall j | 0 <= j < |t| :: t[j] == if j < i then s[j] else s[j + 1]
  {
    s[..i] + s[i + 1..]
  }

  /** Position of a key. */
  ghost function Position(keys: seq<nat>, k: nat): (i: nat)
    ensures i <= |keys| && (i < |keys| ==> keys[i] == k) && (i < |keys| <==> k in keys)
  {
    if k in keys then (var i :| 0 <= i < |keys| && keys[i] == k; i) else |keys|
  }

  /** The keys after one is removed. */
  ghost function RemovedFrom(keys: seq<nat>, k: nat): seq<nat> {
    if k in keys then Cut(keys, Position(keys, k)) else keys
  }

  // ---------------------------------------------------------------- the list

  ghost predicate DistinctNodes(nodes: seq<LinkNode>) {
    forall i, j | 0 <= i < j < |nodes| :: nodes[i] != nodes[j]
  }

  function NodeAt(nodes: seq<LinkNode>, i: int): LinkNode? {
    if 0 <= i < |nodes| then nodes[i] else null
  }

  /** The links of the list are the order of the nodes. */
  ghost predicate Chained(nodes: seq<LinkNode>, list: LinkNode?, tail: LinkNode?)
    reads nodes
  {
    && DistinctNodes(nodes) && list == NodeAt(nodes, 0) && tail == NodeAt(nodes, |nodes| - 1)
    && forall i {:trigger nodes[i].next} {:trigger nodes[i].prev} | 0 <= i < |nodes| ::
         nodes[i].next == NodeAt(nodes, i + 1) && nodes[i].prev == NodeAt(nodes, i - 1)
  }

  lemma DistinctCut(nodes: seq<LinkNode>, i: nat)
    requires DistinctNodes(nodes) && i < |nodes|
    ensures DistinctNodes(Cut(nodes, i))
    ensures forall j | 0 <= j < |nodes| && j != i :: nodes[j] != nodes[i]
  {
  }

  /** Without its i-th node, the list links the one before it to the one after it. */
  lemma ChainedCut(was: seq<LinkNode>, i: nat, nodes: seq<LinkNode>, list: LinkNode?, tail: LinkNode?)
    requires i < |was| && nodes == Cut(was, i) && DistinctNodes(was)
    requires list == (if i == 0 then NodeAt(was, 1) else was[0])
    requires tail == (if i == |was| - 1 then NodeAt(was, |was| - 2) else was[|was| - 1])
    requires forall j {:trigger was[j].next} | 0 <= j < |was| && j != i ::
      was[j].next == if j == i - 1 then NodeAt(was, i + 1) else NodeAt(was, j + 1)
    requires forall j {:trigger was[j].prev} | 0 <= j < |was| && j != i ::
      was[j].prev == if j == i + 1 then NodeAt(was, i - 1) else NodeAt(was, j - 1)
    ensures Chained(nodes, list, tail)
  {
    DistinctCut(was, i);
    forall j | 0 <= j < |nodes| ensures nodes[j].next == NodeAt(nodes, j + 1) && nodes[j].prev == NodeAt(nodes, j - 1) {
      var o := if j < i then j else j + 1;
      assert nodes[j] == was[o];
    }
  }

  /** The table finds exactly the nodes of the list, by their keys, and no key is there twice. */
  ghost predicate Indexed(nodes: seq<LinkNode>, keys: seq<nat>, m: map<nat, LinkNode>) {
    && |keys| == |nodes| && Distinct(keys)
    && (forall i | 0 <= i < |nodes| :: nodes[i].key == keys[i] && keys[i] in m && m[keys[i]] == nodes[i])
    && (forall k | k in m :: k in keys)
  }

  lemma IndexedAdd(nodes: seq<LinkNode>, keys: seq<nat>, m: map<nat, LinkNode>, n: LinkNode)
    requires Indexed(nodes, keys, m) && n.key !in m
    ensures Indexed(nodes + [n], keys + [n.key], m[n.key := n])
  {
    forall k | k in m[n.key := n] ensures k in keys + [n.key] {
      assert k == n.key || k in keys;
    }
  }

  lemma IndexedCut(nodes: seq<LinkNode>, keys: seq<nat>, m: map<nat, LinkNode>, i: nat)
    requires Indexed(nodes, keys, m) && i < |nodes|
    ensures Indexed(Cut(nodes, i), Cut(keys, i), m - {keys[i]})
  {
    forall k | k in m - {keys[i]} ensures k in Cut(keys, i) {
      var l :| 0 <= l < |keys| && keys[l] == k;
      assert Cut(keys, i)[if l < i then l else l - 1] == k;
    }
  }

  lemma IndexedSize(nodes: seq<LinkNode>, keys: seq<nat>, m: map<nat, LinkNode>)
    requires Indexed(nodes, keys, m)
    ensures |m| == |keys|
  {
    assert m.Keys == ElementsOf(keys) by {
      forall k | k in ElementsOf(keys) ensures k in m.Keys {
        var i :| 0 <= i < |keys| && keys[i] == k;
      }
    }
    DistinctSize(keys);
  }

  function ElementsOf(s: seq<nat>): set<nat> {
    set x | x in s
  }

  lemma {:induction false} DistinctSize(s: seq<nat>)
    requires Distinct(s)
    ensures |ElementsOf(s)| == |s|
  {
    if s != [] {
      var n := |s| - 1;
      assert forall i | 0 <= i < n :: s[..n][i] == s[i];
      DistinctSize(s[..n]);
      assert ElementsOf(s) == ElementsOf(s[..n]) + {s[n]};
    }
  }

  /** The probe for a key that is present ends. */
  lemma PresentEnds<V>(table: HashTable<V>, key: nat)
    requires table.Valid() && key in table.m
    ensures key == 0 || ProbeEnds(table.table[..], key)
  {
    if key != 0 {
      assert Has(table.table[..], key);
      var j :| 0 <= j < |table.table[..]| && Holds(table.table[..][j], key);
    }
  }

  // ---------------------------------------------------------------- the set

  class HashSet {
    const table: HashTable<LinkNode>
    var list: LinkNode?
    var tail: LinkNode?
    ghost var nodes: seq<LinkNode>
    ghost var contents: seq<nat>    // the keys, in the order in which they were added
    ghost var repr: set<object>     // the set, its table, and its nodes

    ghost predicate Valid()
      reads this, repr
    {
      && this in repr && table in repr && table.table in repr && (forall i | 0 <= i < |nodes| :: nodes[i] in repr)
      && table.Valid() && Chained(nodes, list, tail) && Indexed(nodes, contents, table.m)
    }

    constructor (initialcapacity: nat, factor: real, hash: nat -> nat)
      requires initialcapacity > 0 && 0.0 <= factor < 1.0
      ensures Valid() && contents == [] && fresh(repr)
    {
      table := new HashTable<LinkNode>(initialcapacity, factor, hash);
      list, tail, nodes, contents := null, null, [], [];
      new;
      repr := {this, table, table.table};
    }

    /** What add, contains, get and remove look up. */
    method Find(key: nat) returns (val: Option<LinkNode>)
      requires Valid()
      ensures val.Some? <==> key in contents
      ensures val.Some? ==>
        Position(contents, key) < |nodes| && nodes[Position(contents, key)] == val.value && val.value.key == key
    {
      val := table.Get(key);
    }

    /** A new node at the end of the list. */
    method Append(key: nat) returns (newnode: LinkNode)
      requires Chained(nodes, list, tail)
      modifies this`list, this`tail, this`nodes, nodes
      ensures fresh(newnode) && newnode.key == key && nodes == old(nodes) + [newnode] && Chained(nodes, list, tail)
    {
      newnode := new LinkNode(key, tail);
      if tail != null {
        tail.next := newnode;
      } else {
        list := newnode;
      }
      tail := newnode;
      nodes := nodes + [newnode];
    }

    /** The new node belongs to the set; the table does not notice. */
    method AppendKey(key: nat) returns (newnode: LinkNode)
      requires table.Valid() && Chained(nodes, list, tail) && forall i | 0 <= i < |nodes| :: nodes[i] in repr
      modifies this, nodes
      ensures table.Valid() && table.m == old(table.m) && fresh(newnode) && newnode.key == key
      ensures nodes == old(nodes) + [newnode] && Chained(nodes, list, tail) && contents == old(contents) + [key]
      ensures repr == old(repr) + {newnode} && forall i | 0 <= i < |nodes| :: nodes[i] in repr
    {
      newnode := Append(key);
      contents, repr := contents + [key], repr + {newnode};
    }

    /** Putting a node for an absent key; the list does not notice. */
    method Enter(key: nat, newnode: LinkNode)
      requires table.Valid() && key !in table.m && Chained(nodes, list, tail)
      modifies table, table.table
      ensures Chained(nodes, list, tail) && table.Valid() && table.m == old(table.m)[key := newnode]
      ensures table.table == old(table.table) || fresh(table.table)
    {
      table.Put(key, newnode);
    }

    /** The part of add for an absent key. */
    method Insert(key: nat)
      requires Valid() && key !in contents
      modifies repr
      ensures Valid() && fresh(repr - old(repr)) && contents == old(contents) + [key]
    {
      ghost var was, keys, m := nodes, contents, table.m;
      assert Indexed(was, keys, m);
      var newnode := AppendKey(key);
      IndexedAdd(was, keys, m, newnode);
      Enter(key, newnode);
      repr := repr + {table.table};
    }

    /** add: false if the key is already present. */
    method Add(key: nat) returns (added: bool)
      requires Valid()
      modifies repr
      ensures Valid() && fresh(repr - old(repr))
      ensures added <==> key !in old(contents)
      ensures contents == if added then old(contents) + [key] else old(contents)
    {
      var val := Find(key);
      if val.Some? {
        return false;
      }
      Insert(key);
      return true;
    }

    method Contains(key: nat) returns (r: bool)
      requires Valid()
      ensures r <==> key in contents
    {
      var val := Find(key);
      return val.Some?;
    }

    /** get: the key itself, or None. */
    method Get(key: nat) returns (r: Option<nat>)
      requires Valid()
      ensures r == if key in contents then Some(key) else None
    {
      var val := Find(key);
      return if val.Some? then Some(val.value.key) else None;
    }

    method GetFirstKey() returns (key: nat)
      requires Valid() && contents != []
      ensures key == contents[0]
    {
      key := list.key;
    }

    /** The node of a key that the table does not hold any more leaves the list. */
    method Unlink(oldlinknode: LinkNode, ghost i: nat)
      requires this in repr && table in repr && table.table in repr && (forall j | 0 <= j < |nodes| :: nodes[j] in repr)
      requires table.Valid() && Chained(nodes, list, tail) && |contents| == |nodes|
      requires i < |nodes| && nodes[i] == oldlinknode && Indexed(Cut(nodes, i), Cut(contents, i), table.m)
      modifies this`list, this`tail, this`nodes, this`contents, nodes
      ensures Valid() && nodes == Cut(old(nodes), i) && contents == Cut(old(contents), i)
    {
      UnlinkNode(oldlinknode, i);
      contents := Cut(contents, i);
    }

    method UnlinkNode(oldlinknode: LinkNode, ghost i: nat)
      requires Chained(nodes, list, tail) && i < |nodes| && nodes[i] == oldlinknode
      modifies this`list, this`tail, this`nodes, nodes
      ensures nodes == Cut(old(nodes), i) && Chained(nodes, list, tail)
    {
      ghost var was := nodes;
      DistinctCut(was, i);
      if oldlinknode.prev == null {
        list := oldlinknode.next;
      } else {
        oldlinknode.prev.next := oldlinknode.next;
      }
      if oldlinknode.next != null {
        oldlinknode.next.prev := oldlinknode.prev;
      } else {
        tail := oldlinknode.prev;
      }
      ChainedCut(was, i, Cut(was, i), list, tail);
      nodes := Cut(was, i);
    }

    /** Removing the entry of a key that is present; the list does not notice. */
    method Leave(key: nat)
      requires table.Valid() && key in table.m && Chained(nodes, list, tail)
      modifies table, table.table
      ensures Chained(nodes, list, tail) && table.Valid() && table.m == old(table.m) - {key}
      ensures table.table == old(table.table)
    {
      PresentEnds(table, key);
      var _ := table.Remove(key);
    }

    /** The part of remove for a key that is present. */
    method TakeOut(key: nat, oldlinknode: LinkNode, ghost i: nat)
      requires Valid() && i < |nodes| && nodes[i] == oldlinknode && oldlinknode.key == key
      modifies repr
      ensures Valid() && repr == old(repr)
      ensures |old(contents)| == |old(nodes)| && nodes == Cut(old(nodes), i) && contents == Cut(old(contents), i)
    {
      IndexedCut(nodes, contents, table.m, i);
      Leave(key);
      Unlink(oldlinknode, i);
    }

    /** remove: the other keys keep their order. */
    method Remove(key: nat) returns (removed: bool)
      requires Valid()
      modifies repr
      ensures Valid() && repr == old(repr)
      ensures removed <==> key in old(contents)
      ensures contents == RemovedFrom(old(contents), key)
      ensures removed ==>
        Position(old(contents), key) < |old(nodes)| && nodes == Cut(old(nodes), Position(old(contents), key))
    {
      var oldlinknode := Find(key);
      if oldlinknode.None? {
        return false;
      }
      TakeOut(key, oldlinknode.value, Position(contents, key));
      return true;
    }

    method Reset()
      requires Valid()
      modifies repr
      ensures Valid() && repr == old(repr) && contents == []
    {
      list, tail, nodes, contents := null, null, [], [];
      table.Reset();
    }

    method GetSize() returns (n: nat)
      requires Valid()
      ensures n == |contents|
    {
      IndexedSize(nodes, contents, table.m);
      n := table.size;
    }

    method IsEmpty() returns (r: bool)
      requires Valid()
      ensures r <==> contents == []
    {
      var n := GetSize();
      return n == 0;
    }
  }

  /** What Valid says about the keys: no key is in the set twice. */
  lemma KeysAreDistinct(s: HashSet)
    requires s.Valid()
    ensures Distinct(s.contents) && |s.contents| == |s.nodes|
    ensures forall i | 0 <= i < |s.nodes| :: s.nodes[i].key == s.contents[i]
  {
  }

  lemma UsableTable(s: HashSet)
    requires s.Valid()
    ensures s.table.table.Length > 0 && 0.0 <= s.table.loadfactor < 1.0
  {
  }

  // ---------------------------------------------------------------- iteration

  /** HSIterator: curr is the node at pos, last the one before. */
  class HSIterator {
    const over: HashSet
    var curr: LinkNode?
    var last: LinkNode?
    ghost var pos: nat

    constructor (s: HashSet)
      requires s.Valid()
      ensures over == s && pos == 0 && At()
    {
      over := s;
      curr, last, pos := s.list, null, 0;
      new;
    }

    ghost predicate At()
      reads this, over
    {
      pos <= |over.nodes| == |over.contents| && curr == NodeAt(over.nodes, pos)
    }

    /** The node returned last is still in the set, before the current one. */
    ghost predicate HasLast()
      reads this, over
    {
      0 < pos <= |over.nodes| && last == over.nodes[pos - 1]
    }

    predicate HasNext()
      requires At()
      reads this, over
      ensures HasNext() <==> pos < |over.contents|
    {
      curr != null
    }

    method Next() returns (k: nat)
      requires over.Valid() && At() && pos < |over.contents|
      modifies this
      ensures At() && HasLast() && pos == old(pos) + 1 && k == over.contents[pos - 1]
    {
      k := curr.key;
      last := curr;
      curr := curr.next;
      pos := pos + 1;
    }

    method CurrKey() returns (k: nat)
      requires over.Valid() && At() && HasLast()
      ensures k == over.contents[pos - 1]
    {
      KeysAreDistinct(over);
      k := last.key;
    }

    /** remove: the key returned last leaves the set, and the iteration goes on with the one after it. */
    method Remove()
      requires over.Valid() && At() && HasLast() && this !in over.repr
      modifies this, over.repr
      ensures over.Valid() && At() && pos == old(pos) - 1
      ensures over.contents == Cut(old(over.contents), pos)
    {
      KeysAreDistinct(over);
      var k := last.key;
      assert Position(over.contents, k) == pos - 1;
      var _ := over.Remove(k);
      pos := pos - 1;
    }
  }

  /** A set, a copy that shares nothing with it, and an iterator over the set. */
  ghost predicate Copying(s: HashSet, copy: HashSet, it: HSIterator)
    reads s, s.repr, copy, copy.repr, it
  {
    && s.Valid() && copy.Valid() && s.repr !! copy.repr && it !in s.repr && it !in copy.repr
    && it.over == s && it.At()
  }

  /** The copy holds the first n keys, in their order. */
  ghost predicate Prefix(copied: seq<nat>, keys: seq<nat>, n: nat) {
    n == |copied| <= |keys| && forall i | 0 <= i < n :: copied[i] == keys[i]
  }

  /** Iterating changes neither set. */
  method NextBeside(s: HashSet, ghost copy: HashSet, it: HSIterator) returns (k: nat)
    requires Copying(s, copy, it) && it.pos < |s.contents|
    modifies it
    ensures Copying(s, copy, it) && it.pos == old(it.pos) + 1 <= |s.contents| && k == s.contents[it.pos - 1]
  {
    k := it.Next();
  }

  /** Adding to the copy changes neither the set nor the iterator. */
  method AddBeside(ghost s: HashSet, copy: HashSet, ghost it: HSIterator, k: nat)
    requires Copying(s, copy, it) && k !in copy.contents
    modifies copy.repr
    ensures Copying(s, copy, it) && s.contents == old(s.contents) && it.pos == old(it.pos)
    ensures fresh(copy.repr - old(copy.repr)) && copy.contents == old(copy.contents) + [k]
  {
    var _ := copy.Add(k);
  }

  /** The key that comes next is not in the copy. */
  lemma NextIsNew(s: HashSet, copied: seq<nat>, n: nat)
    requires s.Valid() && n < |s.contents| && Prefix(copied, s.contents, n)
    ensures s.contents[n] !in copied && Prefix(copied + [s.contents[n]], s.contents, n + 1)
  {
    KeysAreDistinct(s);
    forall i | 0 <= i < |copied| ensures copied[i] != s.contents[n] {
      assert s.contents[i] != s.contents[n];
    }
  }

  /** One round of copy: what the iterator has passed is copied. */
  method CopyStep(s: HashSet, copy: HashSet, it: HSIterator)
    requires Copying(s, copy, it) && it.pos < |s.contents| && Prefix(copy.contents, s.contents, it.pos)
    modifies it, copy.repr
    ensures Copying(s, copy, it) && fresh(copy.repr - old(copy.repr)) && s.contents == old(s.contents)
    ensures it.pos == old(it.pos) + 1 && Prefix(copy.contents, s.contents, it.pos)
  {
    NextIsNew(s, copy.contents, it.pos);
    var k := NextBeside(s, copy, it);
    AddBeside(s, copy, it, k);
  }

  /** The loop of copy. */
  method CopyAll(s: HashSet, copy: HashSet)
    requires s.Valid() && copy.Valid() && s.repr !! copy.repr && copy.contents == []
    modifies copy.repr
    ensures s.Valid() && copy.Valid() && fresh(copy.repr - old(copy.repr)) && copy.contents == s.contents
  {
    var it := new HSIterator(s);
    while it.HasNext()
      invariant Copying(s, copy, it) && fresh(it) && fresh(copy.repr - old(copy.repr))
      invariant Prefix(copy.contents, s.contents, it.pos)
      decreases |s.contents| - it.pos
    {
      CopyStep(s, copy, it);
    }
  }

  /** copy: the same keys in the same order. */
  method Copy(s: HashSet) returns (copy: HashSet)
    requires s.Valid()
    ensures s.Valid() && copy.Valid() && fresh(copy.repr) && copy.contents == s.contents
  {
    UsableTable(s);
    copy := new HashSet(s.table.table.Length, s.table.loadfactor, s.table.hash);
    CopyAll(s, copy);
  }
}
