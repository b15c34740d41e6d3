/** A tree bin as linked chunks: insert_large_chunk and unlink_large_chunk on child, parent and ring pointers, against
    the tries of TreeBins (malloc.c). */
module TreeLinks {
  import opened Encodings
  import opened TreeBins

  const NULL: nat := 0

  /** The words of a tree-binned chunk. */
  datatype Links = Links(size: nat, fd: nat, bk: nat, left: nat, right: nat, parent: nat)

  type Memory = map<nat, Links>

  function Child(c: Links, right: bool): nat {
    if right then c.right else c.left
  }

  function WithChild(c: Links, right: bool, p: nat): Links {
    if right then c.(right := p) else c.(left := p)
  }

  // ---------------------------------------------------------------- the trie in memory

  /** The address of the chunk that carries a trie's links. */
  function Root(t: Tree): nat {
    if t == Nil then NULL else t.ring[0]
  }

  function Side(t: Tree, right: bool): Tree
    requires t != Nil
  {
    if right then t.right else t.left
  }

  function WithSide(t: Tree, right: bool, u: Tree): (now: Tree)
    requires t != Nil
    ensures now != Nil && now.ring == t.ring && now.size == t.size
  {
    if right then t.(right := u) else t.(left := u)
  }

  ghost function Addresses(t: Tree): set<nat> {
    match t
    case Nil => {}
    case Node(_, ring, left, right) => (set a | a in ring) + Addresses(left) + Addresses(right)
  }

  /** No chunk is in the trie twice. */
  ghost predicate Apart(t: Tree) {
    t != Nil ==>
      && Distinct(t.ring) && Addresses(t.left) !! Addresses(t.right) && Apart(t.left) && Apart(t.right)
      && forall a | a in t.ring :: a != NULL && a !in Addresses(t.left) && a !in Addresses(t.right)
  }

  predicate LinkedAt(m: Memory, ring: seq<nat>, s: nat, i: nat)
    requires i < |ring|
  {
    && ring[i] in m && m[ring[i]].size == s
    && m[ring[i]].fd == ring[if i == |ring| - 1 then 0 else i + 1]
    && m[ring[i]].bk == ring[if i == 0 then |ring| - 1 else i - 1]
  }

  /** The ring in fd order. */
  ghost predicate Linked(m: Memory, ring: seq<nat>, s: nat) {
    forall i {:trigger LinkedAt(m, ring, s, i)} | 0 <= i < |ring| :: LinkedAt(m, ring, s, i)
  }

  /** A chunk behind the first of its ring. */
  predicate Bare(m: Memory, a: nat) {
    a in m && m[a].left == NULL && m[a].right == NULL && m[a].parent == NULL
  }

  ghost predicate Followers(m: Memory, ring: seq<nat>) {
    forall i | 1 <= i < |ring| :: Bare(m, ring[i])
  }

  ghost predicate NodeAt(m: Memory, parent: nat, t: Tree)
    requires t != Nil
  {
    var h := t.ring[0];
    && Linked(m, t.ring, t.size) && Followers(m, t.ring)
    && h in m && m[h].parent == parent && m[h].left == Root(t.left) && m[h].right == Root(t.right)
  }

  /** The memory holds the trie below this parent. */
  ghost predicate Shows(m: Memory, parent: nat, t: Tree)
    decreases t
  {
    t != Nil ==> NodeAt(m, parent, t) && Shows(m, t.ring[0], t.left) && Shows(m, t.ring[0], t.right)
  }

  predicate SameAt(m: Memory, m': Memory, a: nat) {
    a in m ==> a in m' && m'[a] == m[a]
  }

  /** Size and ring links are as they were. */
  predicate SameLinks(m: Memory, m': Memory, a: nat) {
    a in m ==> a in m' && m'[a].size == m[a].size && m'[a].fd == m[a].fd && m'[a].bk == m[a].bk
  }

  lemma LinkKept(m: Memory, m': Memory, ring: seq<nat>, s: nat, i: nat)
    requires i < |ring| && LinkedAt(m, ring, s, i) && SameLinks(m, m', ring[i])
    ensures LinkedAt(m', ring, s, i)
  {
  }

  /** A ring does not notice what happens to the tree words of its first chunk. */
  lemma RingKept(m: Memory, m': Memory, ring: seq<nat>, s: nat)
    requires ring != [] && Distinct(ring) && Linked(m, ring, s) && Followers(m, ring)
    requires SameLinks(m, m', ring[0]) && forall i | 1 <= i < |ring| :: SameAt(m, m', ring[i])
    ensures Linked(m', ring, s) && Followers(m', ring)
  {
    forall i | 0 <= i < |ring| ensures LinkedAt(m', ring, s, i) {
      assert LinkedAt(m, ring, s, i);
      assert i > 0 ==> SameAt(m, m', ring[i]);
      LinkKept(m, m', ring, s, i);
    }
    forall i | 1 <= i < |ring| ensures Bare(m', ring[i]) {
      assert SameAt(m, m', ring[i]) && Bare(m, ring[i]);
    }
  }

  lemma NodeFrame(m: Memory, m': Memory, parent: nat, t: Tree)
    requires t != Nil && Distinct(t.ring) && NodeAt(m, parent, t) && forall a | a in t.ring :: SameAt(m, m', a)
    ensures NodeAt(m', parent, t)
  {
    assert forall i | 0 <= i < |t.ring| :: t.ring[i] in t.ring;
    RingKept(m, m', t.ring, t.size);
  }

  /** What a trie's chunks do not notice. */
  lemma {:induction false} Frame(m: Memory, m': Memory, parent: nat, t: Tree)
    requires Apart(t) && Shows(m, parent, t) && forall a | a in Addresses(t) :: SameAt(m, m', a)
    ensures Shows(m', parent, t)
    decreases t
  {
    if t != Nil {
      NodeFrame(m, m', parent, t);
      Frame(m, m', t.ring[0], t.left);
      Frame(m, m', t.ring[0], t.right);
    }
  }

  /** A trie under a new parent. */
  lemma Reparent(m: Memory, m': Memory, parent: nat, t: Tree)
    requires t != Nil && Apart(t) && Shows(m, parent, t) && Root(t) in m'
    requires m'[Root(t)] == m[Root(t)].(parent := m'[Root(t)].parent)
    requires forall a | a in Addresses(t) && a != Root(t) :: SameAt(m, m', a)
    ensures Shows(m', m'[Root(t)].parent, t)
  {
    var h := t.ring[0];
    forall i | 1 <= i < |t.ring| ensures SameAt(m, m', t.ring[i]) {
      assert t.ring[i] in t.ring && t.ring[i] != h;
    }
    RingKept(m, m', t.ring, t.size);
    FrameBelow(m, m', t);
  }

  /** The subtrees of a node do not notice changes elsewhere. */
  lemma FrameBelow(m: Memory, m': Memory, t: Tree)
    requires t != Nil && Apart(t) && Shows(m, t.ring[0], t.left) && Shows(m, t.ring[0], t.right)
    requires forall a | a in Addresses(t) && a !in t.ring :: SameAt(m, m', a)
    ensures Shows(m', t.ring[0], t.left) && Shows(m', t.ring[0], t.right)
  {
    Frame(m, m', t.ring[0], t.left);
    Frame(m, m', t.ring[0], t.right);
  }

  // ---------------------------------------------------------------- paths

  predicate HasPath(t: Tree, path: seq<bool>) {
    path != [] ==> t != Nil && HasPath(Side(t, path[0]), path[1..])
  }

  /** The subtree at the end of a path. */
  function Sub(t: Tree, path: seq<bool>): Tree
    requires HasPath(t, path)
  {
    if path == [] then t else Sub(Side(t, path[0]), path[1..])
  }

  /** The trie with another subtree there. */
  function Put(t: Tree, path: seq<bool>, u: Tree): (now: Tree)
    requires HasPath(t, path)
    ensures path != [] ==> Root(now) == Root(t)
  {
    if path == [] then u else WithSide(t, path[0], Put(Side(t, path[0]), path[1..], u))
  }

  /** The parent of the subtree there. */
  function Above(parent: nat, t: Tree, path: seq<bool>): nat
    requires HasPath(t, path)
    decreases path
  {
    if path == [] then parent else Above(t.ring[0], Side(t, path[0]), path[1..])
  }

  /** One step more. */
  lemma {:induction false} Extend(parent: nat, t: Tree, path: seq<bool>, b: bool, u: Tree)
    requires HasPath(t, path) && Sub(t, path) != Nil
    ensures HasPath(t, path + [b]) && Sub(t, path + [b]) == Side(Sub(t, path), b)
    ensures Above(parent, t, path + [b]) == Root(Sub(t, path))
    ensures Put(t, path + [b], u) == Put(t, path, WithSide(Sub(t, path), b, u))
    decreases path
  {
    if path == [] {
      assert [b][1..] == [];
    } else {
      assert (path + [b])[1..] == path[1..] + [b];
      Extend(t.ring[0], Side(t, path[0]), path[1..], b, u);
    }
  }

  lemma {:induction false} SubApart(t: Tree, path: seq<bool>)
    requires HasPath(t, path) && Apart(t)
    ensures Apart(Sub(t, path)) && Addresses(Sub(t, path)) <= Addresses(t)
  {
    if path != [] {
      SubApart(Side(t, path[0]), path[1..]);
    }
  }

  lemma {:induction false} SubShows(m: Memory, parent: nat, t: Tree, path: seq<bool>)
    requires HasPath(t, path) && Shows(m, parent, t)
    ensures Shows(m, Above(parent, t, path), Sub(t, path))
    decreases path
  {
    if path != [] {
      SubShows(m, t.ring[0], Side(t, path[0]), path[1..]);
    }
  }

  lemma RootsApart(t: Tree, b: bool)
    requires t != Nil && Apart(t) && Side(t, b) != Nil
    ensures Root(Side(t, b)) in Addresses(Side(t, b)) && Root(Side(t, b)) != Root(Side(t, !b))
  {
    var u, v := Side(t, b), Side(t, !b);
    assert u.ring[0] in u.ring;
    assert v != Nil ==> v.ring[0] in v.ring;
  }

  /** The parent of a subtree is a chunk above it that points to it. */
  lemma {:induction false} AboveInside(m: Memory, parent: nat, t: Tree, path: seq<bool>)
    requires HasPath(t, path) && path != [] && Apart(t) && Shows(m, parent, t)
    ensures Above(parent, t, path) in Addresses(t) && Above(parent, t, path) !in Addresses(Sub(t, path))
    ensures var q := Above(parent, t, path); q in m && Child(m[q], path[|path| - 1]) == Root(Sub(t, path))
    ensures var q := Above(parent, t, path);
      Sub(t, path) != Nil ==> Child(m[q], !path[|path| - 1]) != Root(Sub(t, path))
    decreases path
  {
    var u, rest := Side(t, path[0]), path[1..];
    if rest == [] {
      assert t.ring[0] in t.ring && Sub(t, path) == u;
      if u != Nil {
        RootsApart(t, path[0]);
      }
    } else {
      AboveInside(m, t.ring[0], u, rest);
      SubApart(u, rest);
    }
  }

  lemma {:induction false} PutApart(t: Tree, path: seq<bool>, u: Tree)
    requires HasPath(t, path) && Apart(t) && Apart(u)
    requires Addresses(u) !! (Addresses(t) - Addresses(Sub(t, path)))
    ensures Apart(Put(t, path, u))
    ensures Addresses(Put(t, path, u)) == Addresses(t) - Addresses(Sub(t, path)) + Addresses(u)
  {
    if path != [] {
      var v := Side(t, path[0]);
      SubApart(v, path[1..]);
      PutApart(v, path[1..], u);
    }
  }

  /** What a change of a subtree leaves of the chunks outside: only its parent points to the new root. */
  predicate OutsideAt(m: Memory, m': Memory, q: nat, path: seq<bool>, root: nat, a: nat) {
    a in m ==> a in m' && m'[a] == if path != [] && a == q then WithChild(m[a], path[|path| - 1], root) else m[a]
  }

  /** The memory holds the trie with the new subtree. */
  lemma {:induction false} Replace(m: Memory, m': Memory, parent: nat, t: Tree, path: seq<bool>, u: Tree)
    requires HasPath(t, path) && Apart(t) && Shows(m, parent, t) && Shows(m', Above(parent, t, path), u)
    requires forall a | a in Addresses(t) && a !in Addresses(Sub(t, path)) ::
      OutsideAt(m, m', Above(parent, t, path), path, Root(u), a)
    ensures Shows(m', parent, Put(t, path, u))
    decreases path
  {
    if path != [] {
      var h, b, rest := t.ring[0], path[0], path[1..];
      var v, other, q := Side(t, b), Side(t, !b), Above(parent, t, path);
      SubApart(v, rest);
      assert q == Above(h, v, rest) && path == [b] + rest;
      if rest != [] {
        AboveInside(m, h, v, rest);
        assert path[|path| - 1] == rest[|rest| - 1];
      }
      forall a | a in Addresses(v) && a !in Addresses(Sub(v, rest)) ensures OutsideAt(m, m', q, rest, Root(u), a) {
        assert OutsideAt(m, m', q, path, Root(u), a);
      }
      Replace(m, m', h, v, rest, u);
      forall a | a in Addresses(other) ensures SameAt(m, m', a) {
        assert OutsideAt(m, m', q, path, Root(u), a);
      }
      Frame(m, m', h, other);
      ReplaceNode(m, m', parent, t, path, u);
    }
  }

  lemma ReplaceNode(m: Memory, m': Memory, parent: nat, t: Tree, path: seq<bool>, u: Tree)
    requires HasPath(t, path) && path != [] && Apart(t) && Shows(m, parent, t)
    requires forall a | a in Addresses(t) && a !in Addresses(Sub(t, path)) ::
      OutsideAt(m, m', Above(parent, t, path), path, Root(u), a)
    ensures NodeAt(m', parent, Put(t, path, u))
  {
    var h, v, rest := t.ring[0], Side(t, path[0]), path[1..];
    SubApart(v, rest);
    if rest != [] {
      AboveInside(m, h, v, rest);
    }
    forall a | a in t.ring ensures OutsideAt(m, m', Above(parent, t, path), path, Root(u), a) {
      assert a in Addresses(t);
    }
    assert Above(parent, t, path) == Above(h, v, rest) && path == [path[0]] + rest;
    if rest == [] {
      assert OutsideAt(m, m', h, path, Root(u), h) by {
        assert h in t.ring;
      }
      NodeRedirected(m, m', parent, t, path[0], u);
    } else {
      NodeFrame(m, m', parent, t);
    }
  }

  lemma NodeRedirected(m: Memory, m': Memory, parent: nat, t: Tree, b: bool, u: Tree)
    requires t != Nil && Distinct(t.ring) && NodeAt(m, parent, t) && t.ring[0] in m'
    requires m'[t.ring[0]] == WithChild(m[t.ring[0]], b, Root(u))
    requires forall a | a in t.ring && a != t.ring[0] :: SameAt(m, m', a)
    ensures NodeAt(m', parent, WithSide(t, b, u))
  {
    forall i | 1 <= i < |t.ring| ensures SameAt(m, m', t.ring[i]) {
      assert t.ring[i] in t.ring && t.ring[i] != t.ring[0];
    }
    RingKept(m, m', t.ring, t.size);
  }

  // ---------------------------------------------------------------- inserting

  /** A chunk joins the ring behind its first chunk. */
  function Joined(m: Memory, t: nat, x: nat): (m': Memory)
    requires t in m && m[t].fd in m && x in m
    ensures forall a | a in m :: a in m'
  {
    var f := m[t].fd;
    var m1 := m[t := m[t].(fd := x)];
    var m2 := m1[f := m1[f].(bk := x)];
    m2[x := m2[x].(fd := f, bk := t, parent := NULL)]
  }

  /** The ring with the chunk behind its first one. */
  function Joining(ring: seq<nat>, x: nat): (now: seq<nat>)
    requires ring != []
    ensures |now| == |ring| + 1 && now[0] == ring[0] && now[1] == x
    ensures forall i | 2 <= i < |now| :: now[i] == ring[i - 1]
  {
    ring[..1] + [x] + ring[1..]
  }

  lemma RingJoined(m: Memory, ring: seq<nat>, s: nat, x: nat)
    requires ring != [] && Distinct(ring) && Linked(m, ring, s) && Followers(m, ring) && x !in ring
    requires x in m && m[x].size == s && m[x].left == NULL && m[x].right == NULL
    ensures ring[0] in m && m[ring[0]].fd in m
    ensures Linked(Joined(m, ring[0], x), Joining(ring, x), s) && Followers(Joined(m, ring[0], x), Joining(ring, x))
  {
    Neighbours(m, ring, s, 0);
    var m', now := Joined(m, ring[0], x), Joining(ring, x);
    forall i | 0 <= i < |now| ensures LinkedAt(m', now, s, i) {
      JoinedAt(m, ring, s, x, i);
    }
    forall i | 1 <= i < |now| ensures Bare(m', now[i]) {
      JoinedAt(m, ring, s, x, i);
    }
  }

  lemma JoinedAt(m: Memory, ring: seq<nat>, s: nat, x: nat, i: nat)
    requires ring != [] && Distinct(ring) && Linked(m, ring, s) && Followers(m, ring) && x !in ring
    requires x in m && m[x].size == s && m[x].left == NULL && m[x].right == NULL
    requires ring[0] in m && m[ring[0]].fd in m && i <= |ring|
    ensures var m', now := Joined(m, ring[0], x), Joining(ring, x);
      LinkedAt(m', now, s, i) && (i > 0 ==> Bare(m', now[i]))
  {
    if i < 2 {
      JoinedFirst(m, ring, s, x);
    } else {
      JoinedBehind(m, ring, s, x, i);
    }
  }

  /** The first chunk and the new one behind it. */
  lemma JoinedFirst(m: Memory, ring: seq<nat>, s: nat, x: nat)
    requires ring != [] && Distinct(ring) && Linked(m, ring, s) && x !in ring
    requires x in m && m[x].size == s && m[x].left == NULL && m[x].right == NULL
    requires ring[0] in m && m[ring[0]].fd in m
    ensures var m', now := Joined(m, ring[0], x), Joining(ring, x);
      LinkedAt(m', now, s, 0) && LinkedAt(m', now, s, 1) && Bare(m', x)
  {
    assert LinkedAt(m, ring, s, 0) && LinkedAt(m, ring, s, if |ring| == 1 then 0 else 1);
  }

  /** A chunk behind them: its neighbours are those that it had, but for the second one of the old ring. */
  lemma JoinedBehind(m: Memory, ring: seq<nat>, s: nat, x: nat, i: nat)
    requires Distinct(ring) && Linked(m, ring, s) && Followers(m, ring) && x !in ring && x in m
    requires 2 <= i <= |ring| && ring[0] in m && m[ring[0]].fd in m
    ensures var m', now := Joined(m, ring[0], x), Joining(ring, x);
      LinkedAt(m', now, s, i) && Bare(m', now[i])
  {
    assert LinkedAt(m, ring, s, 0) && LinkedAt(m, ring, s, i - 1) && Bare(m, ring[i - 1]);
  }

  /** The trie whose size the chunk has, with it in the ring. */
  lemma JoinedShows(m: Memory, parent: nat, t: Tree, bits: nat, x: nat)
    requires t != Nil && Apart(t) && Shows(m, parent, t) && x !in Addresses(t) && x != NULL
    requires x in m && m[x].size == t.size && m[x].left == NULL && m[x].right == NULL
    ensures Root(t) in m && m[Root(t)].fd in m
    ensures var now := Insert(t, bits, x, t.size);
      Shows(Joined(m, Root(t), x), parent, now) && Apart(now) && Addresses(now) == Addresses(t) + {x}
  {
    var h, m' := t.ring[0], m;
    assert LinkedAt(m, t.ring, t.size, 0) && LinkedAt(m, t.ring, t.size, if |t.ring| == 1 then 0 else 1);
    RingJoined(m, t.ring, t.size, x);
    m' := Joined(m, h, x);
    var now := Insert(t, bits, x, t.size);
    assert m[h].fd in t.ring;
    forall a | a in Addresses(t.left) || a in Addresses(t.right) ensures SameAt(m, m', a) {
    }
    Frame(m, m', h, t.left);
    Frame(m, m', h, t.right);
    RingMembers(t.ring, x);
  }

  lemma RingMembers(ring: seq<nat>, x: nat)
    requires ring != [] && Distinct(ring) && x !in ring
    ensures Distinct(ring[..1] + [x] + ring[1..])
    ensures forall a :: a in ring[..1] + [x] + ring[1..] <==> a in ring || a == x
  {
    var now := ring[..1] + [x] + ring[1..];
    forall i, j | 0 <= i < j < |now| ensures now[i] != now[j] {
      assert j > 1 ==> now[j] == ring[j - 1];
      assert i > 1 ==> now[i] == ring[i - 1];
    }
    assert now[1] == x;
    forall a | a in ring ensures a in now {
      var i :| 0 <= i < |ring| && ring[i] == a;
      assert now[if i == 0 then 0 else i + 1] == a;
    }
  }

  /** A chunk alone below a parent. */
  lemma LeafShows(m: Memory, parent: nat, x: nat, s: nat)
    requires x in m && m[x] == Links(s, x, x, NULL, NULL, parent)
    ensures Shows(m, parent, Node(s, [x], Nil, Nil))
  {
    assert LinkedAt(m, [x], s, 0);
  }

  /** The chunk joins the ring of a node inside the trie. */
  lemma JoinedInTree(m: Memory, bin: nat, t: Tree, path: seq<bool>, k: nat, x: nat)
    requires Apart(t) && Shows(m, bin, t) && bin !in Addresses(t) && HasPath(t, path) && Sub(t, path) != Nil
    requires x != NULL && x !in Addresses(t) && x in m && m[x].size == Sub(t, path).size
    requires m[x].left == NULL && m[x].right == NULL && x != bin
    ensures var h := Root(Sub(t, path)); h in m && m[h].fd in m
    ensures var sub := Sub(t, path);
      var m', now := Joined(m, Root(sub), x), Put(t, path, Insert(sub, k, x, sub.size));
      && Shows(m', bin, now) && Apart(now) && Addresses(now) == Addresses(t) + {x}
      && forall a | a in m && a !in Addresses(now) :: a in m' && m'[a] == m[a]
  {
    var sub := Sub(t, path);
    SubApart(t, path);
    SubShows(m, bin, t, path);
    JoinedShows(m, Above(bin, t, path), sub, k, x);
    Neighbours(m, sub.ring, sub.size, 0);
    if path != [] {
      AboveInside(m, bin, t, path);
    }
    var u, m' := Insert(sub, k, x, sub.size), Joined(m, Root(sub), x);
    assert m[Root(sub)].fd in sub.ring && Root(sub) in sub.ring && Root(u) == Root(sub);
    Replace(m, m', bin, t, path, u);
    PutApart(t, path, u);
  }

  // ---------------------------------------------------------------- unlinking from a ring

  /** A chunk leaves its ring. */
  function RingCut(m: Memory, x: nat): (m': Memory)
    requires x in m && m[x].fd in m && m[x].bk in m
    ensures forall a | a in m :: a in m' && m'[a].(fd := m[a].fd, bk := m[a].bk) == m[a]
    ensures forall a | a in m && a != m[x].fd && a != m[x].bk :: m'[a] == m[a]
  {
    var f, r := m[x].fd, m[x].bk;
    var m1 := m[f := m[f].(bk := r)];
    m1[r := m1[r].(fd := f)]
  }

  lemma {:induction false} WithoutAt(ring: seq<nat>, k: nat)
    requires Distinct(ring) && k < |ring|
    ensures WithoutElement(ring, ring[k]) == ring[..k] + ring[k + 1..]
  {
    var n := |ring| - 1;
    if k == n {
      NotThere(ring[..n], ring[k]);
    } else {
      assert ring[..n][k] == ring[k] && ring[n] != ring[k];
      WithoutAt(ring[..n], k);
      assert ring[..n][..k] == ring[..k] && ring[..n][k + 1..] + [ring[n]] == ring[k + 1..];
    }
  }

  /** The neighbours of the k-th chunk. */
  lemma Neighbours(m: Memory, ring: seq<nat>, s: nat, k: nat)
    requires Linked(m, ring, s) && k < |ring|
    ensures ring[k] in m && m[ring[k]].fd in m && m[ring[k]].bk in m
    ensures m[ring[k]].fd == ring[if k == |ring| - 1 then 0 else k + 1]
    ensures m[ring[k]].bk == ring[if k == 0 then |ring| - 1 else k - 1]
  {
    var n := |ring|;
    assert LinkedAt(m, ring, s, k);
    assert LinkedAt(m, ring, s, if k == n - 1 then 0 else k + 1);
    assert LinkedAt(m, ring, s, if k == 0 then n - 1 else k - 1);
  }

  /** A chunk behind the first one leaves. */
  lemma FollowerCut(m: Memory, ring: seq<nat>, s: nat, k: nat)
    requires Distinct(ring) && Linked(m, ring, s) && 0 < k < |ring|
    ensures ring[k] in m && m[ring[k]].fd in m && m[ring[k]].bk in m
    ensures Linked(RingCut(m, ring[k]), ring[..k] + ring[k + 1..], s)
  {
    Neighbours(m, ring, s, k);
    var m', now, n := RingCut(m, ring[k]), ring[..k] + ring[k + 1..], |ring|;
    forall i | 0 <= i < |now| ensures LinkedAt(m', now, s, i) {
      var j := if i < k then i else i + 1;
      assert LinkedAt(m, ring, s, j) && now[i] == ring[j];
    }
  }

  /** The first chunk leaves, and the one before it takes its place. */
  lemma FirstCut(m: Memory, ring: seq<nat>, s: nat)
    requires Distinct(ring) && Linked(m, ring, s) && |ring| > 1
    ensures ring[0] in m && m[ring[0]].fd in m && m[ring[0]].bk in m && m[ring[0]].bk == ring[|ring| - 1]
    ensures Linked(RingCut(m, ring[0]), [ring[|ring| - 1]] + ring[1..|ring| - 1], s)
  {
    Neighbours(m, ring, s, 0);
    var n := |ring|;
    var m', now := RingCut(m, ring[0]), [ring[n - 1]] + ring[1..n - 1];
    forall i | 0 <= i < |now| ensures LinkedAt(m', now, s, i) {
      var j := if i == 0 then n - 1 else i;
      assert LinkedAt(m, ring, s, j) && now[i] == ring[j];
      assert i > 1 ==> now[i - 1] == ring[i - 1];
      assert 0 < i < n - 2 ==> now[i + 1] == ring[i + 1];
    }
  }

  // ---------------------------------------------------------------- a replacement takes over

  /** r takes over the parent and the children of x. */
  function TakenOver(m: Memory, x: nat, r: nat): (m': Memory)
    requires x in m && r in m && (m[x].left == NULL || m[x].left in m) && (m[x].right == NULL || m[x].right in m)
    ensures forall a | a in m :: a in m'
  {
    var c0, c1 := m[x].left, m[x].right;
    var m1 := m[r := m[r].(parent := m[x].parent)];
    var m2 := if c0 == NULL then m1 else m1[r := m1[r].(left := c0)];
    var m3 := if c0 == NULL then m2 else m2[c0 := m2[c0].(parent := r)];
    var m4 := if c1 == NULL then m3 else m3[r := m3[r].(right := c1)];
    if c1 == NULL then m4 else m4[c1 := m4[c1].(parent := r)]
  }

  /** Then the memory holds the replacement's ring over the children. */
  lemma TakenOverShows(m: Memory, x: nat, t: Tree)
    requires t != Nil && Apart(t) && x !in Addresses(t) && x in m && Linked(m, t.ring, t.size) && Followers(m, t.ring)
    requires t.ring[0] in m && m[t.ring[0]].left == NULL && m[t.ring[0]].right == NULL
    requires Shows(m, x, t.left) && Shows(m, x, t.right) && m[x].left == Root(t.left) && m[x].right == Root(t.right)
    ensures (m[x].left == NULL || m[x].left in m) && (m[x].right == NULL || m[x].right in m)
    ensures Shows(TakenOver(m, x, t.ring[0]), m[x].parent, t)
  {
    var r := t.ring[0];
    RootKnown(m, x, t.left);
    RootKnown(m, x, t.right);
    var m' := TakenOver(m, x, r);
    assert r in t.ring;
    TakenOverWords(m, x, r);
    forall i | 1 <= i < |t.ring| ensures SameAt(m, m', t.ring[i]) {
      assert t.ring[i] in t.ring && t.ring[i] != r;
    }
    RingKept(m, m', t.ring, t.size);
    if t.left != Nil {
      Reparent(m, m', x, t.left);
    }
    if t.right != Nil {
      Reparent(m, m', x, t.right);
    }
  }

  /** The words that change. */
  lemma TakenOverWords(m: Memory, x: nat, r: nat)
    requires x in m && r in m && (m[x].left == NULL || m[x].left in m) && (m[x].right == NULL || m[x].right in m)
    requires r != m[x].left && r != m[x].right && (m[x].left != NULL ==> m[x].left != m[x].right)
    requires m[r].left == NULL && m[r].right == NULL
    ensures var m', c0, c1 := TakenOver(m, x, r), m[x].left, m[x].right;
      && m'[r] == m[r].(parent := m[x].parent, left := c0, right := c1)
      && (c0 != NULL ==> m'[c0] == m[c0].(parent := r)) && (c1 != NULL ==> m'[c1] == m[c1].(parent := r))
      && forall a | a in m && a != r && (c0 == NULL || a != c0) && (c1 == NULL || a != c1) :: m'[a] == m[a]
  {
  }

  lemma RootKnown(m: Memory, parent: nat, t: Tree)
    requires Shows(m, parent, t) && Apart(t)
    ensures t != Nil ==> Root(t) in m && Root(t) in Addresses(t) && Root(t) != NULL
  {
    if t != Nil {
      assert t.ring[0] in t.ring;
    }
  }

  // ---------------------------------------------------------------- the rightmost leaf

  /** The way to the rightmost descendent. */
  function LeafPath(t: Tree): (path: seq<bool>)
    requires t != Nil
    ensures HasPath(t, path)
  {
    if t.right != Nil then [true] + LeafPath(t.right)
    else if t.left != Nil then [false] + LeafPath(t.left)
    else []
  }

  lemma {:induction false} LeafPathPops(t: Tree)
    requires t != Nil
    ensures Sub(t, LeafPath(t)) == PopLeaf(t).0 && Put(t, LeafPath(t), Nil) == PopLeaf(t).1
    ensures PopLeaf(t).0.left == Nil && PopLeaf(t).0.right == Nil
  {
    if t.right != Nil {
      LeafPathPops(t.right);
      assert ([true] + LeafPath(t.right))[1..] == LeafPath(t.right);
    } else if t.left != Nil {
      LeafPathPops(t.left);
      assert ([false] + LeafPath(t.left))[1..] == LeafPath(t.left);
    }
  }

  /** A step of the walk to it. */
  lemma LeafPathStep(t: Tree, path: seq<bool>, u: Tree)
    requires t != Nil && u != Nil && LeafPath(t) == path + LeafPath(u) && (u.right != Nil || u.left != Nil)
    ensures var b := u.right != Nil; LeafPath(t) == path + [b] + LeafPath(Side(u, b))
  {
  }

  /** What unlink_large_chunk makes of the trie whose first ring holds x. */
  function Dropped(t: Tree, x: nat): Tree
    requires t != Nil
  {
    if |t.ring| > 1 then t.(ring := RingWithout(t.ring, x))
    else if t.right != Nil then
      var (leaf, rest) := PopLeaf(t.right);
      Node(leaf.size, leaf.ring, t.left, rest)
    else if t.left != Nil then
      var (leaf, rest) := PopLeaf(t.left);
      Node(leaf.size, leaf.ring, rest, t.right)
    else Nil
  }

  /** ... and of any trie that holds x. */
  ghost function Unlinked(t: Tree, x: nat): Tree {
    match t
    case Nil => Nil
    case Node(size, ring, left, right) =>
      if x in ring then Dropped(t, x)
      else if x in Addresses(left) then t.(left := Unlinked(left, x))
      else t.(right := Unlinked(right, x))
  }

  /** The trie is found by its size where the pointers lead to it by its address. */
  lemma {:induction false} UnlinkedIsRemove(t: Tree, lo: nat, w: nat, x: nat, s: nat)
    requires TrieOk(t, lo, w) && (x, s) in Chunks(t) && Apart(t)
    ensures Unlinked(t, x) == Remove(t, lo, w, x, s)
    decreases t
  {
    if t.size == s {
      SizeInRing(t, lo, w, x);
    } else {
      var right := s >= lo + Pow2(w - 1);
      OnSide(t, lo, w, x, s);
      UnlinkedIsRemove(Side(t, right), if right then lo + Pow2(w - 1) else lo, w - 1, x, s);
    }
  }

  /** A chunk of another size is found on the side that its size says. */
  lemma OnSide(t: Tree, lo: nat, w: nat, x: nat, s: nat)
    requires t != Nil && TrieOk(t, lo, w) && (x, s) in Chunks(t) && Apart(t) && t.size != s
    ensures w > 0 && x !in t.ring
    ensures var right := s >= lo + Pow2(w - 1);
      (x, s) in Chunks(Side(t, right)) && (x in Addresses(t.left) <==> !right)
  {
    RemoveSide(t, lo, w, x, s);
    SizeOnSide(t, x, s);
  }

  lemma SizeInRing(t: Tree, lo: nat, w: nat, x: nat)
    requires t != Nil && TrieOk(t, lo, w) && (x, t.size) in Chunks(t)
    ensures x in t.ring
  {
    if x !in t.ring && w > 0 {
      ChunksHaveSizes(t.left, lo, w - 1);
      ChunksHaveSizes(t.right, lo + Pow2(w - 1), w - 1);
    }
  }

  lemma SizeOnSide(t: Tree, x: nat, s: nat)
    requires t != Nil && Apart(t) && (x, s) in Chunks(t.left) + Chunks(t.right)
    ensures x !in t.ring && (x in Addresses(t.left) <==> (x, s) in Chunks(t.left))
  {
    ChunkAddresses(t.left);
    ChunkAddresses(t.right);
  }

  lemma {:induction false} ChunkAddresses(t: Tree)
    ensures forall c | c in Chunks(t) :: c.0 in Addresses(t)
  {
    if t != Nil {
      ChunkAddresses(t.left);
      ChunkAddresses(t.right);
    }
  }

  /** Every chunk of the trie is in the first ring at the end of some path. */
  lemma {:induction false} PathTo(t: Tree, x: nat) returns (path: seq<bool>)
    requires x in Addresses(t) && Apart(t)
    ensures HasPath(t, path) && Sub(t, path) != Nil && x in Sub(t, path).ring
    ensures Unlinked(t, x) == Put(t, path, Dropped(Sub(t, path), x))
    decreases t
  {
    if x in t.ring {
      path := [];
    } else {
      var b := x !in Addresses(t.left);
      var rest := PathTo(Side(t, b), x);
      path := [b] + rest;
      assert path[1..] == rest;
    }
  }

  lemma LeafApart(t: Tree)
    requires t != Nil && Apart(t)
    ensures var (leaf, rest) := PopLeaf(t);
      && Apart(leaf) && Apart(rest) && leaf.left == Nil && leaf.right == Nil
      && Addresses(leaf) <= Addresses(t) && Addresses(rest) == Addresses(t) - Addresses(leaf)
  {
    LeafPathPops(t);
    SubApart(t, LeafPath(t));
    PutApart(t, LeafPath(t), Nil);
  }

  lemma DroppedApart(t: Tree, x: nat)
    requires t != Nil && Apart(t) && x in t.ring
    ensures Apart(Dropped(t, x)) && Addresses(Dropped(t, x)) == Addresses(t) - {x}
  {
    if |t.ring| > 1 {
      RingWithoutKeeps(t.ring, x);
    } else {
      assert t.ring == [x];
      if t.right != Nil {
        LeafApart(t.right);
      } else if t.left != Nil {
        LeafApart(t.left);
      }
    }
  }

  // ---------------------------------------------------------------- the stages of unlinking

  /** The replacement of x is ready to take over: its ring is right, it has no children, and x still has those that
      it will have. */
  ghost predicate Ready(m: Memory, x: nat, u: Tree) {
    && x in m && Apart(u) && x !in Addresses(u)
    && (u != Nil ==>
          && Linked(m, u.ring, u.size) && Followers(m, u.ring)
          && u.ring[0] in m && m[u.ring[0]].left == NULL && m[u.ring[0]].right == NULL
          && Shows(m, x, u.left) && Shows(m, x, u.right) && m[x].left == Root(u.left) && m[x].right == Root(u.right))
  }

  /** The replacement from the ring. */
  lemma FirstReady(m: Memory, parent: nat, t: Tree)
    requires t != Nil && Apart(t) && Shows(m, parent, t) && |t.ring| > 1
    ensures var x := t.ring[0];
      && x in m && m[x].fd in m && m[x].bk in m && m[x].fd in t.ring && m[x].bk in t.ring
      && Ready(RingCut(m, x), x, Dropped(t, x)) && Root(Dropped(t, x)) == m[x].bk && RingCut(m, x)[x].parent == parent
  {
    var x, u := t.ring[0], Dropped(t, t.ring[0]);
    FirstCut(m, t.ring, t.size);
    Neighbours(m, t.ring, t.size, 0);
    DroppedApart(t, x);
    var m' := RingCut(m, x);
    RestBare(m, t.ring, t.size);
    Frame(m, m', x, t.left);
    Frame(m, m', x, t.right);
  }

  /** The chunks behind the first stay bare when it is cut out. */
  lemma RestBare(m: Memory, ring: seq<nat>, s: nat)
    requires Distinct(ring) && Linked(m, ring, s) && Followers(m, ring) && |ring| > 1
    ensures var x, rest := ring[0], RingWithout(ring, ring[0]);
      && x in m && m[x].fd in m && m[x].bk in m && forall i | 0 <= i < |rest| :: Bare(RingCut(m, x), rest[i])
  {
    FirstCut(m, ring, s);
    var rest := RingWithout(ring, ring[0]);
    forall i | 0 <= i < |rest| ensures Bare(RingCut(m, ring[0]), rest[i]) {
      assert rest[i] == ring[if i == 0 then |ring| - 1 else i];
      assert Bare(m, rest[i]);
    }
  }

  /** The replacement from below. */
  lemma LeafReady(m: Memory, parent: nat, t: Tree, m': Memory)
    requires t != Nil && Apart(t) && Shows(m, parent, t) && |t.ring| == 1 && (t.right != Nil || t.left != Nil)
    requires var b := t.right != Nil;
      var path := LeafPath(Side(t, b));
      var q := Above(t.ring[0], Side(t, b), path);
      q in m && m' == m[q := WithChild(m[q], if path == [] then b else path[|path| - 1], NULL)]
    ensures Ready(m', t.ring[0], Dropped(t, t.ring[0])) && m'[t.ring[0]].parent == parent
    ensures Above(t.ring[0], Side(t, t.right != Nil), LeafPath(Side(t, t.right != Nil))) in Addresses(t)
  {
    var x, b := t.ring[0], t.right != Nil;
    var v, other := Side(t, b), Side(t, !b);
    assert x in t.ring;
    DroppedApart(t, x);
    LeafDetached(m, m', x, v, b);
    Frame(m, m', x, other);
  }

  /** The rightmost leaf of a child of x, taken off its parent: it is still a ring, without children, and the memory
      holds what is left. */
  lemma LeafDetached(m: Memory, m': Memory, x: nat, v: Tree, b: bool)
    requires v != Nil && Apart(v) && Shows(m, x, v) && x in m && x !in Addresses(v)
    requires var path := LeafPath(v);
      var q := Above(x, v, path);
      q in m && m' == m[q := WithChild(m[q], if path == [] then b else path[|path| - 1], NULL)]
    ensures var (leaf, rest) := PopLeaf(v);
      && Shows(m', x, rest) && Linked(m', leaf.ring, leaf.size) && Followers(m', leaf.ring)
      && leaf.ring[0] in m' && m'[leaf.ring[0]].left == NULL && m'[leaf.ring[0]].right == NULL
      && (LeafPath(v) != [] ==> Root(rest) == Root(v) && m'[x] == m[x]) && (LeafPath(v) == [] ==> rest == Nil)
    ensures Above(x, v, LeafPath(v)) in Addresses(v) + {x}
    ensures forall a | a in m && a !in Addresses(v) && a != x :: SameAt(m, m', a)
  {
    var path := LeafPath(v);
    var q, leaf := Above(x, v, path), PopLeaf(v).0;
    LeafPathPops(v);
    LeafApart(v);
    SubShows(m, x, v, path);
    if path != [] {
      AboveInside(m, x, v, path);
    }
    forall a | a in Addresses(v) && a !in Addresses(leaf) ensures OutsideAt(m, m', q, path, NULL, a) {
    }
    Replace(m, m', x, v, path, Nil);
    LeafKept(m, m', q, leaf);
  }

  /** A detached leaf keeps its words. */
  lemma LeafKept(m: Memory, m': Memory, q: nat, leaf: Tree)
    requires leaf != Nil && Apart(leaf) && leaf.left == Nil && leaf.right == Nil && Shows(m, q, leaf)
    requires forall a | a in Addresses(leaf) :: SameAt(m, m', a)
    ensures Linked(m', leaf.ring, leaf.size) && Followers(m', leaf.ring)
    ensures leaf.ring[0] in m' && m'[leaf.ring[0]].left == NULL && m'[leaf.ring[0]].right == NULL
  {
    NodeFrame(m, m', q, leaf);
  }

  /** A chunk outside the subtree, through the three steps: only the parent has another child. */
  lemma OutsideStep(m: Memory, m1: Memory, m2: Memory, m3: Memory, q: nat, path: seq<bool>, root: nat, a: nat)
    requires SameAt(m, m1, a) && (a in m1 ==> SameAt(m2, m3, a))
    requires m2 == if path == [] then m1 else if q in m1 then m1[q := WithChild(m1[q], path[|path| - 1], root)] else m1
    ensures OutsideAt(m, m3, q, path, root, a)
  {
  }

  /** What is left of x's trie when the parent and the replacement are relinked. */
  lemma Relinked(m: Memory, m1: Memory, m2: Memory, m3: Memory, bin: nat, t: Tree, path: seq<bool>, x: nat, u: Tree)
    requires HasPath(t, path) && Apart(t) && Shows(m, bin, t) && Ready(m1, x, u) && bin !in Addresses(t)
    requires x in Addresses(Sub(t, path)) && Addresses(u) <= Addresses(Sub(t, path))
    requires m1[x].parent == Above(bin, t, path)
    requires forall a | a in m && a !in Addresses(Sub(t, path)) :: SameAt(m, m1, a)
    requires var q := Above(bin, t, path);
      m2 == if path == [] then m1 else if q in m1 then m1[q := WithChild(m1[q], path[|path| - 1], Root(u))] else m1
    requires u == Nil ==> m3 == m2
    requires u != Nil && Known(m2, x, Root(u)) ==> m3 == TakenOver(m2, x, Root(u))
    ensures path != [] ==> Above(bin, t, path) in m1
    ensures u != Nil ==> Known(m2, x, Root(u))
    ensures Shows(m3, bin, Put(t, path, u))
    ensures forall a | a in m1 && a !in Addresses(t) :: SameAt(m1, m3, a)
  {
    var q, sub := Above(bin, t, path), Sub(t, path);
    SubApart(t, path);
    if path != [] {
      AboveInside(m, bin, t, path);
      assert SameAt(m, m1, q);
    }
    RelinkedInside(m1, m2, m3, x, u);
    forall a | a in Addresses(t) && a !in Addresses(sub) ensures OutsideAt(m, m3, q, path, Root(u), a) {
      OutsideStep(m, m1, m2, m3, q, path, Root(u), a);
    }
    Replace(m, m3, bin, t, path, u);
  }

  /** Taking over makes the memory hold the replacement's trie, and changes nothing else. */
  lemma RelinkedInside(m1: Memory, m2: Memory, m3: Memory, x: nat, u: Tree)
    requires Ready(m1, x, u) && x in m2 && m2[x] == m1[x]
    requires forall a | a in Addresses(u) :: SameAt(m1, m2, a)
    requires u == Nil ==> m3 == m2
    requires u != Nil && Known(m2, x, Root(u)) ==> m3 == TakenOver(m2, x, Root(u))
    ensures u != Nil ==> Known(m2, x, Root(u))
    ensures Shows(m3, m1[x].parent, u) && forall a | a in m2 && a !in Addresses(u) :: SameAt(m2, m3, a)
  {
    if u != Nil {
      NodeParts(m1, m2, x, u);
      TakenOverShows(m2, x, u);
      RootKnown(m2, x, u.left);
      RootKnown(m2, x, u.right);
      assert Root(u) in u.ring;
    }
  }

  predicate Known(m: Memory, x: nat, r: nat) {
    x in m && r in m && (m[x].left == NULL || m[x].left in m) && (m[x].right == NULL || m[x].right in m)
  }

  /** The parent is outside, so the replacement stays ready. */
  lemma NodeParts(m: Memory, m': Memory, x: nat, u: Tree)
    requires Ready(m, x, u) && u != Nil && SameAt(m, m', x) && forall a | a in Addresses(u) :: SameAt(m, m', a)
    ensures Ready(m', x, u)
  {
    assert forall i | 0 <= i < |u.ring| :: u.ring[i] in u.ring;
    RingKept(m, m', u.ring, u.size);
    Frame(m, m', x, u.left);
    Frame(m, m', x, u.right);
  }

  /** A chunk behind the first of its ring leaves the ring only. */
  lemma FollowerUnlinked(m: Memory, bin: nat, t: Tree, path: seq<bool>, k: nat)
    requires HasPath(t, path) && Apart(t) && Shows(m, bin, t) && Sub(t, path) != Nil && 0 < k < |Sub(t, path).ring|
    ensures var u := Sub(t, path); var x := u.ring[k];
      && x in m && m[x].fd in m && m[x].bk in m && m[x].parent == NULL
      && Shows(RingCut(m, x), bin, Put(t, path, Dropped(u, x))) && Root(Put(t, path, Dropped(u, x))) == Root(t)
  {
    var u, q := Sub(t, path), Above(bin, t, path);
    var x, now := u.ring[k], Dropped(u, u.ring[k]);
    SubApart(t, path);
    SubShows(m, bin, t, path);
    Neighbours(m, u.ring, u.size, k);
    FollowerCut(m, u.ring, u.size, k);
    WithoutAt(u.ring, k);
    assert Bare(m, x) && now.ring == u.ring[..k] + u.ring[k + 1..];
    var m' := RingCut(m, x);
    forall i | 1 <= i < |now.ring| ensures Bare(m', now.ring[i]) {
      assert Bare(m, u.ring[if i < k then i else i + 1]);
    }
    assert m[x].fd in u.ring && m[x].bk in u.ring;
    Frame(m, m', u.ring[0], u.left);
    Frame(m, m', u.ring[0], u.right);
    if path != [] {
      AboveInside(m, bin, t, path);
    }
    Replace(m, m', bin, t, path, now);
  }

  lemma {:induction false} NullOutside(t: Tree)
    requires Apart(t)
    ensures NULL !in Addresses(t)
  {
    if t != Nil {
      NullOutside(t.left);
      NullOutside(t.right);
    }
  }

  lemma RootOutside(t: Tree, path: seq<bool>)
    requires HasPath(t, path) && Apart(t) && path != []
    ensures Root(t) in Addresses(t) && Root(t) !in Addresses(Sub(t, path))
  {
    assert t.ring[0] in t.ring;
    SubApart(Side(t, path[0]), path[1..]);
  }

  /** The walk to the rightmost leaf has come to r, to which rp points on one side. */
  ghost predicate OnTheWay(m: Memory, x: nat, side: bool, below: Tree, path: seq<bool>, r: nat, rp: nat, right: bool) {
    && HasPath(below, path) && Sub(below, path) != Nil && r == Root(Sub(below, path)) && r in m
    && Shows(m, rp, Sub(below, path)) && Apart(Sub(below, path))
    && rp in m && rp == Above(x, below, path) && right == (if path == [] then side else path[|path| - 1])
    && LeafPath(below) == path + LeafPath(Sub(below, path))
  }

  lemma StepDown(m: Memory, x: nat, side: bool, below: Tree, path: seq<bool>, r: nat, rp: nat, right: bool)
    requires below != Nil && OnTheWay(m, x, side, below, path, r, rp, right)
    requires m[r].right != NULL || m[r].left != NULL
    ensures var b := m[r].right != NULL;
      && OnTheWay(m, x, side, below, path + [b], Child(m[r], b), r, b)
      && Sub(below, path + [b]) == Side(Sub(below, path), b)
  {
    var u, b := Sub(below, path), m[r].right != NULL;
    RootKnown(m, r, u.left);
    RootKnown(m, r, u.right);
    LeafPathStep(below, path, u);
    Extend(x, below, path, b, Nil);
  }

  lemma StepsDone(m: Memory, x: nat, side: bool, below: Tree, path: seq<bool>, r: nat, rp: nat, right: bool)
    requires below != Nil && OnTheWay(m, x, side, below, path, r, rp, right)
    requires m[r].right == NULL && m[r].left == NULL
    ensures r == Root(PopLeaf(below).0) && rp == Above(x, below, LeafPath(below)) && rp in m
    ensures right == if LeafPath(below) == [] then side else LeafPath(below)[|LeafPath(below)| - 1]
  {
    RootKnown(m, r, Sub(below, path).left);
    RootKnown(m, r, Sub(below, path).right);
    assert LeafPath(Sub(below, path)) == [] && path == LeafPath(below);
    LeafPathPops(below);
  }

  /** The parent is outside of the replacement's trie. */
  lemma Redirected(m: Memory, m': Memory, x: nat, xp: nat, u: Tree)
    requires Ready(m, x, u) && u != Nil && xp !in Addresses(u) && xp != x && x != NULL
    requires forall a | a in m && a != xp :: SameAt(m, m', a)
    ensures Known(m', x, Root(u)) && m'[x] == m[x] && x != Root(u) && m'[x].left != x && m'[x].right != x
  {
    NodeParts(m, m', x, u);
    TakenOverShows(m', x, u);
    RootKnown(m', x, u.left);
    RootKnown(m', x, u.right);
    assert Root(u) in u.ring;
  }

  /** Where a chunk is in the trie, and how its own words tell it. */
  lemma Place(m: Memory, bin: nat, t: Tree, x: nat) returns (path: seq<bool>, k: nat)
    requires Apart(t) && Shows(m, bin, t) && x in Addresses(t) && bin != NULL
    ensures HasPath(t, path) && Sub(t, path) != Nil && k < |Sub(t, path).ring| && Sub(t, path).ring[k] == x
    ensures Apart(Sub(t, path)) && Shows(m, Above(bin, t, path), Sub(t, path)) && x in Addresses(Sub(t, path))
    ensures x in m && m[x].fd in m && m[x].bk in m && (m[x].bk == x <==> |Sub(t, path).ring| == 1)
    ensures if k > 0 then m[x].parent == NULL else m[x].parent == Above(bin, t, path) != NULL
    ensures x != NULL && m[x].fd in Addresses(Sub(t, path)) && m[x].bk in Addresses(Sub(t, path))
    ensures Addresses(Dropped(Sub(t, path), x)) <= Addresses(Sub(t, path)) <= Addresses(t)
    ensures Unlinked(t, x) == Put(t, path, Dropped(Sub(t, path), x))
    ensures Apart(Unlinked(t, x)) && Addresses(Unlinked(t, x)) == Addresses(t) - {x}
  {
    path := PathTo(t, x);
    var u := Sub(t, path);
    k :| 0 <= k < |u.ring| && u.ring[k] == x;
    SubApart(t, path);
    SubShows(m, bin, t, path);
    Neighbours(m, u.ring, u.size, k);
    DroppedApart(u, x);
    PutApart(t, path, Dropped(u, x));
    NullOutside(t);
    if path != [] {
      AboveInside(m, bin, t, path);
    }
    assert k > 0 ==> Bare(m, x);
    assert m[x].fd in u.ring && m[x].bk in u.ring;
  }

  // ---------------------------------------------------------------- the bin

  /** One tree bin, its bit of treemap, and the memory of its chunks. */
  class TreeBin {
    const bin: nat          // the address of the bin, the parent of the first chunk
    var head: nat
    var marked: bool
    var chunks: Memory
    ghost var tree: Tree    // what the bin holds

    ghost predicate Valid()
      reads this
    {
      && bin != NULL && bin !in Addresses(tree) && Apart(tree)
      && head == Root(tree) && (marked <==> tree != Nil) && Shows(chunks, bin, tree)
    }

    constructor (bin: nat, chunks: Memory)
      requires bin != NULL
      ensures Valid() && tree == Nil && this.chunks == chunks
    {
      this.bin, this.chunks := bin, chunks;
      head, marked, tree := NULL, false, Nil;
    }

    /** insert_large_chunk, with the size shifted up to steer by. */
    method InsertLarge(x: nat, s: nat, bits: nat)
      requires Valid() && x in chunks && chunks[x].size == s && x != NULL && x != bin && x !in Addresses(tree)
      modifies this
      ensures Valid() && tree == Insert(old(tree), bits, x, s) && Addresses(tree) == old(Addresses(tree)) + {x}
      ensures forall a | a !in Addresses(tree) && a in old(chunks) :: a in chunks && chunks[a] == old(chunks)[a]
    {
      ghost var m := chunks;
      chunks := chunks[x := chunks[x].(left := NULL, right := NULL)];
      Frame(m, chunks, bin, tree);
      if !marked {
        marked := true;
        head := x;
        chunks := chunks[x := chunks[x].(parent := bin, fd := x, bk := x)];
        LeafShows(chunks, bin, x, s);
        tree := Node(s, [x], Nil, Nil);
      } else {
        Descend(x, s, bits);
      }
    }

    /** The walk to the chunk's place. */
    method Descend(x: nat, s: nat, bits: nat)
      requires Valid() && marked && x != NULL && x != bin && x !in Addresses(tree)
      requires x in chunks && chunks[x].size == s && chunks[x].left == NULL && chunks[x].right == NULL
      modifies this`chunks, this`tree
      ensures Valid() && tree == Insert(old(tree), bits, x, s) && Addresses(tree) == old(Addresses(tree)) + {x}
      ensures forall a | a !in Addresses(tree) && a in old(chunks) :: a in chunks && chunks[a] == old(chunks)[a]
    {
      var t, k := head, bits;
      ghost var path: seq<bool> := [];
      while true
        invariant HasPath(tree, path) && Sub(tree, path) != Nil && t == Root(Sub(tree, path))
        invariant Insert(tree, bits, x, s) == Put(tree, path, Insert(Sub(tree, path), k, x, s))
        invariant tree == old(tree) && chunks == old(chunks)
        decreases Sub(tree, path)
      {
        ghost var u := Sub(tree, path);
        SubApart(tree, path);
        SubShows(chunks, bin, tree, path);
        assert LinkedAt(chunks, u.ring, u.size, 0);
        if chunks[t].size != s {
          var right := TopBit(k);
          Extend(bin, tree, path, right, Insert(Side(u, right), ShiftLeft(k), x, s));
          k := ShiftLeft(k);
          var c := Child(chunks[t], right);
          RootKnown(chunks, t, Side(u, right));
          path := path + [right];
          if c != NULL {
            t := c;
          } else {
            Hang(t, right, x, s, path, k);
            return;
          }
        } else {
          JoinRing(t, x, path, k);
          return;
        }
      }
    }

    /** The chunk becomes the child that is missing. */
    method Hang(t: nat, right: bool, x: nat, s: nat, ghost path: seq<bool>, ghost k: nat)
      requires Valid() && x != NULL && x != bin && x !in Addresses(tree) && x in chunks
      requires chunks[x].size == s && chunks[x].left == NULL && chunks[x].right == NULL
      requires path != [] && path[|path| - 1] == right && HasPath(tree, path) && Sub(tree, path) == Nil
      requires t == Above(bin, tree, path)
      modifies this`chunks, this`tree
      ensures Valid() && tree == Put(old(tree), path, Insert(Nil, k, x, s))
      ensures Addresses(tree) == old(Addresses(tree)) + {x}
      ensures forall a | a !in Addresses(tree) && a in old(chunks) :: a in chunks && chunks[a] == old(chunks)[a]
    {
      ghost var m, u := chunks, Node(s, [x], Nil, Nil);
      AboveInside(chunks, bin, tree, path);
      chunks := chunks[t := WithChild(chunks[t], right, x)];
      chunks := chunks[x := chunks[x].(parent := t, fd := x, bk := x)];
      LeafShows(chunks, t, x, s);
      Replace(m, chunks, bin, tree, path, u);
      PutApart(tree, path, u);
      tree := Put(tree, path, u);
    }

    /** The chunk joins the ring of its size. */
    method JoinRing(t: nat, x: nat, ghost path: seq<bool>, ghost k: nat)
      requires Valid() && x != NULL && x != bin && x !in Addresses(tree) && x in chunks
      requires chunks[x].left == NULL && chunks[x].right == NULL
      requires HasPath(tree, path) && Sub(tree, path) != Nil && t == Root(Sub(tree, path)) && t in chunks
      requires chunks[x].size == Sub(tree, path).size
      modifies this`chunks, this`tree
      ensures Valid() && tree == Put(old(tree), path, Insert(Sub(old(tree), path), k, x, old(chunks[x].size)))
      ensures Addresses(tree) == old(Addresses(tree)) + {x}
      ensures forall a | a !in Addresses(tree) && a in old(chunks) :: a in chunks && chunks[a] == old(chunks)[a]
    {
      ghost var m, sub := chunks, Sub(tree, path);
      JoinedInTree(m, bin, tree, path, k, x);
      var f := chunks[t].fd;
      chunks := chunks[t := chunks[t].(fd := x)];
      chunks := chunks[f := chunks[f].(bk := x)];
      chunks := chunks[x := chunks[x].(fd := f, bk := t, parent := NULL)];
      assert chunks == Joined(m, t, x);
      tree := Put(tree, path, Insert(sub, k, x, sub.size));
    }

    /** unlink_large_chunk. */
    method UnlinkLarge(x: nat)
      requires Valid() && x in Addresses(tree)
      modifies this
      ensures Valid() && tree == Unlinked(old(tree), x) && Addresses(tree) == old(Addresses(tree)) - {x}
      ensures forall a | a !in old(Addresses(tree)) && a in old(chunks) :: SameAt(old(chunks), chunks, a)
    {
      ghost var path, k := Place(chunks, bin, tree, x);
      ghost var m, sub := chunks, Sub(tree, path);
      var xp, r := chunks[x].parent, NULL;
      if chunks[x].bk != x {
        r := LeaveRing(x);
        if k > 0 {
          FollowerUnlinked(m, bin, tree, path, k);
        } else {
          FirstReady(m, Above(bin, tree, path), sub);
        }
      } else {
        r := PopRightmost(x, sub, Above(bin, tree, path));
      }
      if xp != NULL {
        Relink(x, xp, r, m, path, Dropped(sub, x));
      }
      tree := Put(tree, path, Dropped(sub, x));
    }

    /** The chunks before and after x in its ring are linked to each other; the one before may replace x. */
    method LeaveRing(x: nat) returns (r: nat)
      requires x in chunks && chunks[x].fd in chunks && chunks[x].bk in chunks
      modifies this`chunks
      ensures chunks == RingCut(old(chunks), x) && r == old(chunks[x].bk)
    {
      var f := chunks[x].fd;
      r := chunks[x].bk;
      chunks := chunks[f := chunks[f].(bk := r)];
      chunks := chunks[r := chunks[r].(fd := f)];
    }

    /** The replacement of a chunk that is alone in its ring: the rightmost leaf below it, taken off its parent. */
    method PopRightmost(x: nat, ghost node: Tree, ghost parent: nat) returns (r: nat)
      requires node != Nil && node.ring == [x] && Apart(node) && Shows(chunks, parent, node)
      modifies this`chunks
      ensures Ready(chunks, x, Dropped(node, x)) && r == Root(Dropped(node, x)) && chunks[x].parent == parent
      ensures forall a | a in old(chunks) && a !in Addresses(node) :: SameAt(old(chunks), chunks, a)
    {
      ghost var m := chunks;
      RootKnown(m, x, node.left);
      RootKnown(m, x, node.right);
      if chunks[x].right == NULL && chunks[x].left == NULL {
        return NULL;
      }
      var right := chunks[x].right != NULL;
      var rp;
      r, rp, right := Rightmost(x, right, Side(node, right));
      chunks := chunks[rp := WithChild(chunks[rp], right, NULL)];
      LeafReady(m, parent, node, chunks);
    }

    /** The walk down from the child of x on one side to the rightmost leaf r: rp points to it, on the side right. */
    method Rightmost(x: nat, side: bool, ghost below: Tree) returns (r: nat, rp: nat, right: bool)
      requires below != Nil && Apart(below) && Shows(chunks, x, below) && x in chunks && x !in Addresses(below)
      requires Child(chunks[x], side) == Root(below)
      ensures r == Root(PopLeaf(below).0) && rp == Above(x, below, LeafPath(below)) && rp in chunks
      ensures right == if LeafPath(below) == [] then side else LeafPath(below)[|LeafPath(below)| - 1]
    {
      r, rp, right := Child(chunks[x], side), x, side;
      ghost var path: seq<bool> := [];
      while chunks[r].right != NULL || chunks[r].left != NULL
        invariant OnTheWay(chunks, x, side, below, path, r, rp, right)
        decreases Sub(below, path)
      {
        StepDown(chunks, x, side, below, path, r, rp, right);
        right := chunks[r].right != NULL;
        rp, r := r, Child(chunks[r], right);
        path := path + [right];
      }
      StepsDone(chunks, x, side, below, path, r, rp, right);
    }

    /** The parent of x gets the replacement, and the replacement the children of x. */
    method Relink(x: nat, xp: nat, r: nat, ghost m: Memory, ghost path: seq<bool>, ghost u: Tree)
      requires bin != NULL && bin !in Addresses(tree) && Apart(tree) && head == Root(tree)
      requires HasPath(tree, path) && Shows(m, bin, tree) && x in Addresses(Sub(tree, path))
      requires x == Root(Sub(tree, path)) != NULL && Addresses(u) <= Addresses(Sub(tree, path)) && r == Root(u)
      requires Ready(chunks, x, u) && xp == chunks[x].parent == Above(bin, tree, path)
      requires forall a | a in m && a !in Addresses(Sub(tree, path)) :: SameAt(m, chunks, a)
      requires marked
      modifies this`chunks, this`head, this`marked
      ensures Shows(chunks, bin, Put(tree, path, u)) && head == Root(Put(tree, path, u))
      ensures marked <==> Put(tree, path, u) != Nil
      ensures forall a | a !in Addresses(tree) && a in old(chunks) :: SameAt(old(chunks), chunks, a)
    {
      ghost var m1 := chunks;
      if u != Nil {
        assert r in u.ring;
      }
      if path != [] {
        RootOutside(tree, path);
        AboveInside(m, bin, tree, path);
        assert SameAt(m, m1, xp);
      }
      Redirect(x, xp, r, if path == [] then false else path[|path| - 1]);
      ghost var m2 := chunks;
      if r != NULL {
        Redirected(m1, m2, x, xp, u);
        TakeOver(x, xp, r);
      }
      Relinked(m, m1, m2, chunks, bin, tree, path, x, u);
    }

    /** The bin or the parent points to the replacement. */
    method Redirect(x: nat, xp: nat, r: nat, ghost right: bool)
      requires x != head ==> xp in chunks && Child(chunks[xp], right) == x && Child(chunks[xp], !right) != x
      modifies this`chunks, this`head, this`marked
      ensures head == if x == old(head) then r else old(head)
      ensures marked == (old(marked) && !(x == old(head) && r == NULL))
      ensures chunks == if x == old(head) then old(chunks) else old(chunks)[xp := WithChild(old(chunks)[xp], right, r)]
    {
      if x == head {
        head := r;
        if r == NULL {
          marked := false;
        }
      } else if chunks[xp].left == x {
        chunks := chunks[xp := chunks[xp].(left := r)];
      } else {
        chunks := chunks[xp := chunks[xp].(right := r)];
      }
    }

    /** The replacement gets the parent and the children. */
    method TakeOver(x: nat, xp: nat, r: nat)
      requires Known(chunks, x, r) && chunks[x].parent == xp && x != r && chunks[x].left != x && chunks[x].right != x
      modifies this`chunks
      ensures chunks == TakenOver(old(chunks), x, r)
    {
      chunks := chunks[r := chunks[r].(parent := xp)];
      var c0 := chunks[x].left;
      if c0 != NULL {
        chunks := chunks[r := chunks[r].(left := c0)];
        chunks := chunks[c0 := chunks[c0].(parent := r)];
      }
      var c1 := chunks[x].right;
      if c1 != NULL {
        chunks := chunks[r := chunks[r].(right := c1)];
        chunks := chunks[c1 := chunks[c1].(parent := r)];
      }
    }
  }
}
