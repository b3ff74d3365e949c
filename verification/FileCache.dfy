/** The static-file cache of StaticFiles.cc: a list in order of use, an index into it, a running size. */
module FileCache {
  import opened Prelude

  type Key = seq<byte>

  /** A list node; `cell` tells it from other nodes with the same contents. */
  datatype Node = Node(key: Key, data: seq<byte>, expireAt: int, cell: nat)

  function Size(lru: seq<Node>): nat {
    if lru == [] then 0 else Size(lru[..|lru| - 1]) + |lru[|lru| - 1].data|
  }

  /** Every key once. */
  ghost predicate KeysOnce(lru: seq<Node>) {
    forall i, j {:trigger lru[i], lru[j]} :: 0 <= i < j < |lru| ==> lru[i].key != lru[j].key
  }

  /** The index holds the nodes of the list, under their keys, and nothing else. */
  ghost predicate Indexes(index: map<Key, Node>, lru: seq<Node>) {
    && (forall i {:trigger lru[i]} :: 0 <= i < |lru| ==> lru[i].key in index && index[lru[i].key] == lru[i])
    && (forall k {:trigger k in index} :: k in index ==> index[k] in lru && index[k].key == k)
  }

  /** The list without the node of one key. */
  function Without(lru: seq<Node>, k: Key): seq<Node> {
    if lru == [] then [] else
    var front, last := Without(lru[..|lru| - 1], k), lru[|lru| - 1];
    if last.key == k then front else front + [last]
  }

  // ---------------------------------------------------------------- facts about lists

  lemma {:induction false} WithoutIs(lru: seq<Node>, k: Key, n: Node)
    ensures n in Without(lru, k) <==> n in lru && n.key != k
  {
    if lru != [] {
      WithoutIs(lru[..|lru| - 1], k, n);
      assert lru == lru[..|lru| - 1] + [lru[|lru| - 1]];
    }
  }

  lemma {:induction false} WithoutKeepsOnce(lru: seq<Node>, k: Key)
    requires KeysOnce(lru)
    ensures KeysOnce(Without(lru, k))
  {
    if lru != [] {
      var n := |lru| - 1;
      WithoutKeepsOnce(lru[..n], k);
      var front, w := Without(lru[..n], k), Without(lru, k);
      if lru[n].key != k {
        forall i | 0 <= i < |front| ensures front[i].key != lru[n].key {
          WithoutIs(lru[..n], k, front[i]);
          var j :| 0 <= j < n && lru[..n][j] == front[i];
          assert lru[j].key != lru[n].key;
        }
      }
    }
  }

  lemma {:induction false} WithoutAbsent(lru: seq<Node>, k: Key)
    requires forall i {:trigger lru[i]} :: 0 <= i < |lru| ==> lru[i].key != k
    ensures Without(lru, k) == lru
  {
    if lru != [] {
      WithoutAbsent(lru[..|lru| - 1], k);
    }
  }

  /** Removing the node at i takes its size off. */
  lemma {:induction false} WithoutSize(lru: seq<Node>, i: nat)
    requires KeysOnce(lru) && i < |lru|
    ensures Size(Without(lru, lru[i].key)) == Size(lru) - |lru[i].data|
  {
    var n := |lru| - 1;
    if i == n {
      assert forall j :: 0 <= j < n ==> lru[j].key != lru[n].key;
      WithoutAbsent(lru[..n], lru[n].key);
    } else {
      assert lru[i].key != lru[n].key;
      WithoutSize(lru[..n], i);
      var front := Without(lru[..n], lru[i].key);
      assert (front + [lru[n]])[..|front|] == front;
    }
  }

  lemma WithoutLast(lru: seq<Node>)
    requires KeysOnce(lru) && lru != []
    ensures Without(lru, lru[|lru| - 1].key) == lru[..|lru| - 1]
  {
    var n := |lru| - 1;
    assert forall j :: 0 <= j < n ==> lru[j].key != lru[n].key;
    WithoutAbsent(lru[..n], lru[n].key);
  }

  lemma {:induction false} SizePush(n: Node, lru: seq<Node>)
    ensures Size([n] + lru) == |n.data| + Size(lru)
  {
    var all := [n] + lru;
    if lru == [] {
      assert all[..0] == [];
    } else {
      SizePush(n, lru[..|lru| - 1]);
      assert all[..|all| - 1] == [n] + lru[..|lru| - 1];
    }
  }

  lemma PushKeepsOnce(n: Node, lru: seq<Node>)
    requires KeysOnce(lru) && forall i {:trigger lru[i]} :: 0 <= i < |lru| ==> lru[i].key != n.key
    ensures KeysOnce([n] + lru)
  {
    var all := [n] + lru;
    forall i, j {:trigger all[i], all[j]} | 0 <= i < j < |all| ensures all[i].key != all[j].key {
      assert all[j] == lru[j - 1];
      if i > 0 {
        assert all[i] == lru[i - 1];
      }
    }
  }

  lemma IndexesWithout(index: map<Key, Node>, lru: seq<Node>, k: Key)
    requires Indexes(index, lru) && KeysOnce(lru)
    ensures Indexes(index - {k}, Without(lru, k))
  {
    var w, m := Without(lru, k), index - {k};
    forall i {:trigger w[i]} | 0 <= i < |w| ensures w[i].key in m && m[w[i].key] == w[i] {
      WithoutIs(lru, k, w[i]);
      var j :| 0 <= j < |lru| && lru[j] == w[i];
    }
    forall x {:trigger x in m} | x in m ensures m[x] in w && m[x].key == x { WithoutIs(lru, k, index[x]); }
  }

  lemma IndexesPush(index: map<Key, Node>, lru: seq<Node>, n: Node)
    requires Indexes(index, lru) && n.key !in index
    ensures Indexes(index[n.key := n], [n] + lru)
    ensures forall i {:trigger lru[i]} :: 0 <= i < |lru| ==> lru[i].key != n.key
  {
    var all, m := [n] + lru, index[n.key := n];
    forall i {:trigger all[i]} | 0 <= i < |all| ensures all[i].key in m && m[all[i].key] == all[i] {
      if i > 0 {
        assert all[i] == lru[i - 1];
      }
    }
    forall x {:trigger x in m} | x in m ensures m[x] in all && m[x].key == x {
      if x == n.key {
        assert all[0] == n;
      } else {
        var j :| 0 <= j < |lru| && lru[j] == index[x];
        assert all[j + 1] == index[x];
      }
    }
  }

  // ---------------------------------------------------------------- the cache

  /** How many nodes, from the most recently used on, still leave room for `incoming` under `max`. */
  ghost predicate LongestFitting(lru: seq<Node>, kept: nat, incoming: nat, max: nat) {
    && kept <= |lru|
    && (kept > 0 ==> Size(lru[..kept]) + incoming <= max)
    && (kept < |lru| ==> Size(lru[..kept + 1]) + incoming > max)
  }

  class Cache {
    var lru: seq<Node>
    var index: map<Key, Node>
    var currentSize: nat

    ghost predicate Valid()
      reads this
    {
      KeysOnce(lru) && Indexes(index, lru) && currentSize == Size(lru)
    }

    constructor ()
      ensures Valid() && lru == []
    {
      lru, index, currentSize := [], map[], 0;
    }

    /** Removes the node of a key from all three. */
    method Evict(k: Key)
      requires Valid() && k in index
      modifies this
      ensures Valid() && lru == Without(old(lru), k) && index == old(index) - {k}
      ensures currentSize == old(currentSize) - |old(index)[k].data|
    {
      ghost var i: nat :| i < |lru| && lru[i] == index[k];
      WithoutSize(lru, i);
      WithoutKeepsOnce(lru, k);
      IndexesWithout(index, lru, k);
      currentSize := currentSize - |index[k].data|;
      lru := Without(lru, k);
      index := index - {k};
    }

    /** get: the node moves to the front; an expired one goes. */
    method Get(k: Key, now: int) returns (r: Option<Node>)
      requires Valid()
      modifies this
      ensures Valid() && r == if k in old(index) && now <= old(index)[k].expireAt then Some(old(index)[k]) else None
      ensures r.Some? ==> lru == [r.value] + Without(old(lru), k)
      ensures r.None? ==> lru == Without(old(lru), k)
      ensures currentSize <= old(currentSize)
    {
      if k !in index {
        forall i {:trigger lru[i]} | 0 <= i < |lru| ensures lru[i].key != k { assert lru[i].key in index; }
        WithoutAbsent(lru, k);
        return None;
      }
      var n := index[k];
      Evict(k);
      if now > n.expireAt {
        return None;
      }
      PushFront(n);
      r := Some(n);
    }

    method PushFront(n: Node)
      requires Valid() && n.key !in index
      modifies this
      ensures Valid() && lru == [n] + old(lru) && index == old(index)[n.key := n] && currentSize == old(currentSize) + |n.data|
    {
      IndexesPush(index, lru, n);
      PushKeepsOnce(n, lru);
      SizePush(n, lru);
      lru := [n] + lru;
      index := index[n.key := n];
      currentSize := currentSize + |n.data|;
    }

    method Invalidate(k: Key)
      requires Valid()
      modifies this
      ensures Valid() && lru == Without(old(lru), k) && k !in index && currentSize <= old(currentSize)
    {
      if k in index {
        Evict(k);
      } else {
        forall i {:trigger lru[i]} | 0 <= i < |lru| ensures lru[i].key != k { assert lru[i].key in index; }
        WithoutAbsent(lru, k);
      }
    }

    /** put: what it evicts is the shortest least-recently-used suffix that makes room. */
    method Put(node: Node, max: nat)
      requires Valid()
      modifies this
      ensures Valid() && lru != [] && lru[0] == node
      ensures
        var others, kept := Without(old(lru), node.key), |lru| - 1;
        && LongestFitting(others, kept, |node.data|, max) && lru == [node] + others[..kept]
      ensures currentSize <= max <==> |node.data| <= max
    {
      Invalidate(node.key);
      EvictToFit(node.key, |node.data|, max);
      PushFront(node);
    }

    /** lru_.pop_back() with its size and its index entry. */
    method PopBack(ghost all: seq<Node>, ghost n: nat)
      requires Valid() && n < |all| && lru == all[..n + 1]
      modifies this
      ensures Valid() && lru == all[..n] && index.Keys <= old(index.Keys) && old(currentSize) == Size(all[..n + 1])
    {
      var k := lru[|lru| - 1].key;
      assert k in index;
      WithoutLast(lru);
      assert all[..n + 1][..n] == all[..n];
      Evict(k);
    }

    /** The eviction loop. */
    method EvictToFit(k: Key, incoming: nat, max: nat)
      requires Valid() && k !in index
      modifies this
      ensures Valid() && k !in index && LongestFitting(old(lru), |lru|, incoming, max) && lru == old(lru)[..|lru|]
      ensures lru != [] ==> currentSize + incoming <= max
      ensures lru == [] ==> currentSize == 0
    {
      ghost var all, n := lru, |lru|;
      assert all[..n] == all;
      while lru != [] && currentSize + incoming > max
        invariant Valid() && k !in index && n == |lru| <= |all| && lru == all[..n]
        invariant n < |all| ==> Size(all[..n + 1]) + incoming > max
        decreases n
      {
        n := n - 1;
        PopBack(all, n);
      }
    }
  }

  // ---------------------------------------------------------------- the size limits

  /** The per-file limit after staticFiles has clamped it. */
  function ClampFileSize(maxFile: nat, maxCache: nat): nat {
    if maxFile > maxCache then maxCache else maxFile
  }

  predicate CacheEnabled(ttl: int, fileSize: nat, maxFile: nat, maxCache: nat) {
    ttl > 0 && fileSize <= ClampFileSize(maxFile, maxCache)
  }

  datatype Use = UseGet(k: Key, now: int) | UsePut(node: Node) | UseInvalidate(k: Key)

  /** How many nodes the eviction loop leaves. */
  function KeptOf(lru: seq<Node>, incoming: nat, max: nat): (kept: nat)
    ensures kept <= |lru|
  {
    if lru == [] || Size(lru) + incoming <= max then |lru| else KeptOf(lru[..|lru| - 1], incoming, max)
  }

  lemma {:induction false} SizePrefix(lru: seq<Node>, n: nat)
    requires n <= |lru|
    ensures Size(lru[..n]) <= Size(lru)
  {
    if n < |lru| {
      SizePrefix(lru[..|lru| - 1], n);
      assert lru[..|lru| - 1][..n] == lru[..n];
    } else {
      assert lru[..n] == lru;
    }
  }

  lemma {:induction false} KeptIsLongest(lru: seq<Node>, kept: nat, incoming: nat, max: nat)
    requires LongestFitting(lru, kept, incoming, max)
    ensures kept == KeptOf(lru, incoming, max)
  {
    if lru != [] {
      var front := lru[..|lru| - 1];
      if kept < |lru| {
        SizePrefix(lru, kept + 1);
        assert front[..kept] == lru[..kept];
        assert kept < |front| ==> front[..kept + 1] == lru[..kept + 1];
        KeptIsLongest(front, kept, incoming, max);
      } else {
        assert lru[..kept] == lru;
      }
    }
  }

  /** The node of a key. */
  function NodeOf(lru: seq<Node>, k: Key): Option<Node> {
    if lru == [] then None else if lru[|lru| - 1].key == k then Some(lru[|lru| - 1]) else NodeOf(lru[..|lru| - 1], k)
  }

  /** What a use makes of the list. */
  function After(lru: seq<Node>, u: Use, max: nat): seq<Node> {
    match u
    case UseGet(k, now) =>
      var n := NodeOf(lru, k);
      if n.Some? && now <= n.value.expireAt then [n.value] + Without(lru, k) else Without(lru, k)
    case UsePut(node) =>
      var others := Without(lru, node.key);
      [node] + others[..KeptOf(others, |node.data|, max)]
    case UseInvalidate(k) => Without(lru, k)
  }

  lemma {:induction false} NodeOfIs(lru: seq<Node>, k: Key)
    requires KeysOnce(lru)
    ensures match NodeOf(lru, k)
      case None => forall i {:trigger lru[i]} :: 0 <= i < |lru| ==> lru[i].key != k
      case Some(n) => n in lru && n.key == k && forall m :: m in lru && m.key == k ==> m == n
  {
    if lru != [] {
      var front, last := lru[..|lru| - 1], lru[|lru| - 1];
      NodeOfIs(front, k);
      assert lru == front + [last];
      if NodeOf(front, k).None? && last.key != k {
        forall i {:trigger lru[i]} | 0 <= i < |lru| ensures lru[i].key != k {
          assert i < |front| ==> front[i] == lru[i];
        }
      }
    }
  }

  /** Any uses of the cache: files that pass the test keep it within its limit, and the list goes as After says. */
  method Run(cache: Cache, uses: seq<Use>, ttl: int, maxFile: nat, maxCache: nat) returns (ghost lists: seq<seq<Node>>)
    requires cache.Valid() && cache.currentSize <= maxCache
    requires forall i {:trigger uses[i]} :: 0 <= i < |uses| && uses[i].UsePut? ==> CacheEnabled(ttl, |uses[i].node.data|, maxFile, maxCache)
    modifies cache
    ensures cache.Valid() && cache.currentSize <= maxCache
    ensures IsHistory(lists, uses, maxCache) && lists[0] == old(cache.lru) && lists[|uses|] == cache.lru
  {
    var i := 0;
    lists := [cache.lru];
    while i < |uses|
      invariant i <= |uses| && cache.Valid() && cache.currentSize <= maxCache
      invariant IsHistory(lists, uses[..i], maxCache) && lists[0] == old(cache.lru) && lists[i] == cache.lru
    {
      UseOnce(cache, uses[i], maxCache);
      HistoryMore(lists, uses, i, maxCache, cache.lru);
      lists := lists + [cache.lru];
      i := i + 1;
    }
    assert uses[..i] == uses;
  }

  method UseOnce(cache: Cache, u: Use, max: nat)
    requires cache.Valid() && cache.currentSize <= max && (u.UsePut? ==> |u.node.data| <= max)
    modifies cache
    ensures cache.Valid() && cache.currentSize <= max && cache.lru == After(old(cache.lru), u, max)
  {
    ghost var lru := cache.lru;
    match u {
      case UseGet(k, now) =>
        NodeOfIs(lru, k);
        assert k in cache.index <==> NodeOf(lru, k).Some?;
        var _ := cache.Get(k, now);
      case UsePut(node) =>
        cache.Put(node, max);
        KeptIsLongest(Without(lru, node.key), |cache.lru| - 1, |node.data|, max);
      case UseInvalidate(k) =>
        cache.Invalidate(k);
    }
  }

  // ---------------------------------------------------------------- nodes in use

  /** The list before each use, and after the last. */
  ghost predicate IsHistory(lists: seq<seq<Node>>, uses: seq<Use>, max: nat) {
    && |lists| == |uses| + 1 && KeysOnce(lists[0])
    && forall i {:trigger uses[i]} :: 0 <= i < |uses| ==> lists[i + 1] == After(lists[i], uses[i], max)
  }

  lemma HistoryMore(lists: seq<seq<Node>>, uses: seq<Use>, i: nat, max: nat, lru: seq<Node>)
    requires i < |uses| && IsHistory(lists, uses[..i], max) && lru == After(lists[i], uses[i], max)
    ensures IsHistory(lists + [lru], uses[..i + 1], max)
  {
    var more, did := lists + [lru], uses[..i + 1];
    forall k {:trigger did[k]} | 0 <= k < |did| ensures more[k + 1] == After(more[k], did[k], max) {
      if k < i {
        assert uses[..i][k] == did[k];
      }
    }
  }

  /** The nodes up to and including n, other than one of key k, leave no room for so many bytes. */
  ghost predicate NeedsRoom(lru: seq<Node>, k: Key, n: Node, incoming: nat, max: nat) {
    exists p {:trigger lru[p]} :: 0 <= p < |lru| && lru[p] == n && Size(Without(lru[..p + 1], k)) + incoming > max
  }

  lemma {:induction false} KeptFits(lru: seq<Node>, incoming: nat, max: nat)
    ensures LongestFitting(lru, KeptOf(lru, incoming, max), incoming, max)
  {
    if lru != [] && Size(lru) + incoming > max {
      var front, kept := lru[..|lru| - 1], KeptOf(lru, incoming, max);
      KeptFits(front, incoming, max);
      assert front[..kept] == lru[..kept];
      assert if kept < |front| then front[..kept + 1] == lru[..kept + 1] else lru[..kept + 1] == lru;
    } else {
      assert lru[..|lru|] == lru;
    }
  }

  /** Taking a key out of a front part of the list gives a front part of the list without it. */
  lemma {:induction false} WithoutPrefix(lru: seq<Node>, k: Key, m: nat)
    requires m <= |lru|
    ensures Without(lru[..m], k) <= Without(lru, k)
  {
    if m < |lru| {
      WithoutPrefix(lru[..|lru| - 1], k, m);
      assert lru[..|lru| - 1][..m] == lru[..m];
    } else {
      assert lru[..m] == lru;
    }
  }

  lemma KeptAtIff(others: seq<Node>, m: nat, incoming: nat, max: nat)
    requires 0 < m <= |others|
    ensures m <= KeptOf(others, incoming, max) <==> Size(others[..m]) + incoming <= max
  {
    var kept := KeptOf(others, incoming, max);
    KeptFits(others, incoming, max);
    if m <= kept {
      SizePrefix(others[..kept], m);
      assert others[..kept][..m] == others[..m];
    } else {
      SizePrefix(others[..m], kept + 1);
      assert others[..m][..kept + 1] == others[..kept + 1];
    }
  }

  /** A put keeps a node of another key exactly if there is room. */
  lemma PutKeepsIff(lru: seq<Node>, k: Key, n: Node, incoming: nat, max: nat, p: nat)
    requires KeysOnce(lru) && p < |lru| && lru[p] == n && n.key != k
    ensures
      var others := Without(lru, k);
      n in others[..KeptOf(others, incoming, max)] <==> Size(Without(lru[..p + 1], k)) + incoming <= max
  {
    var others, front := Without(lru, k), Without(lru[..p + 1], k);
    var m, kept := |front|, KeptOf(others, incoming, max);
    WithoutPrefix(lru, k, p + 1);
    WithoutKeepsOnce(lru, k);
    assert lru[..p + 1][..p] == lru[..p];
    assert front[m - 1] == n && others[m - 1] == n && others[..m] == front;
    KeptAtIff(others, m, incoming, max);
    if m <= kept {
      assert others[..kept][m - 1] == n;
    } else {
      forall i | 0 <= i < kept ensures others[..kept][i] != n { assert others[i].key != others[m - 1].key; }
    }
  }

  lemma NeedsRoomIff(lru: seq<Node>, k: Key, n: Node, incoming: nat, max: nat)
    requires KeysOnce(lru) && n in lru && n.key != k
    ensures
      var others := Without(lru, k);
      n in others[..KeptOf(others, incoming, max)] <==> !NeedsRoom(lru, k, n, incoming, max)
  {
    forall p | 0 <= p < |lru| && lru[p] == n
      ensures
        var others := Without(lru, k);
        n in others[..KeptOf(others, incoming, max)] <==> Size(Without(lru[..p + 1], k)) + incoming <= max
    {
      PutKeepsIff(lru, k, n, incoming, max, p);
    }
  }

  /** A use takes the node of a key out of the list: it has expired, is replaced, is invalidated, or has to make room. */
  ghost predicate Removes(lru: seq<Node>, u: Use, max: nat, n: Node) {
    match u
    case UseGet(k, now) => k == n.key && now > n.expireAt
    case UsePut(node) => node.key == n.key || NeedsRoom(lru, node.key, n, |node.data|, max)
    case UseInvalidate(k) => k == n.key
  }

  lemma {:induction false} KeysStayOnce(lru: seq<Node>, u: Use, max: nat)
    requires KeysOnce(lru)
    ensures KeysOnce(After(lru, u, max))
  {
    var k := match u case UseGet(k, _) => k case UsePut(node) => node.key case UseInvalidate(k) => k;
    var others := Without(lru, k);
    WithoutKeepsOnce(lru, k);
    forall i {:trigger others[i]} | 0 <= i < |others| ensures others[i].key != k { WithoutIs(lru, k, others[i]); }
    match u
    case UseGet(_, now) =>
      NodeOfIs(lru, k);
      if NodeOf(lru, k).Some? {
        PushKeepsOnce(NodeOf(lru, k).value, others);
      }
    case UsePut(node) => PushKeepsOnce(node, others[..KeptOf(others, |node.data|, max)]);
    case UseInvalidate(_) =>
  }

  lemma StaysOnce(lru: seq<Node>, u: Use, max: nat, n: Node)
    requires KeysOnce(lru) && (u.UsePut? ==> u.node.cell != n.cell)
    ensures n in After(lru, u, max) <==> n in lru && !Removes(lru, u, max, n)
  {
    match u
    case UseGet(k, now) =>
      NodeOfIs(lru, k);
      WithoutIs(lru, k, n);
    case UsePut(node) =>
      var others := Without(lru, node.key);
      WithoutIs(lru, node.key, n);
      var kept := others[..KeptOf(others, |node.data|, max)];
      assert n in kept ==> n in others;
      if n in lru && n.key != node.key {
        NeedsRoomIff(lru, node.key, n, |node.data|, max);
      }
    case UseInvalidate(k) => WithoutIs(lru, k, n);
  }

  lemma {:induction false} HistoryOnce(lists: seq<seq<Node>>, uses: seq<Use>, max: nat, i: nat)
    requires IsHistory(lists, uses, max) && i < |lists|
    ensures KeysOnce(lists[i])
  {
    if i > 0 {
      HistoryOnce(lists, uses, max, i - 1);
      assert lists[i] == After(lists[i - 1], uses[i - 1], max);
      KeysStayOnce(lists[i - 1], uses[i - 1], max);
    }
  }

  /** What is handed out: the node that a get finds, or that a put stores. */
  function HandsOut(lru: seq<Node>, u: Use): Option<Node> {
    match u
    case UseGet(k, now) => if NodeOf(lru, k).Some? && now <= NodeOf(lru, k).value.expireAt then NodeOf(lru, k) else None
    case UsePut(node) => Some(node)
    case UseInvalidate(_) => None
  }

  /**
   * Exactly then: the node that use i handed out, and that a response is still written from at
   * use j, is in the list then if and only if no use in between takes it out.
   */
  lemma {:induction false} InUseStaysIff(lists: seq<seq<Node>>, uses: seq<Use>, max: nat, i: nat, j: nat, n: Node)
    requires IsHistory(lists, uses, max) && i < j < |lists| && HandsOut(lists[i], uses[i]) == Some(n)
    requires forall k {:trigger uses[k]} :: i < k < j && uses[k].UsePut? ==> uses[k].node.cell != n.cell
    ensures n in lists[j] <==> forall k {:trigger uses[k]} :: i < k < j ==> !Removes(lists[k], uses[k], max, n)
    decreases j
  {
    HistoryOnce(lists, uses, max, i);
    assert lists[i + 1] == After(lists[i], uses[i], max);
    if j == i + 1 {
      assert lists[j][0] == n;
    } else {
      InUseStaysIff(lists, uses, max, i, j - 1, n);
      HistoryOnce(lists, uses, max, j - 1);
      assert lists[j] == After(lists[j - 1], uses[j - 1], max);
      StaysOnce(lists[j - 1], uses[j - 1], max, n);
    }
  }

  /** It happens: while a response is written from a node, another request stores a file that needs its room. */
  lemma PutRemovesNodeInUse(n: Node, other: Node, now: int, max: nat) returns (lists: seq<seq<Node>>, uses: seq<Use>)
    requires n.key != other.key && n.cell != other.cell && now <= n.expireAt
    requires |n.data| <= max && |other.data| <= max < |n.data| + |other.data|
    ensures IsHistory(lists, uses, max) && lists[0] == [n] && uses == [UseGet(n.key, now), UsePut(other)]
    ensures HandsOut(lists[0], uses[0]) == Some(n) && lists[2] == [other]
  {
    uses := [UseGet(n.key, now), UsePut(other)];
    lists := [[n], [n], [other]];
    OneNode(n, other.key, now, |other.data|, max);
    assert After([n], uses[0], max) == [n] + [];
    assert After([n], uses[1], max) == [other] + [];
  }

  lemma OneNode(n: Node, k: Key, now: int, incoming: nat, max: nat)
    requires n.key != k && max < |n.data| + incoming
    ensures Without([n], n.key) == [] && Without([n], k) == [n] && NodeOf([n], n.key) == Some(n)
    ensures KeptOf([n], incoming, max) == 0
  {
    assert [n][..0] == [];
    WithoutAbsent([n], k);
    assert Size([n]) == |n.data|;
    assert KeptOf([], incoming, max) == 0;
  }
}
