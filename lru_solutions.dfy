/**
  The least-recently-used cache of lld/python/solutions/lru-cache.py: a dictionary from keys to
  nodes of a doubly linked list held between two sentinel nodes. The node right after the head
  sentinel is the most recently used entry; the node right before the tail sentinel is the
  least recently used one and the first to be evicted.

  The cache is specified by its entries in recency order (most recent first): the pure
  functions AfterGet and AfterPut say what each operation does to that sequence, and the
  lemmas about them give the cache's properties. Keys are integers and values strings.
*/
module LruSolutions {
  import opened Common

  /** One cached key with its value. */
  datatype Entry = Entry(key: int, value: string)

  /** The exception the constructor raises for a capacity that is not positive. */
  datatype CacheError = ValueError

  /** No two entries share a key. */
  predicate DistinctKeys(es: seq<Entry>)
  {
    forall i, j :: 0 <= i < j < |es| ==> es[i].key != es[j].key
  }

  predicate HasKey(es: seq<Entry>, key: int)
  {
    exists i :: 0 <= i < |es| && es[i].key == key
  }

  /** The position of the first entry with this key, if any. */
  function Find(es: seq<Entry>, key: int): (r: Option<nat>)
    ensures r.Some? ==> r.value < |es| && es[r.value].key == key
    ensures r.Some? ==> forall j :: 0 <= j < r.value ==> es[j].key != key
    ensures r.None? <==> !HasKey(es, key)
  {
    if es == [] then None
    else if es[0].key == key then Some(0)
    else
      var r := Find(es[1..], key);
      assert forall j :: 1 <= j < |es| ==> es[j] == es[1..][j - 1];
      if r.None? then None else Some(r.value + 1)
  }

  /** Among distinct keys, Find locates the one entry carrying the key. */
  lemma FindDistinct(es: seq<Entry>, key: int, i: nat)
    requires DistinctKeys(es) && i < |es| && es[i].key == key
    ensures Find(es, key) == Some(i)
  {
    var r := Find(es, key);
    assert r.Some? && es[r.value].key == es[i].key;
  }

  function RemoveAt(es: seq<Entry>, i: nat): seq<Entry>
    requires i < |es|
  {
    es[..i] + es[i + 1..]
  }

  /** The value `get` returns. */
  function GetResult(es: seq<Entry>, key: int): Option<string>
  {
    match Find(es, key)
    case None => None
    case Some(i) => Some(es[i].value)
  }

  /** The entries after `get`: a hit moves the entry to the front, a miss changes nothing. */
  function AfterGet(es: seq<Entry>, key: int): seq<Entry>
  {
    match Find(es, key)
    case None => es
    case Some(i) => [es[i]] + RemoveAt(es, i)
  }

  /** The entries after `put`: an existing key gets the new value and moves to the front;
      a new key goes to the front, after the last entry has been evicted when the cache is full. */
  function AfterPut(es: seq<Entry>, key: int, value: string, capacity: int): seq<Entry>
  {
    match Find(es, key)
    case Some(i) => [Entry(key, value)] + RemoveAt(es, i)
    case None =>
      if |es| >= capacity && es != [] then [Entry(key, value)] + es[..|es| - 1]
      else [Entry(key, value)] + es
  }

  /** The entries whose key differs from `key`, in their order. */
  function Without(es: seq<Entry>, key: int): seq<Entry>
  {
    if es == [] then []
    else (if es[0].key == key then [] else [es[0]]) + Without(es[1..], key)
  }

  lemma {:induction false} WithoutAbsent(es: seq<Entry>, key: int)
    requires !HasKey(es, key)
    ensures Without(es, key) == es
  {
    if es != [] {
      assert !HasKey(es[1..], key) by {
        forall j | 0 <= j < |es[1..]| ensures es[1..][j].key != key {
          assert es[1..][j] == es[j + 1];
        }
      }
      WithoutAbsent(es[1..], key);
    }
  }

  /** Among distinct keys, cutting out the entry at i is filtering out its key. */
  lemma {:induction false} RemoveAtIsWithout(es: seq<Entry>, i: nat)
    requires DistinctKeys(es) && i < |es|
    ensures RemoveAt(es, i) == Without(es, es[i].key)
  {
    var key := es[i].key;
    assert DistinctKeys(es[1..]) by {
      forall a, b | 0 <= a < b < |es[1..]| ensures es[1..][a].key != es[1..][b].key {
        assert es[1..][a] == es[a + 1] && es[1..][b] == es[b + 1];
      }
    }
    if i == 0 {
      assert !HasKey(es[1..], key) by {
        forall j | 0 <= j < |es[1..]| ensures es[1..][j].key != key {
          assert es[1..][j] == es[j + 1];
        }
      }
      WithoutAbsent(es[1..], key);
      assert RemoveAt(es, 0) == es[1..];
    } else {
      assert es[0].key != key;
      assert es[1..][i - 1] == es[i];
      RemoveAtIsWithout(es[1..], i - 1);
      assert RemoveAt(es, i) == [es[0]] + RemoveAt(es[1..], i - 1);
    }
  }

  /** `put` of a stored key: the size is unchanged, the new entry is the most recent one, and
      behind it come all other entries, in their previous order. */
  lemma PutExisting(es: seq<Entry>, key: int, value: string, capacity: int)
    requires DistinctKeys(es) && HasKey(es, key)
    ensures var t := AfterPut(es, key, value, capacity);
      |t| == |es| && t[0] == Entry(key, value) && t[1..] == Without(es, key)
  {
    var i := Find(es, key).value;
    RemoveAtIsWithout(es, i);
    assert ([Entry(key, value)] + RemoveAt(es, i))[1..] == RemoveAt(es, i);
  }

  /** `put` of a new key: the new entry is the most recent one and the older entries follow in
      their order; below capacity all of them stay, at capacity exactly the least recent one,
      the last, is dropped. */
  lemma PutNew(es: seq<Entry>, key: int, value: string, capacity: int)
    requires !HasKey(es, key) && 0 < capacity
    ensures var t := AfterPut(es, key, value, capacity);
      t[0] == Entry(key, value) && t[1..] <= es
      && (|es| < capacity ==>
        |t| == |es| + 1 && multiset(t) == multiset(es) + multiset{Entry(key, value)})
      && (|es| >= capacity ==>
        |t| == |es| && multiset(t) == multiset(es) - multiset{es[|es| - 1]} + multiset{Entry(key, value)})
  {
    var t := AfterPut(es, key, value, capacity);
    if |es| >= capacity {
      assert t[1..] == es[..|es| - 1];
      assert es == es[..|es| - 1] + [es[|es| - 1]];
    } else {
      assert t[1..] == es;
    }
  }

  /** Moving the entry at i to the front permutes the entries and keeps their keys distinct. */
  lemma TouchPermutes(es: seq<Entry>, i: nat)
    requires i < |es|
    ensures multiset([es[i]] + RemoveAt(es, i)) == multiset(es)
    ensures |[es[i]] + RemoveAt(es, i)| == |es|
  {
    assert es == es[..i] + [es[i]] + es[i + 1..];
  }

  lemma TouchDistinct(es: seq<Entry>, i: nat, e: Entry)
    requires i < |es| && DistinctKeys(es) && e.key == es[i].key
    ensures DistinctKeys([e] + RemoveAt(es, i))
  {
    var t := [e] + RemoveAt(es, i);
    assert forall j :: 1 <= j <= i ==> t[j] == es[j - 1];
    assert forall j :: i < j < |es| ==> t[j] == es[j];
  }

  /** Among distinct keys, a read returns exactly the value stored under the key. */
  lemma GetResultSpec(es: seq<Entry>, key: int, v: string)
    requires DistinctKeys(es)
    ensures GetResult(es, key) == Some(v) <==> Entry(key, v) in es
  {
    if Entry(key, v) in es {
      var j :| 0 <= j < |es| && es[j] == Entry(key, v);
      FindDistinct(es, key, j);
    }
  }

  /** A read hits exactly when the key is stored; it leaves the same entries behind, reordered,
      with the key read now the most recent one. */
  lemma GetSpec(es: seq<Entry>, key: int)
    requires DistinctKeys(es)
    ensures GetResult(es, key).Some? <==> HasKey(es, key)
    ensures multiset(AfterGet(es, key)) == multiset(es)
    ensures DistinctKeys(AfterGet(es, key))
    ensures HasKey(es, key) ==> AfterGet(es, key)[0].key == key
  {
    match Find(es, key)
    case None =>
    case Some(i) =>
      TouchPermutes(es, i);
      TouchDistinct(es, i, es[i]);
  }

  /** Putting a key makes it the most recent entry, with the new value; no key ever appears twice;
      the size stays within a positive capacity and is unchanged when the key was present. */
  lemma PutSpec(es: seq<Entry>, key: int, value: string, capacity: int)
    requires DistinctKeys(es) && 0 < capacity && |es| <= capacity
    ensures AfterPut(es, key, value, capacity)[0] == Entry(key, value)
    ensures DistinctKeys(AfterPut(es, key, value, capacity))
    ensures |AfterPut(es, key, value, capacity)| <= capacity
    ensures HasKey(es, key) ==> |AfterPut(es, key, value, capacity)| == |es|
  {
    match Find(es, key)
    case Some(i) =>
      TouchDistinct(es, i, Entry(key, value));
    case None =>
      var t := AfterPut(es, key, value, capacity);
      assert forall j :: 1 <= j < |t| ==> t[j] == es[j - 1];
  }

  /** Every entry other than the front one after a put was already stored, with its value,
      under a different key. */
  lemma PutKeepsOthers(es: seq<Entry>, key: int, value: string, capacity: int, j: nat)
    requires 0 < j < |AfterPut(es, key, value, capacity)|
    ensures AfterPut(es, key, value, capacity)[j] in es
    ensures DistinctKeys(es) && HasKey(es, key) ==> AfterPut(es, key, value, capacity)[j].key != key
  {
    var t := AfterPut(es, key, value, capacity);
    match Find(es, key)
    case Some(i) =>
      if j <= i {
        assert t[j] == es[j - 1];
        if DistinctKeys(es) {
          assert es[j - 1].key != es[i].key;
        }
      } else {
        assert t[j] == es[j];
        if DistinctKeys(es) {
          assert es[j].key != es[i].key;
        }
      }
    case None =>
      assert t[j] == es[j - 1];
  }

  /** A new key put into a full cache evicts exactly the least recently used entry, the last one;
      every other entry stays. */
  lemma PutEvictsLeastRecent(es: seq<Entry>, key: int, value: string, capacity: int)
    requires DistinctKeys(es) && 0 < capacity && |es| == capacity && !HasKey(es, key)
    ensures AfterPut(es, key, value, capacity) == [Entry(key, value)] + es[..|es| - 1]
    ensures !HasKey(AfterPut(es, key, value, capacity), es[|es| - 1].key)
  {
    var t := AfterPut(es, key, value, capacity);
    var last := es[|es| - 1].key;
    forall j | 0 <= j < |t| ensures t[j].key != last {
      if j == 0 {
        assert es[|es| - 1].key != key;
      } else {
        assert t[j] == es[j - 1];
      }
    }
  }

  /** A doubly linked list node. The sentinels carry a key and value that are never read. */
  class Node {
    const key: int
    var value: string
    var prev: Node?
    var next: Node?

    constructor (key: int, value: string)
      ensures this.key == key && this.value == value && prev == null && next == null
    {
      this.key := key;
      this.value := value;
      prev := null;
      next := null;
    }
  }

  /** No node appears twice in the list. */
  ghost predicate DistinctNodes(ns: seq<Node>)
  {
    forall i, j :: 0 <= i < j < |ns| ==> ns[i] != ns[j]
  }

  /** Every node strictly between the sentinels is stored in the dictionary under its own key,
      and the dictionary has no other entries (it has exactly as many keys as there are nodes). */
  ghost predicate Indexed(ns: seq<Node>, m: map<int, Node>)
  {
    |ns| >= 2 && |m| == |ns| - 2
    && (forall i :: 1 <= i < |ns| - 1 ==> ns[i].key in m && m[ns[i].key] == ns[i])
  }

  /** The entries are the keys and values of the nodes strictly between the sentinels, in order. */
  ghost predicate Mirrors(ns: seq<Node>, es: seq<Entry>)
    reads ns`value
  {
    |ns| == |es| + 2 && forall i :: 0 <= i < |es| ==> es[i] == Entry(ns[i + 1].key, ns[i + 1].value)
  }

  /** The set of keys of entries with distinct keys has one element per entry. */
  lemma {:induction false} KeySetSize(es: seq<Entry>)
    requires DistinctKeys(es)
    ensures |set i | 0 <= i < |es| :: es[i].key| == |es|
    decreases |es|
  {
    if es != [] {
      var init := es[..|es| - 1];
      KeySetSize(init);
      var s := set i | 0 <= i < |es| :: es[i].key;
      var s' := set i | 0 <= i < |init| :: init[i].key;
      assert s == s' + {es[|es| - 1].key} by {
        forall x | x in s ensures x in s' + {es[|es| - 1].key} {
          var i :| 0 <= i < |es| && es[i].key == x;
          if i < |es| - 1 {
            assert init[i].key == x;
          }
        }
      }
      assert es[|es| - 1].key !in s';
    }
  }

  lemma {:induction false} SubsetSize(a: set<int>, b: set<int>)
    requires a <= b
    ensures |a| <= |b|
    decreases b
  {
    if x :| x in a {
      var a', b' := a - {x}, b - {x};
      SubsetSize(a', b');
      assert a == a' + {x};
      assert b == b' + {x};
    } else {
      assert forall y :: y !in a;
      assert a == {};
    }
  }

  /** A key is in the dictionary exactly when some entry carries it; the keys are distinct. */
  lemma IndexedKeys(ns: seq<Node>, m: map<int, Node>, es: seq<Entry>, key: int)
    requires DistinctNodes(ns) && Indexed(ns, m) && Mirrors(ns, es)
    ensures key in m <==> HasKey(es, key)
    ensures DistinctKeys(es)
  {
    forall i, j | 0 <= i < j < |es| ensures es[i].key != es[j].key {
      assert m[ns[i + 1].key] == ns[i + 1];
      assert m[ns[j + 1].key] == ns[j + 1];
    }
    if HasKey(es, key) {
      var j :| 0 <= j < |es| && es[j].key == key;
      assert ns[j + 1].key in m;
    } else if key in m {
      var ks := set i | 0 <= i < |es| :: es[i].key;
      KeySetSize(es);
      assert ks <= m.Keys - {key} by {
        forall x | x in ks ensures x in m.Keys - {key} {
          var i :| 0 <= i < |es| && es[i].key == x;
          assert ns[i + 1].key in m;
        }
      }
      SubsetSize(ks, m.Keys - {key});
      assert false;
    }
  }

  /** Moving the node at position i to the front keeps the dictionary and the entries in step. */
  lemma StoredAfterTouch(ns: seq<Node>, m: map<int, Node>, es: seq<Entry>, i: nat, e: Entry)
    requires Indexed(ns, m) && 1 <= i < |ns| - 1
    requires |ns| == |es| + 2 && e == Entry(ns[i].key, ns[i].value)
    requires forall j :: 0 <= j < |es| && j != i - 1 ==> es[j] == Entry(ns[j + 1].key, ns[j + 1].value)
    ensures Indexed([ns[0], ns[i]] + (ns[1..i] + ns[i + 1..]), m)
    ensures Mirrors([ns[0], ns[i]] + (ns[1..i] + ns[i + 1..]), [e] + RemoveAt(es, i - 1))
  {
    var t := [ns[0], ns[i]] + (ns[1..i] + ns[i + 1..]);
    assert |t| == |ns|;
    assert t[1] == ns[i];
    assert forall j :: 2 <= j <= i ==> t[j] == ns[j - 1];
    assert forall j :: i < j < |ns| ==> t[j] == ns[j];
  }

  /** Unlinking the last real node and deleting its key keeps the dictionary and entries in step. */
  lemma StoredAfterEvict(ns: seq<Node>, m: map<int, Node>, es: seq<Entry>)
    requires DistinctNodes(ns) && Indexed(ns, m) && Mirrors(ns, es) && |ns| > 2
    ensures Indexed(ns[..|ns| - 2] + ns[|ns| - 1..], m - {ns[|ns| - 2].key})
    ensures Mirrors(ns[..|ns| - 2] + ns[|ns| - 1..], es[..|es| - 1])
  {
    var t := ns[..|ns| - 2] + ns[|ns| - 1..];
    var gone := ns[|ns| - 2];
    var m' := m - {gone.key};
    assert gone.key in m;
    assert |m'| == |m| - 1;
    assert forall j :: 0 <= j < |ns| - 2 ==> t[j] == ns[j];
    forall j | 1 <= j < |t| - 1 ensures t[j].key in m' && m'[t[j].key] == t[j] {
      assert m[ns[j].key] == ns[j];
      assert t[j] == ns[j];
    }
  }

  /** Linking a fresh node under a new key at the front keeps the dictionary and entries in step. */
  lemma StoredAfterInsert(ns: seq<Node>, m: map<int, Node>, es: seq<Entry>, n: Node)
    requires Indexed(ns, m) && Mirrors(ns, es) && n !in ns && n.key !in m
    ensures Indexed([ns[0], n] + ns[1..], m[n.key := n])
    ensures Mirrors([ns[0], n] + ns[1..], [Entry(n.key, n.value)] + es)
  {
    var t := [ns[0], n] + ns[1..];
    assert forall j :: 2 <= j < |t| ==> t[j] == ns[j - 1];
  }

  class LruCache {
    const capacity: int
    var cache: map<int, Node>
    const head: Node
    const tail: Node
    /** The whole list from head sentinel to tail sentinel. */
    ghost var nodes: seq<Node>
    /** The cached entries, most recently used first. */
    ghost var entries: seq<Entry>

    /** `nodes` is a well-linked list from head to tail without repeated nodes. */
    ghost predicate Linked()
      reads this`nodes, nodes`prev, nodes`next
    {
      |nodes| >= 2 && nodes[0] == head && nodes[|nodes| - 1] == tail
      && DistinctNodes(nodes)
      && (forall i :: 0 <= i < |nodes| - 1 ==> nodes[i].next == nodes[i + 1] && nodes[i + 1].prev == nodes[i])
    }

    ghost predicate Valid()
      reads this, nodes
    {
      Linked() && 0 < capacity && |entries| <= capacity
      && Indexed(nodes, cache) && Mirrors(nodes, entries)
    }

    /** An empty cache; the positive capacity is checked by NewCache. */
    constructor (capacity: int)
      requires 0 < capacity
      ensures Valid() && entries == [] && this.capacity == capacity
      ensures fresh(nodes[0]) && fresh(nodes[1])
    {
      this.capacity := capacity;
      cache := map[];
      var h := new Node(0, "");
      var t := new Node(0, "");
      h.next := t;
      t.prev := h;
      head := h;
      tail := t;
      nodes := [h, t];
      entries := [];
    }

    /** Links node right after the head sentinel. */
    method AddToHead(node: Node)
      requires Linked() && node !in nodes
      modifies this`nodes, node`prev, node`next, nodes`prev, nodes`next
      ensures Linked()
      ensures nodes == [old(nodes)[0], node] + old(nodes)[1..]
    {
      ghost var o := nodes;
      assert head.next == o[1];
      node.prev := head;
      node.next := head.next;
      head.next.prev := node;
      head.next := node;
      nodes := [head, node] + nodes[1..];
      assert forall j :: 2 <= j < |nodes| ==> nodes[j] == o[j - 1];
    }

    /** Unlinks the node at position i, which is neither sentinel. */
    method RemoveNode(node: Node, ghost i: nat)
      requires Linked() && 0 < i < |nodes| - 1 && nodes[i] == node
      modifies this`nodes, nodes`prev, nodes`next
      ensures Linked()
      ensures nodes == old(nodes[..i] + nodes[i + 1..])
    {
      ghost var o := nodes;
      assert node.prev == o[i - 1] && node.next == o[i + 1];
      node.prev.next := node.next;
      node.next.prev := node.prev;
      nodes := nodes[..i] + nodes[i + 1..];
      assert forall j :: 0 <= j < i ==> nodes[j] == o[j];
      assert forall j :: i <= j < |nodes| ==> nodes[j] == o[j + 1];
    }

    /** Moves the node at position i to the front of the list. */
    method MoveToHead(node: Node, ghost i: nat)
      requires Linked() && 0 < i < |nodes| - 1 && nodes[i] == node
      modifies this`nodes, nodes`prev, nodes`next
      ensures Linked()
      ensures nodes == [old(nodes)[0], node] + old(nodes[1..i] + nodes[i + 1..])
    {
      RemoveNode(node, i);
      AddToHead(node);
    }

    /** Unlinks and returns the least recently used node, the one before the tail sentinel. */
    method RemoveTail() returns (node: Node)
      requires Linked() && |nodes| > 2
      modifies this`nodes, nodes`prev, nodes`next
      ensures Linked()
      ensures node == old(nodes[|nodes| - 2]) && nodes == old(nodes[..|nodes| - 2] + nodes[|nodes| - 1..])
    {
      assert tail.prev == nodes[|nodes| - 2];
      node := tail.prev;
      RemoveNode(node, |nodes| - 2);
    }

    /** Makes the node at entry position p the most recently used. */
    method Touch(node: Node, ghost p: nat)
      requires Valid() && p < |entries| && nodes[p + 1] == node
      modifies this`nodes, this`entries, nodes`prev, nodes`next
      ensures Valid()
      ensures entries == [old(entries)[p]] + RemoveAt(old(entries), p)
    {
      ghost var o := nodes;
      MoveToHead(node, p + 1);
      StoredAfterTouch(o, cache, entries, p + 1, entries[p]);
      entries := [entries[p]] + RemoveAt(entries, p);
    }

    /** Returns the value under key and makes it the most recently used; None on a miss. */
    method Get(key: int) returns (r: Option<string>)
      requires Valid()
      modifies this`nodes, this`entries, nodes`prev, nodes`next
      ensures Valid()
      ensures r == GetResult(old(entries), key)
      ensures entries == AfterGet(old(entries), key)
    {
      IndexedKeys(nodes, cache, entries, key);
      if key in cache {
        var node := cache[key];
        ghost var p :| 0 <= p < |entries| && entries[p].key == key;
        FindDistinct(entries, key, p);
        r := Some(node.value);
        Touch(node, p);
      } else {
        r := None;
      }
    }

    /** Overwrites the value held by the node at entry position p, leaving the list as it is. */
    method SetValue(node: Node, ghost p: nat, value: string)
      requires Linked() && Mirrors(nodes, entries) && p < |entries| && nodes[p + 1] == node
      modifies node`value, this`entries
      ensures Linked() && Mirrors(nodes, entries)
      ensures entries == old(entries)[p := Entry(node.key, value)]
    {
      node.value := value;
      entries := entries[p := Entry(node.key, value)];
      forall j | 0 <= j < |entries| && j != p
        ensures entries[j] == Entry(nodes[j + 1].key, nodes[j + 1].value)
      {
        assert nodes[j + 1] != nodes[p + 1];
      }
    }

    /** Unlinks the least recently used node and deletes its key from the dictionary. */
    method EvictLeastRecent()
      requires Valid() && entries != []
      modifies this`nodes, this`entries, this`cache, nodes`prev, nodes`next
      ensures Valid()
      ensures entries == old(entries[..|entries| - 1])
      ensures cache == old(cache - {entries[|entries| - 1].key})
      ensures nodes == old(nodes[..|nodes| - 2] + nodes[|nodes| - 1..])
    {
      ghost var o := nodes;
      var removed := RemoveTail();
      StoredAfterEvict(o, cache, entries);
      cache := cache - {removed.key};
      entries := entries[..|entries| - 1];
    }

    /** Creates a node for a key not yet cached, stores it in the dictionary and links it first. */
    method InsertAtHead(key: int, value: string)
      requires Valid() && key !in cache && |entries| < capacity
      modifies this`nodes, this`entries, this`cache, nodes`prev, nodes`next
      ensures Valid()
      ensures entries == [Entry(key, value)] + old(entries)
    {
      var newNode := new Node(key, value);
      ghost var o := nodes;
      StoredAfterInsert(o, cache, entries, newNode);
      cache := cache[key := newNode];
      AddToHead(newNode);
      entries := [Entry(key, value)] + entries;
    }

    /** Gives the node at entry position p its new value and makes it the most recently used. */
    method Refresh(node: Node, ghost p: nat, value: string)
      requires Valid() && p < |entries| && nodes[p + 1] == node
      modifies this`nodes, this`entries, nodes`prev, nodes`next, nodes`value
      ensures Valid()
      ensures entries == [Entry(node.key, value)] + RemoveAt(old(entries), p)
    {
      SetValue(node, p, value);
      Touch(node, p);
    }

    /** Stores a key not yet cached as the most recently used entry, evicting the least recently
        used entry first when the cache is full. */
    method PutAbsent(key: int, value: string)
      requires Valid() && key !in cache
      modifies this`nodes, this`entries, this`cache, nodes`prev, nodes`next
      ensures Valid()
      ensures entries == if |old(entries)| >= capacity then [Entry(key, value)] + old(entries)[..|old(entries)| - 1]
        else [Entry(key, value)] + old(entries)
    {
      if |cache| >= capacity {
        EvictLeastRecent();
      }
      InsertAtHead(key, value);
    }

    /** Stores value under key as the most recently used entry, evicting the least recently used
        entry first when a new key arrives at a full cache. */
    method Put(key: int, value: string)
      requires Valid()
      modifies this`nodes, this`entries, this`cache, nodes`prev, nodes`next, nodes`value
      ensures Valid()
      ensures entries == AfterPut(old(entries), key, value, capacity)
    {
      IndexedKeys(nodes, cache, entries, key);
      if key in cache {
        var node := cache[key];
        ghost var p :| 0 <= p < |entries| && entries[p].key == key;
        FindDistinct(entries, key, p);
        Refresh(node, p, value);
      } else {
        PutAbsent(key, value);
      }
    }
  }

  /** The constructor: a capacity that is not positive raises ValueError. */
  method NewCache(capacity: int) returns (r: Result<LruCache, CacheError>)
    ensures capacity <= 0 <==> r.Err?
    ensures r.Ok? ==> fresh(r.value) && r.value.Valid() && r.value.entries == [] && r.value.capacity == capacity
  {
    if capacity <= 0 {
      return Err(ValueError);
    }
    var c := new LruCache(capacity);
    r := Ok(c);
  }

  /** The first three puts of the demonstration fill a cache of capacity 3. */
  lemma DemoFill(v1: Entry, v2: Entry, v3: Entry)
    requires v1.key == 1 && v2.key == 2 && v3.key == 3
    ensures AfterPut(AfterPut(AfterPut([], 1, v1.value, 3), 2, v2.value, 3), 3, v3.value, 3)
      == [v3, v2, v1]
  {
    assert AfterPut([], 1, v1.value, 3) == [v1];
    assert Find([v1], 2) == None;
    assert AfterPut([v1], 2, v2.value, 3) == [v2, v1];
    assert Find([v2, v1], 3) == None;
  }

  /** Reading keys 1 and 2 moves them to the front, leaving 3 the least recent. */
  lemma DemoTouch(v1: Entry, v2: Entry, v3: Entry)
    requires v1.key == 1 && v2.key == 2 && v3.key == 3
    ensures GetResult([v3, v2, v1], 1) == Some(v1.value)
    ensures AfterGet([v3, v2, v1], 1) == [v1, v3, v2]
    ensures GetResult([v1, v3, v2], 2) == Some(v2.value)
    ensures AfterGet([v1, v3, v2], 2) == [v2, v1, v3]
  {
    assert [v3, v2, v1][1..] == [v2, v1] && [v2, v1][1..] == [v1];
    assert Find([v2, v1], 1) == Some(1);
    assert Find([v3, v2, v1], 1) == Some(2);
    assert [v1, v3, v2][1..] == [v3, v2] && [v3, v2][1..] == [v2];
    assert Find([v3, v2], 2) == Some(1);
    assert Find([v1, v3, v2], 2) == Some(2);
  }

  /** Putting key 4 evicts key 3; reading 3 then misses and reading 4 hits. */
  lemma DemoEvict(v1: Entry, v2: Entry, v3: Entry, v4: Entry)
    requires v1.key == 1 && v2.key == 2 && v3.key == 3 && v4.key == 4
    ensures AfterPut([v2, v1, v3], 4, v4.value, 3) == [v4, v2, v1]
    ensures GetResult([v4, v2, v1], 3) == None && AfterGet([v4, v2, v1], 3) == [v4, v2, v1]
    ensures GetResult([v4, v2, v1], 4) == Some(v4.value) && AfterGet([v4, v2, v1], 4) == [v4, v2, v1]
  {
    assert Find([v2, v1, v3], 4) == None;
    assert Find([v4, v2, v1], 3) == None;
    assert Find([v4, v2, v1], 4) == Some(0);
  }

  /** Putting key 2 again replaces its value and moves it to the front; 1 is still stored. */
  lemma DemoUpdate(v1: Entry, v2: Entry, v4: Entry, u2: Entry)
    requires v1.key == 1 && v2.key == 2 && v4.key == 4 && u2.key == 2
    ensures AfterPut([v4, v2, v1], 2, u2.value, 3) == [u2, v4, v1]
    ensures GetResult([u2, v4, v1], 1) == Some(v1.value)
    ensures AfterGet([u2, v4, v1], 1) == [v1, u2, v4]
    ensures GetResult([v1, u2, v4], 2) == Some(u2.value)
  {
    assert Find([v4, v2, v1], 2) == Some(1);
    assert [u2, v4, v1][1..] == [v4, v1] && [v4, v1][1..] == [v1];
    assert Find([v4, v1], 1) == Some(1);
    assert Find([u2, v4, v1], 1) == Some(2);
    assert Find([v1, u2, v4], 2) == Some(1);
  }

  /** The demonstration run at capacity 3: after put 1, 2, 3, get 1, get 2 and put 4, key 3 has
      been evicted while 1, 2 and 4 remain; putting 2 again replaces its value. */
  lemma DemoRun()
    ensures
      var e0 := AfterPut(AfterPut(AfterPut([], 1, "1", 3), 2, "2", 3), 3, "3", 3);
      var e1 := AfterGet(AfterGet(e0, 1), 2);
      var e2 := AfterPut(e1, 4, "4", 3);
      var e3 := AfterGet(AfterGet(e2, 3), 4);
      var e4 := AfterPut(e3, 2, "23", 3);
      GetResult(e0, 1) == Some("1") && GetResult(AfterGet(e0, 1), 2) == Some("2")
      && GetResult(e2, 3) == None && GetResult(AfterGet(e2, 3), 4) == Some("4")
      && GetResult(e4, 1) == Some("1")
      && GetResult(AfterGet(e4, 1), 2) == Some("23")
  {
    var v1, v2, v3, v4 := Entry(1, "1"), Entry(2, "2"), Entry(3, "3"), Entry(4, "4");
    var u2 := Entry(2, "23");
    DemoFill(v1, v2, v3);
    DemoTouch(v1, v2, v3);
    DemoEvict(v1, v2, v3, v4);
    DemoUpdate(v1, v2, v4, u2);
  }
}
