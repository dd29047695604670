/**
 * The process-wide client cache on the heap (src/kms_aws.cc, `ProcessState`, `touch_lru`,
 * `cached_client`, `publish_client`): a doubly linked recency list and a hash map whose entries hold
 * iterators into it.  Each method is one critical section under `clients_mutex`.
 */
module ClientCache {
  import opened Bytes
  import opened ClientKey
  import opened LruCache

  /** A node of `std::list<ClientKey>`; an iterator is a reference to one. */
  class Node {
    const key: ClientKey
    var prev: Node?
    var next: Node?

    constructor (key: ClientKey)
      ensures this.key == key && prev == null && next == null
    {
      this.key := key;
      prev, next := null, null;
    }
  }

  class LruList {
    var head: Node?
    var tail: Node?
    ghost var nodes: seq<Node>

    ghost predicate Valid()
      reads this, nodes
    {
      && (head == if nodes == [] then null else nodes[0])
      && (tail == if nodes == [] then null else nodes[|nodes| - 1])
      && (forall i :: 0 <= i < |nodes| ==> Linked(i))
      && (forall i, j :: 0 <= i < j < |nodes| ==> nodes[i] != nodes[j])
    }

    ghost predicate Linked(i: nat)
      requires i < |nodes|
      reads this, nodes
    {
      && nodes[i].prev == (if i == 0 then null else nodes[i - 1])
      && nodes[i].next == (if i == |nodes| - 1 then null else nodes[i + 1])
    }

    constructor ()
      ensures Valid() && nodes == []
    {
      head, tail := null, null;
      nodes := [];
    }

    method PushFront(key: ClientKey) returns (n: Node)
      requires Valid()
      modifies this, nodes
      ensures Valid() && fresh(n) && n.key == key
      ensures nodes == [n] + old(nodes)
    {
      n := new Node(key);
      n.next := head;
      if head != null {
        head.prev := n;
      } else {
        tail := n;
      }
      head := n;
      nodes := [n] + nodes;
      assert forall i :: 1 <= i < |nodes| ==> nodes[i] == old(nodes)[i - 1] && old(Linked(i - 1));
    }

    method PopBack()
      requires Valid() && nodes != []
      modifies this, nodes
      ensures Valid() && nodes == old(nodes)[..|old(nodes)| - 1]
    {
      ghost var last := |nodes| - 1;
      assert Linked(last);
      tail := tail.prev;
      nodes := nodes[..last];
      if tail != null {
        tail.next := null;
      } else {
        head := null;
      }
      forall i | 0 <= i < last
        ensures Linked(i)
      {
        assert old(Linked(i)) && nodes[i] == old(nodes)[i];
        assert i < last - 1 ==> nodes[i] != nodes[last - 1];
      }
    }

    /** `splice(begin, *this, n)`: unlink the node where it stands and relink it in front. */
    method SpliceFront(n: Node, ghost at: nat)
      requires Valid() && at < |nodes| && nodes[at] == n
      modifies this, nodes
      ensures Valid() && nodes == [n] + old(nodes)[..at] + old(nodes)[at + 1..]
    {
      if n == head {
        assert at == 0;
        return;
      }
      assert Linked(at) && Linked(at - 1) && Linked(0);
      assert at < |nodes| - 1 ==> Linked(at + 1);
      ghost var before := nodes;
      n.prev.next := n.next;
      if n.next != null {
        n.next.prev := n.prev;
      } else {
        tail := n.prev;
      }
      n.prev := null;
      n.next := head;
      head.prev := n;
      head := n;
      nodes := [n] + before[..at] + before[at + 1..];
      forall i | 0 <= i < |nodes|
        ensures Linked(i)
      {
        if 1 <= i <= at {
          assert nodes[i] == before[i - 1] && old(Linked(i - 1));
        } else if at < i {
          assert nodes[i] == before[i] && old(Linked(i));
        }
      }
    }
  }

  datatype Entry = Entry(client: Client, lru: Node)

  // ---------------------------------------------------------------- list and map together

  ghost predicate Filed(nodes: seq<Node>, clients: map<ClientKey, Entry>, i: nat)
    requires i < |nodes|
  {
    nodes[i].key in clients && clients[nodes[i].key].lru == nodes[i]
  }

  /** The list and the map hold the same keys, and every stored iterator points at its own key's node. */
  ghost predicate Consistent(nodes: seq<Node>, clients: map<ClientKey, Entry>) {
    && |nodes| <= MAX_CLIENTS
    && (forall i, j :: 0 <= i < j < |nodes| ==> nodes[i].key != nodes[j].key)
    && (forall i :: 0 <= i < |nodes| ==> Filed(nodes, clients, i))
    && (forall k :: k in clients ==> Resident(nodes, clients[k].lru, k))
  }

  ghost predicate Resident(nodes: seq<Node>, n: Node, key: ClientKey) {
    n in nodes && n.key == key
  }

  ghost function SlotOf(n: Node, clients: map<ClientKey, Entry>): Slot
    requires n.key in clients
  {
    Slot(n.key, clients[n.key].client)
  }

  /** The cache as a sequence, most recent first. */
  ghost function View(nodes: seq<Node>, clients: map<ClientKey, Entry>): (m: Mru)
    requires Consistent(nodes, clients)
    ensures |m| == |nodes|
    ensures forall i {:trigger m[i]} :: 0 <= i < |m| ==> Filed(nodes, clients, i) && m[i] == SlotOf(nodes[i], clients)
  {
    seq(|nodes|, i requires 0 <= i < |nodes| && Filed(nodes, clients, i) => SlotOf(nodes[i], clients))
  }

  lemma ViewWellFormed(nodes: seq<Node>, clients: map<ClientKey, Entry>)
    requires Consistent(nodes, clients)
    ensures WellFormed(View(nodes, clients))
  {
  }

  /** A key of the map stands in the list where its iterator says, and nowhere before. */
  lemma PositionOf(nodes: seq<Node>, clients: map<ClientKey, Entry>, key: ClientKey) returns (i: nat)
    requires Consistent(nodes, clients) && key in clients
    ensures i < |nodes| && nodes[i] == clients[key].lru && i == Find(View(nodes, clients), key)
  {
    assert Resident(nodes, clients[key].lru, key);
    i :| 0 <= i < |nodes| && nodes[i] == clients[key].lru;
    var found := Find(View(nodes, clients), key);
    assert View(nodes, clients)[i].key == key;
    assert found <= i && View(nodes, clients)[found].key == nodes[found].key;
  }

  lemma AbsentKey(nodes: seq<Node>, clients: map<ClientKey, Entry>, key: ClientKey)
    requires Consistent(nodes, clients) && key !in clients
    ensures Find(View(nodes, clients), key) == |nodes|
  {
  }

  /** `clients.size()` is the length of the list. */
  lemma SizesAgree(nodes: seq<Node>, clients: map<ClientKey, Entry>)
    requires Consistent(nodes, clients)
    ensures |clients| == |nodes| <= MAX_CLIENTS
  {
    var keys := Keys(View(nodes, clients));
    ViewWellFormed(nodes, clients);
    forall k | k in clients.Keys
      ensures k in keys
    {
      var i := PositionOf(nodes, clients, k);
      assert keys[i] == k;
    }
    assert forall i :: 0 <= i < |keys| ==> Filed(nodes, clients, i) && keys[i] in clients;
    assert clients.Keys == set k | k in keys;
    DistinctSize(keys, clients.Keys);
  }

  lemma {:induction false} DistinctSize(keys: seq<ClientKey>, s: set<ClientKey>)
    requires DistinctSeq(keys) && s == set k | k in keys
    ensures |s| == |keys|
  {
    if keys != [] {
      var rest := keys[1..];
      assert keys == [keys[0]] + rest;
      assert s - {keys[0]} == set k | k in rest;
      DistinctSize(rest, s - {keys[0]});
    }
  }

  /** Where the i-th element stood before the `at`-th moved to the front. */
  function Source(i: nat, at: nat): nat {
    if i == 0 then at else if i <= at then i - 1 else i
  }

  ghost function Spliced<T>(s: seq<T>, at: nat): (r: seq<T>)
    requires at < |s|
    ensures |r| == |s| && forall i :: 0 <= i < |s| ==> Source(i, at) < |s| && r[i] == s[Source(i, at)]
  {
    [s[at]] + s[..at] + s[at + 1..]
  }

  lemma SplicedHasAll<T>(s: seq<T>, at: nat, x: T)
    requires at < |s| && x in s
    ensures x in Spliced(s, at)
  {
    var i :| 0 <= i < |s| && s[i] == x;
    assert Spliced(s, at)[if i == at then 0 else if i < at then i + 1 else i] == x;
  }

  /** Moving a node to the front is `Touch`. */
  lemma MoveToFront(nodes: seq<Node>, clients: map<ClientKey, Entry>, at: nat)
    requires Consistent(nodes, clients) && at < |nodes|
    ensures Consistent(Spliced(nodes, at), clients)
    ensures View(Spliced(nodes, at), clients) == Touch(View(nodes, clients), at)
  {
    SplicedConsistent(nodes, clients, at);
    var m := View(nodes, clients);
    assert Touch(m, at) == Spliced(m, at);
    forall i | 0 <= i < |nodes|
      ensures View(Spliced(nodes, at), clients)[i] == Spliced(m, at)[i]
    {
      assert m[Source(i, at)] == SlotOf(nodes[Source(i, at)], clients);
    }
  }

  lemma SplicedConsistent(nodes: seq<Node>, clients: map<ClientKey, Entry>, at: nat)
    requires Consistent(nodes, clients) && at < |nodes|
    ensures Consistent(Spliced(nodes, at), clients)
  {
    var nodes' := Spliced(nodes, at);
    forall i | 0 <= i < |nodes'|
      ensures Filed(nodes', clients, i)
    {
      assert Filed(nodes, clients, Source(i, at));
    }
    forall k | k in clients
      ensures Resident(nodes', clients[k].lru, k)
    {
      assert Resident(nodes, clients[k].lru, k);
      SplicedHasAll(nodes, at, clients[k].lru);
    }
    forall i, j | 0 <= i < j < |nodes'|
      ensures nodes'[i].key != nodes'[j].key
    {
      assert nodes[Source(i, at)].key != nodes[Source(j, at)].key;
    }
  }

  lemma DropLast(nodes: seq<Node>, clients: map<ClientKey, Entry>)
    requires Consistent(nodes, clients) && nodes != []
    ensures var last := |nodes| - 1;
      && nodes[last].key in clients && clients[nodes[last].key].client == View(nodes, clients)[last].client
      && Consistent(nodes[..last], clients - {nodes[last].key})
      && View(nodes[..last], clients - {nodes[last].key}) == View(nodes, clients)[..last]
  {
    var last := |nodes| - 1;
    var key := nodes[last].key;
    var rest := clients - {key};
    assert Filed(nodes, clients, last);
    forall i | 0 <= i < last
      ensures Filed(nodes[..last], rest, i)
    {
      assert Filed(nodes, clients, i);
    }
    forall k | k in rest
      ensures Resident(nodes[..last], rest[k].lru, k)
    {
      var i := PositionOf(nodes, clients, k);
      assert nodes[..last][i] == rest[k].lru;
    }
  }

  lemma AddFirst(nodes: seq<Node>, clients: map<ClientKey, Entry>, n: Node, candidate: Client)
    requires Consistent(nodes, clients) && |nodes| < MAX_CLIENTS && n.key !in clients
    ensures Consistent([n] + nodes, clients[n.key := Entry(candidate, n)])
    ensures View([n] + nodes, clients[n.key := Entry(candidate, n)]) == [Slot(n.key, candidate)] + View(nodes, clients)
  {
    var nodes' := [n] + nodes;
    var clients' := clients[n.key := Entry(candidate, n)];
    forall i | 0 <= i < |nodes'|
      ensures Filed(nodes', clients', i)
    {
      if i > 0 {
        assert nodes'[i] == nodes[i - 1] && Filed(nodes, clients, i - 1);
      }
    }
    forall k | k in clients'
      ensures Resident(nodes', clients'[k].lru, k)
    {
      if k != n.key {
        var i := PositionOf(nodes, clients, k);
        assert nodes'[i + 1] == nodes[i];
      }
    }
    assert forall i :: 1 <= i < |nodes'| ==> nodes'[i] == nodes[i - 1] && Filed(nodes, clients, i - 1);
  }

  // ---------------------------------------------------------------- the cache

  class ProcessState {
    const lru: LruList
    var clients: map<ClientKey, Entry>

    ghost predicate Valid()
      reads this, lru, lru.nodes
    {
      lru.Valid() && Consistent(lru.nodes, clients)
    }

    ghost function Contents(): Mru
      requires Valid()
      reads this, lru, lru.nodes
    {
      View(lru.nodes, clients)
    }

    constructor ()
      ensures Valid() && Contents() == []
    {
      lru := new LruList();
      clients := map[];
    }

    /** The entry's iterator is reassigned too, to what it already is. */
    method TouchLru(key: ClientKey, ghost at: nat)
      requires lru.Valid() && key in clients && at < |lru.nodes| && lru.nodes[at] == clients[key].lru
      modifies this, lru, lru.nodes
      ensures lru.Valid() && lru.nodes == Spliced(old(lru.nodes), at) && clients == old(clients)
    {
      var entry := clients[key];
      lru.SpliceFront(entry.lru, at);
      assert entry.(lru := lru.head) == entry && clients[key := entry] == clients;
      clients := clients[key := entry.(lru := lru.head)];
    }

    /** `find`, and on a hit `touch_lru`. */
    method FindAndTouch(key: ClientKey) returns (client: Option<Client>)
      requires Valid()
      modifies this, lru, lru.nodes
      ensures Valid() && clients == old(clients) && (client.None? <==> key !in clients)
      ensures client.None? ==> lru.nodes == old(lru.nodes)
      ensures Looked(client, Contents()) == Lookup(old(Contents()), key)
    {
      if key !in clients {
        AbsentKey(lru.nodes, clients, key);
        return None;
      }
      ghost var at := PositionOf(lru.nodes, clients, key);
      MoveToFront(lru.nodes, clients, at);
      TouchLru(key, at);
      client := Some(clients[key].client);
    }

    method CachedClient(key: ClientKey) returns (client: Option<Client>)
      requires Valid()
      modifies this, lru, lru.nodes
      ensures Valid() && Looked(client, Contents()) == Lookup(old(Contents()), key)
    {
      client := FindAndTouch(key);
    }

    /** `evicted` is the client handed to its destructor once the lock is released. */
    method PublishClient(key: ClientKey, candidate: Client) returns (client: Client, evicted: Option<Client>)
      requires Valid()
      modifies this, lru, lru.nodes
      ensures Valid() && Published(client, evicted, Contents()) == Publish(old(Contents()), key, candidate)
    {
      hide Consistent, Find, Touch;
      var found := FindAndTouch(key);
      if found.Some? {
        return found.value, None;
      }
      evicted := None;
      SizesAgree(lru.nodes, clients);
      if |clients| == MAX_CLIENTS {
        DropLast(lru.nodes, clients);
        evicted := EvictOldest();
      }
      Insert(key, candidate);
      client := candidate;
    }

    /** The lookup of the oldest key never misses, so the map shrinks with the list. */
    method EvictOldest() returns (evicted: Option<Client>)
      requires Valid() && lru.nodes != []
      modifies this, lru, lru.nodes
      ensures lru.Valid() && lru.nodes == old(lru.nodes)[..|old(lru.nodes)| - 1]
      ensures var oldest := old(lru.nodes)[|old(lru.nodes)| - 1].key;
        && oldest in old(clients) && evicted == Some(old(clients)[oldest].client)
        && clients == old(clients) - {oldest}
    {
      assert Filed(lru.nodes, clients, |lru.nodes| - 1);
      var oldest := lru.tail.key;
      evicted := None;
      if oldest in clients {
        evicted := Some(clients[oldest].client);
        clients := clients - {oldest};
      }
      lru.PopBack();
    }

    method Insert(key: ClientKey, candidate: Client)
      requires Valid() && key !in clients && |lru.nodes| < MAX_CLIENTS
      modifies this, lru, lru.nodes
      ensures Valid() && Contents() == [Slot(key, candidate)] + old(Contents())
    {
      ghost var before := lru.nodes;
      var n := lru.PushFront(key);
      AddFirst(before, clients, n, candidate);
      clients := clients[key := Entry(candidate, n)];
    }
  }
}
