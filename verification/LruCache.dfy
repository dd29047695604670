/** The meaning of the bounded client cache: a most-recent-first sequence without repeated keys. */
module LruCache {
  import opened Bytes
  import opened ClientKey

  /** A `shared_ptr` to a KMS client, by identity. */
  type Client = nat

  const MAX_CLIENTS := 64

  datatype Slot = Slot(key: ClientKey, client: Client)

  type Mru = seq<Slot>

  predicate DistinctKeys(m: Mru) {
    forall i, j :: 0 <= i < j < |m| ==> m[i].key != m[j].key
  }

  ghost predicate WellFormed(m: Mru) {
    DistinctKeys(m) && |m| <= MAX_CLIENTS
  }

  function Find(m: Mru, key: ClientKey): (i: nat)
    ensures i <= |m|
    ensures i < |m| ==> m[i].key == key
    ensures forall j :: 0 <= j < i ==> m[j].key != key
  {
    if m == [] || m[0].key == key then 0 else 1 + Find(m[1..], key)
  }

  /** splice(begin, it): the slot moves to the front, the others keep their order. */
  function Touch(m: Mru, i: nat): Mru
    requires i < |m|
  {
    [m[i]] + m[..i] + m[i + 1..]
  }

  datatype Looked = Looked(client: Option<Client>, mru: Mru)

  function Lookup(m: Mru, key: ClientKey): Looked {
    var i := Find(m, key);
    if i == |m| then Looked(None, m) else Looked(Some(m[i].client), Touch(m, i))
  }

  datatype Published = Published(client: Client, evicted: Option<Client>, mru: Mru)

  function Publish(m: Mru, key: ClientKey, candidate: Client): Published {
    var i := Find(m, key);
    if i < |m| then Published(m[i].client, None, Touch(m, i))
    else if |m| == MAX_CLIENTS then
      Published(candidate, Some(m[|m| - 1].client), [Slot(key, candidate)] + m[..|m| - 1])
    else Published(candidate, None, [Slot(key, candidate)] + m)
  }

  lemma TouchWellFormed(m: Mru, i: nat)
    requires WellFormed(m) && i < |m|
    ensures WellFormed(Touch(m, i)) && |Touch(m, i)| == |m|
    ensures forall s :: s in Touch(m, i) <==> s in m
  {
    assert m == m[..i] + [m[i]] + m[i + 1..];
  }

  /**
   * Both operations keep the cache bounded and free of repeated keys.  Every other key keeps its
   * client, except that a full cache gives up its least recent slot.
   */
  lemma OperationsKeepWellFormed(m: Mru, key: ClientKey, candidate: Client)
    requires WellFormed(m)
    ensures WellFormed(Lookup(m, key).mru) && WellFormed(Publish(m, key, candidate).mru)
    ensures forall s :: s in Lookup(m, key).mru <==> s in m
    ensures var p := Publish(m, key, candidate);
      && (forall s :: s in p.mru ==> s in m || (s == Slot(key, candidate) && Find(m, key) == |m|))
      && (forall s :: s in m ==> s in p.mru || (|m| == MAX_CLIENTS && s == m[|m| - 1] && p.evicted == Some(s.client)))
  {
    var i := Find(m, key);
    if i < |m| {
      TouchWellFormed(m, i);
    }
  }

  /**
   * Publishing returns the client that is resident for the key afterwards: a second publisher gets the
   * first one's client, and an immediate lookup by anyone finds that same client.
   */
  lemma PublishReturnsResident(m: Mru, key: ClientKey, candidate: Client)
    requires WellFormed(m)
    ensures var p := Publish(m, key, candidate);
      && Lookup(p.mru, key) == Looked(Some(p.client), p.mru)
      && p.mru[0] == Slot(key, p.client)
      && p.client == OrElse(Lookup(m, key).client, candidate)
  {
    var p := Publish(m, key, candidate);
    assert p.mru[0] == Slot(key, p.client);
    assert Find(p.mru, key) == 0;
    assert Touch(p.mru, 0) == p.mru;
  }

  function OrElse(value: Option<Client>, default: Client): Client {
    match value
    case Some(c) => c
    case None => default
  }

  // ---------------------------------------------------------------- least recently used

  function Keys(m: Mru): (ks: seq<ClientKey>)
    ensures |ks| == |m| && forall i :: 0 <= i < |m| ==> ks[i] == m[i].key
  {
    seq(|m|, i requires 0 <= i < |m| => m[i].key)
  }

  function Without(ks: seq<ClientKey>, key: ClientKey): seq<ClientKey> {
    if ks == [] then [] else if ks[0] == key then Without(ks[1..], key) else [ks[0]] + Without(ks[1..], key)
  }

  lemma {:induction false} WithoutAbsent(ks: seq<ClientKey>, key: ClientKey)
    requires key !in ks
    ensures Without(ks, key) == ks
  {
    if ks != [] {
      WithoutAbsent(ks[1..], key);
    }
  }

  datatype Op = Look(key: ClientKey) | Pub(key: ClientKey, candidate: Client)

  function Apply(m: Mru, op: Op): Mru {
    match op
    case Look(key) => Lookup(m, key).mru
    case Pub(key, candidate) => Publish(m, key, candidate).mru
  }

  function ApplyAll(ops: seq<Op>): Mru {
    if ops == [] then [] else Apply(ApplyAll(ops[..|ops| - 1]), ops[|ops| - 1])
  }

  function Prefix(ks: seq<ClientKey>, n: nat): seq<ClientKey> {
    if |ks| <= n then ks else ks[..n]
  }

  /**
   * The reference: an unbounded list of all keys ever published, most recent use first, where a
   * lookup is a use if it asks for one of the first 64.
   */
  function Uses(ops: seq<Op>): seq<ClientKey> {
    if ops == [] then []
    else
      var before := Uses(ops[..|ops| - 1]);
      var op := ops[|ops| - 1];
      if op.Look? && op.key !in Prefix(before, MAX_CLIENTS) then before
      else [op.key] + Without(before, op.key)
  }

  ghost predicate DistinctSeq(ks: seq<ClientKey>) {
    forall i, j :: 0 <= i < j < |ks| ==> ks[i] != ks[j]
  }

  lemma TailDistinct(ks: seq<ClientKey>)
    requires DistinctSeq(ks) && ks != []
    ensures DistinctSeq(ks[1..])
  {
    var rest := ks[1..];
    assert forall i :: 0 <= i < |rest| ==> rest[i] == ks[i + 1];
  }

  lemma {:induction false} WithoutSplits(ks: seq<ClientKey>, i: nat)
    requires DistinctSeq(ks) && i < |ks|
    ensures Without(ks, ks[i]) == ks[..i] + ks[i + 1..]
  {
    var rest := ks[1..];
    if i == 0 {
      assert forall j :: 0 <= j < |rest| ==> rest[j] == ks[j + 1];
      WithoutAbsent(rest, ks[0]);
      assert ks[..0] + ks[1..] == rest;
    } else {
      TailDistinct(ks);
      WithoutSplits(rest, i - 1);
      assert ks[0] != ks[i] && rest[i - 1] == ks[i];
      hide DistinctSeq;
      TailSplits(ks, i);
    }
  }

  lemma TailSplits(ks: seq<ClientKey>, i: nat)
    requires 0 < i < |ks|
    ensures [ks[0]] + (ks[1..][..i - 1] + ks[1..][i..]) == ks[..i] + ks[i + 1..]
  {
    assert ks[1..][..i - 1] == ks[1..i] && ks[1..][i..] == ks[i + 1..] && ks[..i] == [ks[0]] + ks[1..i];
  }

  lemma UsesDistinct(ops: seq<Op>)
    ensures DistinctSeq(Uses(ops))
  {
    if ops != [] {
      UsesDistinct(ops[..|ops| - 1]);
      WithoutDistinct(Uses(ops[..|ops| - 1]), ops[|ops| - 1].key);
    }
  }

  lemma RestDistinct(ks: seq<ClientKey>, i: nat)
    requires DistinctSeq(ks) && i < |ks|
    ensures var r := ks[..i] + ks[i + 1..]; DistinctSeq(r) && ks[i] !in r
  {
    var r := ks[..i] + ks[i + 1..];
    assert forall j :: 0 <= j < |r| ==> r[j] == if j < i then ks[j] else ks[j + 1];
  }

  lemma {:induction false} WithoutDistinct(ks: seq<ClientKey>, key: ClientKey)
    requires DistinctSeq(ks)
    ensures DistinctSeq(Without(ks, key)) && key !in Without(ks, key)
  {
    if key in ks {
      var i :| 0 <= i < |ks| && ks[i] == key;
      WithoutSplits(ks, i);
      RestDistinct(ks, i);
    } else {
      WithoutAbsent(ks, key);
    }
  }

  /** A key at the front of the list, and what it pushes out of the first n. */
  function ToFront(ks: seq<ClientKey>, key: ClientKey, n: nat): seq<ClientKey>
    requires n > 0
  {
    if key in ks then [key] + Without(ks, key) else [key] + Prefix(ks, n - 1)
  }

  /** Bringing a key to the front commutes with keeping only the first n. */
  lemma BoundCommutes(ks: seq<ClientKey>, key: ClientKey, n: nat)
    requires DistinctSeq(ks) && n > 0
    ensures Prefix([key] + Without(ks, key), n) == ToFront(Prefix(ks, n), key, n)
  {
    if key in ks {
      var i :| 0 <= i < |ks| && ks[i] == key;
      WithoutSplits(ks, i);
      if i < n {
        BoundKeeps(ks, i, n);
      } else {
        assert key !in Prefix(ks, n);
        hide Without, DistinctSeq;
        BoundDrops(ks, i, n);
      }
    } else {
      WithoutAbsent(ks, key);
      hide Without, DistinctSeq;
      BoundAdds(ks, key, n);
    }
  }

  /** A key behind the first n comes to the front, and the last of those n goes. */
  lemma BoundDrops(ks: seq<ClientKey>, i: nat, n: nat)
    requires 0 < n <= i < |ks|
    ensures Prefix([ks[i]] + (ks[..i] + ks[i + 1..]), n) == [ks[i]] + Prefix(Prefix(ks, n), n - 1)
  {
    assert ([ks[i]] + (ks[..i] + ks[i + 1..]))[..n] == [ks[i]] + ks[..n - 1];
    assert ks[..n][..n - 1] == ks[..n - 1];
  }

  lemma BoundAdds(ks: seq<ClientKey>, key: ClientKey, n: nat)
    requires n > 0 && key !in ks
    ensures key !in Prefix(ks, n) && Prefix([key] + ks, n) == [key] + Prefix(Prefix(ks, n), n - 1)
  {
    assert Prefix(Prefix(ks, n), n - 1) == Prefix(ks, n - 1);
    assert Prefix([key] + ks, n) == [key] + Prefix(ks, n - 1);
  }

  lemma BoundKeeps(ks: seq<ClientKey>, i: nat, n: nat)
    requires DistinctSeq(ks) && i < |ks| && i < n
    ensures Prefix([ks[i]] + (ks[..i] + ks[i + 1..]), n) == [ks[i]] + Without(Prefix(ks, n), ks[i])
    ensures ks[i] in Prefix(ks, n)
  {
    var front := Prefix(ks, n);
    assert front[i] == ks[i];
    WithoutSplits(front, i);
    assert front[..i] == ks[..i];
    if |ks| > n {
      assert front[i + 1..] == ks[i + 1..n];
      assert ([ks[i]] + (ks[..i] + ks[i + 1..]))[..n] == [ks[i]] + (ks[..i] + ks[i + 1..n]);
    }
  }

  /** One operation on the keys alone. */
  lemma ApplyKeys(m: Mru, op: Op)
    requires WellFormed(m)
    ensures Keys(Apply(m, op)) ==
      if op.Look? && op.key !in Keys(m) then Keys(m) else ToFront(Keys(m), op.key, MAX_CLIENTS)
  {
    hide Without;
    var ks := Keys(m);
    var i := Find(m, op.key);
    if i < |m| {
      assert ks[i] == op.key;
      WithoutSplits(ks, i);
      assert Keys(Touch(m, i)) == [op.key] + (ks[..i] + ks[i + 1..]);
    } else {
      assert op.key !in ks;
      if op.Pub? {
        assert Keys(Publish(m, op.key, op.candidate).mru) == [op.key] + Prefix(ks, MAX_CLIENTS - 1);
      }
    }
  }

  /**
   * The cache is LRU: after any history of lookups and publications it holds exactly the 64 most
   * recently used keys, in order of use.
   */
  lemma {:induction false} CacheHoldsMostRecent(ops: seq<Op>)
    ensures WellFormed(ApplyAll(ops)) && Keys(ApplyAll(ops)) == Prefix(Uses(ops), 64)
  {
    if ops != [] {
      var before := ops[..|ops| - 1];
      var op := ops[|ops| - 1];
      CacheHoldsMostRecent(before);
      UsesDistinct(before);
      OperationsKeepWellFormed(ApplyAll(before), op.key, if op.Pub? then op.candidate else 0);
      ApplyKeys(ApplyAll(before), op);
      BoundCommutes(Uses(before), op.key, MAX_CLIENTS);
    }
  }
}
