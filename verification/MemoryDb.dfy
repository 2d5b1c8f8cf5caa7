/**
 The reference-counted node store of `ces-trie-storage`. Counts are signed: a
 key may be removed before it is inserted. `consolidate` folds a transaction,
 whose keys carry a prefix, onto the bare 32-byte hashes.
 */
module MemoryDb {
  import opened ByteStrings
  import opened Common

  const HASH_LENGTH := 32

  type Hash = h: Bytes | |h| == HASH_LENGTH witness seq(HASH_LENGTH, _ => 0)

  type Hasher = Bytes -> Hash

  datatype Entry = Entry(value: Bytes, rc: int)

  type Data = map<Hash, Entry>

  /** A drained transaction: prefixed keys with their entries, in drain order. */
  type Drained = seq<(Bytes, Entry)>

  datatype NullNode = NullNode(hash: Hash, data: Bytes)

  function Count(d: Data, k: Hash): int
  {
    if k in d then d[k].rc else 0
  }

  /** Store an entry, or drop it when its count has come to zero. */
  function Put(d: Data, k: Hash, e: Entry): Data
  {
    if e.rc == 0 then d - {k} else d[k := e]
  }

  function Emplaced(d: Data, k: Hash, value: Bytes): Data
  {
    if k !in d then d[k := Entry(value, 1)]
    else Put(d, k, Entry(if d[k].rc <= 0 then value else d[k].value, d[k].rc + 1))
  }

  function Inserted(d: Data, nil: NullNode, hash: Hasher, value: Bytes): Data
  {
    if value == nil.data then d else Emplaced(d, hash(value), value)
  }

  function Removed(d: Data, nil: NullNode, k: Hash): Data
  {
    if k == nil.hash then d
    else if k !in d then d[k := Entry([], -1)]
    else Put(d, k, d[k].(rc := d[k].rc - 1))
  }

  /** Transaction keys end in the hash. */
  function Suffix(key: Bytes): Hash
    requires |key| >= HASH_LENGTH
  {
    key[|key| - HASH_LENGTH..]
  }

  ghost predicate Prefixed(t: Drained)
  {
    forall i :: 0 <= i < |t| ==> |t[i].0| >= HASH_LENGTH
  }

  function Folded(d: Data, k: Hash, e: Entry): Data
  {
    if k !in d then d[k := e]
    else Put(d, k, Entry(if d[k].rc < 0 then e.value else d[k].value, d[k].rc + e.rc))
  }

  function Consolidated(d: Data, t: Drained): Data
    requires Prefixed(t)
  {
    if t == [] then d
    else
      var last := t[|t| - 1];
      Folded(Consolidated(d, t[..|t| - 1]), Suffix(last.0), last.1)
  }

  class MemoryDB {
    var data: Data
    const nil: NullNode
    const hash: Hasher

    constructor (nullKey: Bytes, nullData: Bytes, hash: Hasher)
      ensures data == map[] && nil == NullNode(hash(nullKey), nullData) && this.hash == hash
    {
      data := map[];
      nil := NullNode(hash(nullKey), nullData);
      this.hash := hash;
    }

    method Get(k: Hash) returns (r: Option<Bytes>)
      ensures k == nil.hash ==> r == Some(nil.data)
      ensures k != nil.hash ==> r == Fetch(data, k)
    {
      if k == nil.hash {
        return Some(nil.data);
      }
      if k in data && data[k].rc > 0 {
        return Some(data[k].value);
      }
      r := None;
    }

    method Emplace(k: Hash, value: Bytes)
      modifies this
      ensures data == if value == nil.data then old(data) else Emplaced(old(data), k, value)
    {
      if value == nil.data {
        return;
      }
      if k in data {
        var Entry(stored, rc) := data[k];
        if rc <= 0 {
          stored := value;
        }
        rc := rc + 1;
        if rc == 0 {
          data := data - {k};
        } else {
          data := data[k := Entry(stored, rc)];
        }
      } else {
        data := data[k := Entry(value, 1)];
      }
    }

    method Insert(value: Bytes) returns (k: Hash)
      modifies this
      ensures data == Inserted(old(data), nil, hash, value)
      ensures k == if value == nil.data then nil.hash else hash(value)
    {
      if value == nil.data {
        return nil.hash;
      }
      k := hash(value);
      Emplace(k, value);
    }

    method Remove(k: Hash)
      modifies this
      ensures data == Removed(old(data), nil, k)
    {
      if k == nil.hash {
        return;
      }
      if k in data {
        var rc := data[k].rc - 1;
        if rc == 0 {
          data := data - {k};
        } else {
          data := data[k := data[k].(rc := rc)];
        }
      } else {
        data := data[k := Entry([], -1)];
      }
    }

    /** Leaves the store as `Remove` does; returns the value it purged. */
    method RemoveAndPurge(k: Hash) returns (r: Option<Bytes>)
      modifies this
      ensures data == Removed(old(data), nil, k)
      ensures r == if k != nil.hash && Count(old(data), k) == 1 then Some(old(data)[k].value) else None
    {
      if k == nil.hash {
        return None;
      }
      if k in data {
        if data[k].rc == 1 {
          r := Some(data[k].value);
          data := data - {k};
        } else {
          data := data[k := data[k].(rc := data[k].rc - 1)];
          r := None;
        }
      } else {
        data := data[k := Entry([], -1)];
        r := None;
      }
    }

    method Consolidate(t: Drained)
      requires Prefixed(t)
      modifies this
      ensures data == Consolidated(old(data), t)
    {
      for i := 0 to |t|
        invariant data == Consolidated(old(data), t[..i])
      {
        assert t[..i + 1][..i] == t[..i];
        var k, e := Suffix(t[i].0), t[i].1;
        if k in data {
          var Entry(stored, rc) := data[k];
          if rc < 0 {
            stored := e.value;
          }
          rc := rc + e.rc;
          if rc == 0 {
            data := data - {k};
          } else {
            data := data[k := Entry(stored, rc)];
          }
        } else {
          data := data[k := e];
        }
      }
      assert t[..|t|] == t;
    }
  }

  /** What `get` returns for a key that is not the null node's. */
  function Fetch(d: Data, k: Hash): Option<Bytes>
  {
    if k in d && d[k].rc > 0 then Some(d[k].value) else None
  }

  // ---- Histories ----

  datatype Event =
    | Insert(value: Bytes)
    | Remove(key: Hash)
    | Consolidate(drained: Drained)

  ghost predicate WellFormed(h: seq<Event>)
  {
    forall i :: 0 <= i < |h| && h[i].Consolidate? ==> Prefixed(h[i].drained)
  }

  function Applied(d: Data, nil: NullNode, hash: Hasher, e: Event): Data
    requires e.Consolidate? ==> Prefixed(e.drained)
  {
    match e
    case Insert(value) => Inserted(d, nil, hash, value)
    case Remove(k) => Removed(d, nil, k)
    case Consolidate(t) => Consolidated(d, t)
  }

  function After(h: seq<Event>, nil: NullNode, hash: Hasher): Data
    requires WellFormed(h)
  {
    if h == [] then map[]
    else Applied(After(h[..|h| - 1], nil, hash), nil, hash, h[|h| - 1])
  }

  /** The sum of all transaction entries whose key ends in k. */
  function SuffixSum(t: Drained, k: Hash): int
    requires Prefixed(t)
  {
    if t == [] then 0
    else
      var last := t[|t| - 1];
      SuffixSum(t[..|t| - 1], k) + if Suffix(last.0) == k then last.1.rc else 0
  }

  function Change(e: Event, nil: NullNode, hash: Hasher, k: Hash): int
    requires e.Consolidate? ==> Prefixed(e.drained)
  {
    match e
    case Insert(value) => if value != nil.data && hash(value) == k then 1 else 0
    case Remove(key) => if key == k then -1 else 0
    case Consolidate(t) => SuffixSum(t, k)
  }

  /** Inserts minus removes plus consolidated counts. */
  function Net(h: seq<Event>, nil: NullNode, hash: Hasher, k: Hash): int
    requires WellFormed(h)
  {
    if h == [] then 0
    else Net(h[..|h| - 1], nil, hash, k) + Change(h[|h| - 1], nil, hash, k)
  }

  lemma {:induction false} ConsolidateAddsCounts(d: Data, t: Drained, k: Hash)
    requires Prefixed(t)
    ensures Count(Consolidated(d, t), k) == Count(d, k) + SuffixSum(t, k)
  {
    if t != [] {
      ConsolidateAddsCounts(d, t[..|t| - 1], k);
    }
  }

  /** The store counts: every key's count is the net of its history. */
  lemma {:induction false} CountIsNet(h: seq<Event>, nil: NullNode, hash: Hasher, k: Hash)
    requires WellFormed(h) && k != nil.hash
    ensures Count(After(h, nil, hash), k) == Net(h, nil, hash, k)
  {
    if h != [] {
      var init, e := h[..|h| - 1], h[|h| - 1];
      CountIsNet(init, nil, hash, k);
      if e.Consolidate? {
        ConsolidateAddsCounts(After(init, nil, hash), e.drained, k);
      }
    }
  }

  // ---- Content addressing ----

  /** Entries that are not owed a value hold the value their key names. */
  ghost predicate Addressed(d: Data, hash: Hasher)
  {
    forall k :: k in d && d[k].rc >= 0 ==> hash(d[k].value) == k
  }

  ghost predicate AddressedDrain(t: Drained, hash: Hasher)
    requires Prefixed(t)
  {
    forall i :: 0 <= i < |t| && t[i].1.rc >= 0 ==> hash(t[i].1.value) == Suffix(t[i].0)
  }

  ghost predicate AddressedHistory(h: seq<Event>, hash: Hasher)
  {
    WellFormed(h) && forall i :: 0 <= i < |h| && h[i].Consolidate? ==> AddressedDrain(h[i].drained, hash)
  }

  lemma {:induction false} ConsolidateStaysAddressed(d: Data, t: Drained, hash: Hasher)
    requires Prefixed(t) && Addressed(d, hash) && AddressedDrain(t, hash)
    ensures Addressed(Consolidated(d, t), hash)
  {
    if t != [] {
      ConsolidateStaysAddressed(d, t[..|t| - 1], hash);
    }
  }

  /** Lazy replacement of values never leaves a wrong one under a live key. */
  lemma {:induction false} EntriesHashToTheirKey(h: seq<Event>, nil: NullNode, hash: Hasher)
    requires AddressedHistory(h, hash)
    ensures Addressed(After(h, nil, hash), hash)
  {
    if h != [] {
      var init, e := h[..|h| - 1], h[|h| - 1];
      assert forall i :: 0 <= i < |init| ==> init[i] == h[i];
      EntriesHashToTheirKey(init, nil, hash);
      if e.Consolidate? {
        ConsolidateStaysAddressed(After(init, nil, hash), e.drained, hash);
      }
    }
  }

  // ---- Drain order ----

  /** The same events, each transaction drained in its own order. */
  ghost predicate Reordered(h: seq<Event>, h': seq<Event>)
  {
    && |h| == |h'|
    && forall i :: 0 <= i < |h| ==> SameUpToOrder(h[i], h'[i])
  }

  ghost predicate SameUpToOrder(e: Event, e': Event)
  {
    if e.Consolidate? && e'.Consolidate? then multiset(e.drained) == multiset(e'.drained) else e == e'
  }

  lemma RemoveEntry(t: Drained, j: nat, k: Hash)
    requires Prefixed(t) && j < |t|
    ensures Prefixed(t[..j] + t[j + 1..])
    ensures SuffixSum(t, k) == SuffixSum(t[..j] + t[j + 1..], k) + if Suffix(t[j].0) == k then t[j].1.rc else 0
    ensures multiset(t[..j] + t[j + 1..]) == multiset(t) - multiset{t[j]}
  {
    hide SuffixSum;
    var before, after := t[..j], t[j + 1..];
    assert t == (before + [t[j]]) + after;
    SuffixSumAppend(before, t[j], k);
    SuffixSumConcat(before, after, k);
    SuffixSumConcat(before + [t[j]], after, k);
  }

  lemma SuffixSumAppend(s: Drained, x: (Bytes, Entry), k: Hash)
    requires Prefixed(s) && |x.0| >= HASH_LENGTH
    ensures Prefixed(s + [x])
    ensures SuffixSum(s + [x], k) == SuffixSum(s, k) + if Suffix(x.0) == k then x.1.rc else 0
  {
    assert (s + [x])[..|s + [x]| - 1] == s;
  }

  lemma {:induction false} SuffixSumConcat(s: Drained, t: Drained, k: Hash)
    requires Prefixed(s) && Prefixed(t)
    ensures Prefixed(s + t) && SuffixSum(s + t, k) == SuffixSum(s, k) + SuffixSum(t, k)
  {
    if t == [] {
      assert s + t == s;
    } else {
      SuffixSumConcat(s, t[..|t| - 1], k);
      assert (s + t)[..|s + t| - 1] == s + t[..|t| - 1];
    }
  }

  lemma {:induction false} SuffixSumUnordered(s: Drained, t: Drained, k: Hash)
    requires Prefixed(s) && Prefixed(t) && multiset(s) == multiset(t)
    ensures SuffixSum(s, k) == SuffixSum(t, k)
  {
    if s == [] {
      assert |multiset(t)| == 0;
    } else {
      var last := |s| - 1;
      assert s[last] in multiset(t);
      var j :| 0 <= j < |t| && t[j] == s[last];
      RemoveEntry(s, last, k);
      RemoveEntry(t, j, k);
      SuffixSumUnordered(s[..last] + s[last + 1..], t[..j] + t[j + 1..], k);
    }
  }

  lemma {:induction false} NetUnordered(h: seq<Event>, h': seq<Event>, nil: NullNode, hash: Hasher, k: Hash)
    requires WellFormed(h) && WellFormed(h') && Reordered(h, h')
    ensures Net(h, nil, hash, k) == Net(h', nil, hash, k)
  {
    if h != [] {
      var last := |h| - 1;
      NetUnordered(h[..last], h'[..last], nil, hash, k);
      assert SameUpToOrder(h[last], h'[last]);
      if h[last].Consolidate? {
        SuffixSumUnordered(h[last].drained, h'[last].drained, k);
      }
    }
  }

  /** No two stored values share a digest. */
  ghost predicate CollisionFree(d: Data, d': Data, hash: Hasher)
  {
    forall k, k' :: k in d && k' in d' && hash(d[k].value) == hash(d'[k'].value) ==> d[k].value == d'[k'].value
  }

  /** What `get` returns does not depend on the order in which transactions were drained. */
  lemma GetIgnoresDrainOrder(h: seq<Event>, h': seq<Event>, nil: NullNode, hash: Hasher, k: Hash)
    requires AddressedHistory(h, hash) && AddressedHistory(h', hash) && Reordered(h, h')
    requires CollisionFree(After(h, nil, hash), After(h', nil, hash), hash)
    requires k != nil.hash
    ensures Fetch(After(h, nil, hash), k) == Fetch(After(h', nil, hash), k)
  {
    NetUnordered(h, h', nil, hash, k);
    CountIsNet(h, nil, hash, k);
    CountIsNet(h', nil, hash, k);
    EntriesHashToTheirKey(h, nil, hash);
    EntriesHashToTheirKey(h', nil, hash);
  }

  // ---- What a key holds ----

  /** A key holds a value exactly if more was inserted than removed, and it is the value the key names. */
  lemma GetExactly(h: seq<Event>, nil: NullNode, hash: Hasher, k: Hash)
    requires AddressedHistory(h, hash) && k != nil.hash
    ensures Fetch(After(h, nil, hash), k).Some? <==> Net(h, nil, hash, k) > 0
    ensures Fetch(After(h, nil, hash), k).Some? ==> hash(Fetch(After(h, nil, hash), k).value) == k
  {
    CountIsNet(h, nil, hash, k);
    EntriesHashToTheirKey(h, nil, hash);
  }

  /** Inserting a value and asking for it gives it back, unless a removal was owed; a value already there has the same digest. */
  lemma InsertThenGet(h: seq<Event>, nil: NullNode, hash: Hasher, value: Bytes)
    requires AddressedHistory(h, hash) && value != nil.data && hash(value) != nil.hash
    ensures var h', k := h + [Insert(value)], hash(value);
            && WellFormed(h')
            && (Net(h, nil, hash, k) == 0 ==> Fetch(After(h', nil, hash), k) == Some(value))
            && (Net(h, nil, hash, k) > 0 ==> Fetch(After(h', nil, hash), k) == Fetch(After(h, nil, hash), k))
            && (Net(h, nil, hash, k) < 0 ==> Fetch(After(h', nil, hash), k) == None)
  {
    var h', k := h + [Insert(value)], hash(value);
    assert h'[..|h|] == h && h'[|h|] == Insert(value);
    assert forall i :: 0 <= i < |h'| && h'[i].Consolidate? ==> h'[i] == h[i];
    CountIsNet(h, nil, hash, k);
    CountIsNet(h', nil, hash, k);
  }
}
