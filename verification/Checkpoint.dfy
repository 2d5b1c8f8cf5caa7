/**
 Checkpoints of a trie backend (`serialize_trie_backend` and its inverse): the
 keys are dropped on the way out and recomputed by hashing on the way in.
 */
module Checkpoint {
  import opened ByteStrings
  import opened MemoryDb

  datatype Backend = Backend(root: Hash, data: Data, nil: NullNode)

  datatype Snapshot = Snapshot(root: Hash, kvs: seq<Entry>)

  /** A backend rebuilt from a checkpoint has the default null node. */
  function DefaultNull(hash: Hasher): NullNode
  {
    NullNode(hash([0]), [0])
  }

  /** Some iteration order over the store. */
  ghost predicate Enumerates(order: seq<Hash>, d: Data)
  {
    && (forall k :: k in order <==> k in d)
    && (forall i, j :: 0 <= i < j < |order| ==> order[i] != order[j])
  }

  function Values(d: Data, order: seq<Hash>): seq<Entry>
    requires forall k :: k in order ==> k in d
  {
    seq(|order|, i requires 0 <= i < |order| => d[order[i]])
  }

  method Serialize(b: Backend) returns (s: Snapshot, ghost order: seq<Hash>)
    ensures s.root == b.root
    ensures Enumerates(order, b.data) && s.kvs == Values(b.data, order)
  {
    var kvs: seq<Entry>, todo := [], b.data.Keys;
    order := [];
    while todo != {}
      invariant todo <= b.data.Keys
      invariant forall k :: k in order <==> k in b.data && k !in todo
      invariant forall i, j :: 0 <= i < j < |order| ==> order[i] != order[j]
      invariant kvs == Values(b.data, order)
      decreases |todo|
    {
      var k :| k in todo;
      kvs, order, todo := kvs + [b.data[k]], order + [k], todo - {k};
    }
    s := Snapshot(b.root, kvs);
  }

  /** Collecting into a map: a later entry replaces an earlier one with the same key. */
  function Collected(kvs: seq<Entry>, hash: Hasher): Data
  {
    if kvs == [] then map[]
    else
      var last := kvs[|kvs| - 1];
      Collected(kvs[..|kvs| - 1], hash)[hash(last.value) := last]
  }

  method Deserialize(s: Snapshot, hash: Hasher) returns (b: Backend)
    ensures b == Backend(s.root, Collected(s.kvs, hash), DefaultNull(hash))
  {
    var data: Data := map[];
    for i := 0 to |s.kvs|
      invariant data == Collected(s.kvs[..i], hash)
    {
      assert s.kvs[..i + 1][..i] == s.kvs[..i];
      data := data[hash(s.kvs[i].value) := s.kvs[i]];
    }
    assert s.kvs[..|s.kvs|] == s.kvs;
    b := Backend(s.root, data, DefaultNull(hash));
  }

  /** Every entry sits under the digest of its value. */
  ghost predicate SelfKeyed(d: Data, hash: Hasher)
  {
    forall k :: k in d ==> hash(d[k].value) == k
  }

  lemma {:induction false} CollectedEntries(kvs: seq<Entry>, hash: Hasher)
    ensures forall k :: k in Collected(kvs, hash) ==>
      Collected(kvs, hash)[k] in kvs && hash(Collected(kvs, hash)[k].value) == k
    ensures forall i :: 0 <= i < |kvs| ==> hash(kvs[i].value) in Collected(kvs, hash)
  {
    if kvs != [] {
      var init, last := kvs[..|kvs| - 1], kvs[|kvs| - 1];
      CollectedEntries(init, hash);
      assert kvs == init + [last];
      forall i | 0 <= i < |kvs|
        ensures hash(kvs[i].value) in Collected(kvs, hash)
      {
        if i < |init| {
          assert init[i] == kvs[i];
        }
      }
    }
  }

  /** In any iteration order, the round trip gives back the store exactly when it is self-keyed. */
  lemma RoundTripExact(d: Data, order: seq<Hash>, hash: Hasher)
    requires Enumerates(order, d)
    ensures Collected(Values(d, order), hash) == d <==> SelfKeyed(d, hash)
  {
    var kvs := Values(d, order);
    var r := Collected(kvs, hash);
    CollectedEntries(kvs, hash);
    if SelfKeyed(d, hash) {
      forall k | k in d
        ensures k in r
      {
        assert k in order;
        var i :| 0 <= i < |order| && order[i] == k;
        assert hash(kvs[i].value) == k;
      }
      forall k | k in r
        ensures k in d && r[k] == d[k]
      {
        var i :| 0 <= i < |kvs| && kvs[i] == r[k];
        assert order[i] in order;
      }
    }
  }

  /** Any history that owes no value checkpoints without loss. */
  lemma SettledHistoryRoundTrips(h: seq<Event>, hash: Hasher, order: seq<Hash>)
    requires AddressedHistory(h, hash)
    requires forall k :: k in After(h, DefaultNull(hash), hash) ==> Count(After(h, DefaultNull(hash), hash), k) >= 0
    requires Enumerates(order, After(h, DefaultNull(hash), hash))
    ensures var d := After(h, DefaultNull(hash), hash);
            Collected(Values(d, order), hash) == d
  {
    var d := After(h, DefaultNull(hash), hash);
    EntriesHashToTheirKey(h, DefaultNull(hash), hash);
    RoundTripExact(d, order, hash);
  }

  /** An owed value is lost: a store with one early removal does not survive a checkpoint. */
  lemma OwedValueIsLost(k: Hash, hash: Hasher, order: seq<Hash>)
    requires k != DefaultNull(hash).hash && k != hash([])
    requires Enumerates(order, After([Remove(k)], DefaultNull(hash), hash))
    ensures var d := After([Remove(k)], DefaultNull(hash), hash);
            Collected(Values(d, order), hash) != d
  {
    var nil := DefaultNull(hash);
    var h: seq<Event> := [Remove(k)];
    assert h[..|h| - 1] == [] && After([], nil, hash) == map[];
    var d := After(h, nil, hash);
    assert d == Removed(map[], nil, k);
    assert k in d && d[k].value == [];
    RoundTripExact(d, order, hash);
  }

  /** Save and restore one backend. */
  method SaveAndRestore(b: Backend, hash: Hasher) returns (r: Backend)
    ensures r.root == b.root
    ensures r == b <==> b.nil == NullNode(hash([0]), [0]) && forall k :: k in b.data ==> hash(b.data[k].value) == k
  {
    var s, order := Serialize(b);
    RoundTripExact(b.data, order, hash);
    r := Deserialize(s, hash);
  }
}
