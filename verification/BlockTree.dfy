/**
 The tree of headers. Header hashes are taken to be collision-free, so a block is
 identified with the chain that ends in it, and its number is its depth.
 */
module BlockTree {
  import opened Epochs

  datatype Block =
    | Genesis
    | Child(parent: Block, slot: Slot, primary: bool, announcements: seq<Descriptor>, configs: seq<EpochConfig>, salt: nat)

  function Number(b: Block): nat
  {
    if b.Genesis? then 0 else Number(b.parent) + 1
  }

  /** Genesis has no digest; its slot reads as 0. */
  function SlotOf(b: Block): Slot
  {
    if b.Genesis? then 0 else b.slot
  }

  /** The number of primary blocks on the chain. */
  function Weight(b: Block): nat
  {
    if b.Genesis? then 0 else Weight(b.parent) + if b.primary then 1 else 0
  }

  /** a is b or an ancestor of b. */
  predicate OnChain(a: Block, b: Block)
  {
    a == b || (b.Child? && OnChain(a, b.parent))
  }

  /** A set of blocks with all their ancestors. */
  ghost predicate Rooted(blocks: set<Block>)
  {
    Genesis in blocks && forall b :: b in blocks && b.Child? ==> b.parent in blocks
  }

  lemma {:induction false} GenesisOnChain(b: Block)
    ensures OnChain(Genesis, b)
  {
    if b.Child? {
      GenesisOnChain(b.parent);
    }
  }

  lemma {:induction false} OnChainNumber(a: Block, b: Block)
    requires OnChain(a, b)
    ensures Number(a) <= Number(b) && (Number(a) == Number(b) ==> a == b)
  {
    if a != b {
      OnChainNumber(a, b.parent);
    }
  }

  lemma {:induction false} OnChainTransitive(a: Block, b: Block, c: Block)
    requires OnChain(a, b) && OnChain(b, c)
    ensures OnChain(a, c)
  {
    if b != c {
      OnChainTransitive(a, b, c.parent);
    }
  }

  lemma OnChainAntisymmetric(a: Block, b: Block)
    requires OnChain(a, b) && OnChain(b, a)
    ensures a == b
  {
    OnChainNumber(a, b);
    OnChainNumber(b, a);
  }

  /** Two blocks of one chain are on each other's chain one way round. */
  lemma {:induction false} OnChainTotal(a: Block, b: Block, c: Block)
    requires OnChain(a, c) && OnChain(b, c)
    ensures OnChain(a, b) || OnChain(b, a)
  {
    if a != c && b != c {
      OnChainTotal(a, b, c.parent);
    }
  }

  lemma {:induction false} RootedHolds(blocks: set<Block>, a: Block, b: Block)
    requires Rooted(blocks) && b in blocks && OnChain(a, b)
    ensures a in blocks
  {
    if a != b {
      RootedHolds(blocks, a, b.parent);
    }
  }

  /** The block of a chain at a number, as the canonical chain is looked up. */
  function AtNumber(b: Block, n: nat): (a: Block)
    requires n <= Number(b)
    ensures OnChain(a, b) && Number(a) == n
  {
    if Number(b) == n then b else AtNumber(b.parent, n)
  }

  predicate PrimaryAt(b: Block, n: nat)
  {
    n <= Number(b) && AtNumber(b, n).Child? && AtNumber(b, n).primary
  }

  lemma PrimaryAtParent(b: Block, n: nat)
    requires b.Child?
    ensures PrimaryAt(b, n) <==> if n == Number(b) then b.primary else PrimaryAt(b.parent, n)
  {
  }

  /** The numbers at which the chain of b has a primary block. */
  function PrimaryNumbers(b: Block): set<nat>
  {
    set n: nat | n <= Number(b) && PrimaryAt(b, n)
  }

  /** The weight is how many there are. */
  lemma {:induction false} WeightCountsPrimaries(b: Block)
    ensures Weight(b) == |PrimaryNumbers(b)|
  {
    hide PrimaryAt;
    if b.Genesis? {
      NoPrimaryGenesis();
    } else {
      WeightCountsPrimaries(b.parent);
      forall n: nat
        ensures PrimaryAt(b, n) <==> if n == Number(b) then b.primary else PrimaryAt(b.parent, n)
      {
        PrimaryAtParent(b, n);
      }
      assert PrimaryNumbers(b) == PrimaryNumbers(b.parent) + if b.primary then {Number(b)} else {};
    }
  }

  lemma NoPrimaryGenesis()
    ensures PrimaryNumbers(Genesis) == {}
  {
  }

  // ---- Leaves ----

  ghost predicate Leaf(blocks: set<Block>, l: Block)
  {
    l in blocks && forall b :: b in blocks && b.Child? ==> b.parent != l
  }

  /** Every block has a leaf above it. */
  lemma LeafAbove(blocks: set<Block>, b: Block) returns (l: Block)
    requires b in blocks
    ensures Leaf(blocks, l) && OnChain(b, l)
    decreases |set x | x in blocks && OnChain(b, x)|
  {
    if Leaf(blocks, b) {
      l := b;
    } else {
      var c :| c in blocks && c.Child? && c.parent == b;
      var above := set x | x in blocks && OnChain(b, x);
      var above' := set x | x in blocks && OnChain(c, x);
      forall x | x in above'
        ensures x in above
      {
        OnChainTransitive(b, c, x);
      }
      NotOnOwnParent(c);
      assert b in above && b !in above';
      StrictSubsetSmaller(above', above);
      l := LeafAbove(blocks, c);
      OnChainTransitive(b, c, l);
    }
  }

  lemma NotOnOwnParent(c: Block)
    requires c.Child?
    ensures !OnChain(c, c.parent)
  {
    if OnChain(c, c.parent) {
      OnChainNumber(c, c.parent);
    }
  }

  lemma StrictSubsetSmaller<T>(s: set<T>, t: set<T>)
    requires s < t
    ensures |s| < |t|
  {
    assert t == s + (t - s);
    assert |t - s| > 0;
  }
}
