/**
 Cleaning up after finality: which block weights are dropped when a block is
 finalized, and exactly when that leaves a weight for the live blocks only.
 */
module Finality {
  import opened Common
  import opened BlockTree
  import opened Import

  /** Blocks strictly between two blocks of one chain, oldest first. */
  function Route(from: Block, to: Block): (route: seq<Block>)
    requires OnChain(from, to) && from != to
    ensures (if route == [] then to else route[0]).Child?
    ensures (if route == [] then to else route[0]).parent == from
    ensures forall b :: b in route <==> OnChain(from, b) && from != b && OnChain(b, to) && b != to
  {
    NotOnOwnParent(to);
    RouteEnd(from, to);
    if to.parent == from then [] else Route(from, to.parent) + [to.parent]
  }

  lemma RouteEnd(from: Block, to: Block)
    requires OnChain(from, to) && from != to
    ensures forall b :: OnChain(from, b) && from != b && OnChain(b, to) && b != to ==> to.parent != from
    ensures forall b :: OnChain(b, to.parent) ==> b != to
  {
    forall b | OnChain(from, b) && from != b && OnChain(b, to) && b != to
      ensures to.parent != from
    {
      if to.parent == from {
        OnChainAntisymmetric(from, b);
      }
    }
    NotOnOwnParent(to);
  }

  /** What the finality notification carries. */
  datatype Notification = Notification(hash: Block, treeRoute: seq<Block>)

  /** The blocks whose weights are dropped. The two answers of the client come as parameters. */
  method AuxStorageCleanup(n: Notification, metadataRead: bool, expanded: set<Block>) returns (hashes: set<Block>)
    requires n.hash.Child? && forall b :: b in n.treeRoute ==> b.Child?
    ensures var first := if n.treeRoute == [] then n.hash else n.treeRoute[0];
            hashes == (if metadataRead then {first.parent} else {}) + ((set b | b in n.treeRoute) - {n.hash}) + expanded
  {
    hashes := {};
    var first := if n.treeRoute == [] then n.hash else n.treeRoute[0];
    if metadataRead {
      hashes := hashes + {first.parent};
    }
    var start := hashes;
    for i := 0 to |n.treeRoute|
      invariant hashes == start + ((set b | b in n.treeRoute[..i]) - {n.hash})
    {
      assert n.treeRoute[..i + 1] == n.treeRoute[..i] + [n.treeRoute[i]];
      if n.treeRoute[i] != n.hash {
        hashes := hashes + {n.treeRoute[i]};
      }
    }
    assert n.treeRoute[..|n.treeRoute|] == n.treeRoute;
    hashes := hashes + expanded;
  }

  /** The blocks that get no weight any more when f is finalized. */
  function Dropped(finalized: Block, f: Block, metadataRead: bool, expanded: set<Block>): set<Block>
    requires OnChain(finalized, f) && finalized != f
  {
    (if metadataRead then {finalized} else {}) + ((set b | b in Route(finalized, f)) - {f}) + expanded
  }

  /** The method drops these when it is told of the route from the last finalized block. */
  method CleanupRoute(finalized: Block, f: Block, metadataRead: bool, expanded: set<Block>) returns (hashes: set<Block>)
    requires OnChain(finalized, f) && finalized != f
    ensures hashes == Dropped(finalized, f, metadataRead, expanded)
  {
    var route := Route(finalized, f);
    forall b | b in route
      ensures b.Child?
    {
      if b.Genesis? {
        GenesisOnChain(finalized);
        OnChainAntisymmetric(finalized, b);
      }
    }
    hashes := AuxStorageCleanup(Notification(f, route), metadataRead, expanded);
  }

  /** Imported blocks at or above the finalized one. */
  ghost predicate Live(s: State, b: Block)
  {
    b in s.blocks && b.Child? && OnChain(s.finalized, b)
  }

  /** Imported blocks above the last finalized block that neither lead to f nor follow it. */
  ghost predicate Stale(s: State, f: Block, b: Block)
  {
    b in s.blocks && OnChain(s.finalized, b) && !OnChain(b, f) && !OnChain(f, b)
  }

  function FinalizeStep(s: State, f: Block, metadataRead: bool, expanded: set<Block>): State
    requires OnChain(s.finalized, f) && s.finalized != f
  {
    s.(finalized := f, weights := s.weights - Dropped(s.finalized, f, metadataRead, expanded))
  }

  /** A weight is stored for exactly the live blocks. */
  ghost predicate WeighsLive(s: State)
  {
    forall b :: b in s.weights <==> Live(s, b)
  }

  /** Both answers of the client were complete. */
  ghost predicate CompleteAnswers(s: State, f: Block, metadataRead: bool, expanded: set<Block>)
  {
    && (metadataRead || s.finalized in expanded || s.finalized.Genesis?)
    && forall b :: Stale(s, f, b) ==> b in expanded
  }

  /** Every live block keeps its weight, and no other block does exactly if both client answers were complete. */
  lemma CleanupExact(s: State, f: Block, metadataRead: bool, expanded: set<Block>)
    requires Rooted(s.blocks) && f in s.blocks && OnChain(s.finalized, f) && s.finalized != f && WeighsLive(s)
    requires forall b :: b in expanded ==> !OnChain(f, b)
    ensures var s' := FinalizeStep(s, f, metadataRead, expanded);
            && (forall b :: Live(s', b) ==> b in s'.weights)
            && (WeighsLive(s') <==> CompleteAnswers(s, f, metadataRead, expanded))
  {
    var s' := FinalizeStep(s, f, metadataRead, expanded);
    forall b
      ensures OnChain(f, b) ==> OnChain(s.finalized, b) && b !in Dropped(s.finalized, f, metadataRead, expanded)
      ensures OnChain(s.finalized, b) && !OnChain(f, b) ==>
                (b in Dropped(s.finalized, f, metadataRead, expanded) <==>
                 b in expanded || (b == s.finalized && metadataRead) || (b != s.finalized && OnChain(b, f)))
    {
      DroppedOrNot(s.finalized, f, metadataRead, expanded, b);
    }
    hide Dropped;
    RootedHolds(s.blocks, s.finalized, f);
    NotBelow(s.finalized, f);
    GenesisOnChain(f);
    if WeighsLive(s') {
      assert s.finalized.Child? ==> Live(s, s.finalized) && !Live(s', s.finalized);
      forall b | Stale(s, f, b)
        ensures b in expanded
      {
        assert Live(s, b) && !Live(s', b);
      }
    }
  }

  lemma NotBelow(a: Block, f: Block)
    requires OnChain(a, f) && a != f
    ensures !OnChain(f, a)
  {
    if OnChain(f, a) {
      OnChainAntisymmetric(a, f);
    }
  }

  lemma DroppedOrNot(finalized: Block, f: Block, metadataRead: bool, expanded: set<Block>, b: Block)
    requires OnChain(finalized, f) && finalized != f
    requires forall x :: x in expanded ==> !OnChain(f, x)
    ensures OnChain(f, b) ==> OnChain(finalized, b) && b !in Dropped(finalized, f, metadataRead, expanded)
    ensures OnChain(finalized, b) && !OnChain(f, b) ==>
              (b in Dropped(finalized, f, metadataRead, expanded) <==>
               b in expanded || (b == finalized && metadataRead) || (b != finalized && OnChain(b, f)))
  {
    var route := Route(finalized, f);
    if OnChain(f, b) {
      OnChainTransitive(finalized, f, b);
      if b in route {
        OnChainAntisymmetric(b, f);
      }
      if b == finalized {
        OnChainAntisymmetric(b, f);
      }
    }
  }

  /** The blocks of the given forks down to the chain of f. */
  function ExpandForks(blocks: set<Block>, heads: set<Block>, f: Block): set<Block>
  {
    set x | x in blocks && !OnChain(x, f) && exists h :: h in heads && OnChain(x, h)
  }

  /** The heads that finalizing f leaves behind. */
  ghost predicate StaleHeads(blocks: set<Block>, heads: set<Block>, f: Block)
  {
    forall h :: h in heads <==> Leaf(blocks, h) && !OnChain(f, h)
  }

  lemma ForksCoverStale(s: State, f: Block, heads: set<Block>)
    requires StaleHeads(s.blocks, heads, f)
    ensures forall b :: OnChain(s.finalized, b) ==> (b in ExpandForks(s.blocks, heads, f) <==> Stale(s, f, b))
    ensures forall b :: b in ExpandForks(s.blocks, heads, f) ==> !OnChain(f, b) && !OnChain(b, f)
  {
    forall b | Stale(s, f, b)
      ensures b in ExpandForks(s.blocks, heads, f)
    {
      var l := LeafAbove(s.blocks, b);
      if OnChain(f, l) {
        OnChainTotal(f, b, l);
      }
    }
    forall b | b in ExpandForks(s.blocks, heads, f)
      ensures !OnChain(f, b)
    {
      var h :| h in heads && OnChain(b, h);
      if OnChain(f, b) {
        OnChainTransitive(f, b, h);
      }
    }
  }

  // ---- Incomplete answers ----

  function Plain(parent: Block, slot: nat): Block { Child(parent, slot, false, [], [], 0) }

  /** The first two blocks of a chain and a fork beside the second, the first one finalized. */
  function Forked(): (State, Block)
  {
    var a := Plain(Genesis, 1);
    var b, c := Plain(a, 2), Plain(a, 3);
    (State({Genesis, a, b, c}, b, a, map[a := 0, b := 0, c := 0], map[]), b)
  }

  lemma ForkedFacts()
    ensures var (s, f) := Forked();
            && Rooted(s.blocks) && f in s.blocks && OnChain(s.finalized, f) && s.finalized != f && WeighsLive(s)
            && Stale(s, f, Plain(s.finalized, 3)) && !OnChain(f, Plain(s.finalized, 3)) && s.finalized.Child?
  {
    var a := Plain(Genesis, 1);
    assert !OnChain(a, Genesis);
  }

  /** Finalizing the second block without the metadata, or without the fork expanded, leaves a weight too many. */
  lemma IncompleteAnswersLeaveWeights()
    ensures var (s, f) := Forked();
            && OnChain(s.finalized, f) && s.finalized != f && WeighsLive(s)
            && !WeighsLive(FinalizeStep(s, f, false, {Plain(s.finalized, 3)}))
            && !WeighsLive(FinalizeStep(s, f, true, {}))
  {
    ForkedFacts();
    var (s, f) := Forked();
    CleanupExact(s, f, false, {Plain(s.finalized, 3)});
    CleanupExact(s, f, true, {});
  }
}
