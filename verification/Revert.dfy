/**
 Reverting the auxiliary data: which block weights and epoch changes go when the
 chain is taken back by a number of blocks.
 */
module Revert {
  import opened Epochs
  import opened BlockTree

  /** What lies strictly above a block. */
  ghost function Above(blocks: set<Block>, r: Block): set<Block>
  {
    set b | b in blocks && OnChain(r, b) && b != r
  }

  /** The number to revert to: back by as much as asked, or to the finalized block if that is nearer. */
  function RevertNumber(best: Block, finalized: Block, count: nat): (n: nat)
    requires OnChain(finalized, best)
    ensures Number(finalized) <= n <= Number(best)
    ensures if Number(best) >= Number(finalized) + count then n + count == Number(best) else n == Number(finalized)
  {
    OnChainNumber(finalized, best);
    var unfinalized := Number(best) - Number(finalized);
    Number(best) - if count < unfinalized then count else unfinalized
  }

  /** The collected blocks reach down to the revert point, or to the block the walk is at. */
  ghost predicate Reaches(blocks: set<Block>, r: Block, collected: set<Block>, at: Block)
  {
    forall b :: b in collected ==> b in blocks && b.Child? && OnChain(r, b) && b != r
                                   && (b.parent == r || b.parent in collected || b.parent == at)
  }

  /** The blocks above the revert point under some leaf whose route could be read. */
  ghost function Covered(blocks: set<Block>, leaves: seq<Block>, routed: set<Block>, r: Block): set<Block>
  {
    set b | b in Above(blocks, r) && UnderRouted(leaves, routed, b)
  }

  ghost predicate UnderRouted(leaves: seq<Block>, routed: set<Block>, b: Block)
  {
    exists l :: l in leaves && l in routed && OnChain(b, l)
  }

  /** The leaf-to-root walks collect exactly the covered blocks. */
  method CollectWeightKeys(blocks: set<Block>, leaves: seq<Block>, routed: set<Block>, r: Block) returns (keys: set<Block>)
    requires Rooted(blocks) && r in blocks && forall l :: l in leaves ==> l in blocks
    ensures keys == Covered(blocks, leaves, routed, r)
  {
    keys := {};
    for i := 0 to |leaves|
      invariant Reaches(blocks, r, keys, r) && forall b :: b in keys ==> UnderRouted(leaves, routed, b)
      invariant forall j :: 0 <= j < i && OnChain(r, leaves[j]) && leaves[j] in routed ==> leaves[j] == r || leaves[j] in keys
    {
      assert leaves[i] in leaves;
      if leaves[i] in routed && OnChain(r, leaves[i]) {
        keys := Walk(blocks, r, leaves[i], keys);
      }
    }
    forall b | b in Covered(blocks, leaves, routed, r)
      ensures b in keys
    {
      var l :| l in leaves && l in routed && OnChain(b, l);
      OnChainTransitive(r, b, l);
      OnChainAntisymmetricUnless(r, b, l);
      ReachedDown(blocks, r, keys, b, l);
    }
  }

  /** One walk: from a leaf towards genesis until the revert point or a block already seen. */
  method Walk(blocks: set<Block>, r: Block, leaf: Block, seen: set<Block>) returns (keys: set<Block>)
    requires Rooted(blocks) && leaf in blocks && OnChain(r, leaf) && Reaches(blocks, r, seen, r)
    ensures seen <= keys && Reaches(blocks, r, keys, r) && (leaf == r || leaf in keys)
    ensures forall b :: b in keys ==> b in seen || OnChain(b, leaf)
  {
    keys := seen;
    var at := leaf;
    while true
      invariant seen <= keys && at in blocks && OnChain(r, at) && Reaches(blocks, r, keys, at)
      invariant at == leaf || leaf in keys
      invariant OnChain(at, leaf) && forall b :: b in keys ==> b in seen || OnChain(b, leaf)
      decreases at
    {
      OnChainNumber(r, at);
      if Number(at) <= Number(r) || at in keys {
        break;
      }
      OnChainTransitive(at.parent, at, leaf);
      keys := keys + {at};
      at := at.parent;
    }
  }

  /** Nothing above the revert point is missed exactly if the route to every leaf above it could be read. */
  lemma CoversAllExactly(blocks: set<Block>, leaves: seq<Block>, routed: set<Block>, r: Block)
    requires Rooted(blocks) && forall l :: l in leaves <==> Leaf(blocks, l)
    ensures Covered(blocks, leaves, routed, r) == Above(blocks, r) <==>
            forall l :: l in leaves && l in Above(blocks, r) ==> l in routed
  {
    if forall l :: l in leaves && l in Above(blocks, r) ==> l in routed {
      forall b | b in Above(blocks, r)
        ensures UnderRouted(leaves, routed, b)
      {
        var l := LeafAbove(blocks, b);
        OnChainTransitive(r, b, l);
        OnChainAntisymmetricUnless(r, b, l);
      }
    }
    forall l | l in leaves && UnderRouted(leaves, routed, l)
      ensures l in routed
    {
      var l' :| l' in leaves && l' in routed && OnChain(l, l');
      LeafOnTop(blocks, l, l');
    }
  }

  /** One block above genesis whose route cannot be read: nothing is collected. */
  lemma UnreadRouteKeepsWeight(a: Block)
    requires a.Child? && a.parent.Genesis?
    ensures Rooted({Genesis, a}) && (forall l :: l in [a] <==> Leaf({Genesis, a}, l))
    ensures Covered({Genesis, a}, [a], {}, Genesis) == {} && a in Above({Genesis, a}, Genesis)
  {
    NotOnOwnParent(a);
    GenesisOnChain(a);
  }

  /** Nothing imported lies above a leaf. */
  lemma {:induction false} LeafOnTop(blocks: set<Block>, l: Block, b: Block)
    requires Rooted(blocks) && Leaf(blocks, l) && b in blocks && OnChain(l, b)
    ensures b == l
  {
    if b != l {
      LeafOnTop(blocks, l, b.parent);
    }
  }

  lemma OnChainAntisymmetricUnless(r: Block, b: Block, l: Block)
    requires OnChain(r, b) && OnChain(b, l) && b != r
    ensures l != r
  {
    if l == r {
      OnChainAntisymmetric(r, b);
    }
  }

  lemma {:induction false} ReachedDown(blocks: set<Block>, r: Block, collected: set<Block>, b: Block, l: Block)
    requires Reaches(blocks, r, collected, r) && l in collected
    requires OnChain(r, b) && b != r && OnChain(b, l)
    ensures b in collected
  {
    if b != l {
      OnChainAntisymmetricUnless(r, b, l.parent);
      ReachedDown(blocks, r, collected, b, l.parent);
    }
  }

  /** The weights and the epoch changes, both by block. */
  datatype AuxData<E> = AuxData(weights: map<Block, nat>, epochs: map<Block, E>)

  /** Removal of the given weights and of everything announced strictly above a block. */
  ghost function RevertedTo<E>(keys: set<Block>, aux: AuxData<E>, r: Block): AuxData<E>
  {
    AuxData(aux.weights - keys, map b | b in aux.epochs && !(OnChain(r, b) && b != r) :: aux.epochs[b])
  }

  ghost function Reverted<E>(
    blocks: set<Block>, leaves: seq<Block>, routed: set<Block>, aux: AuxData<E>, best: Block, finalized: Block, count: nat)
    : AuxData<E>
    requires OnChain(finalized, best)
  {
    var number := RevertNumber(best, finalized, count);
    var r := AtNumber(best, number);
    if number == Number(best) then aux else RevertedTo(Covered(blocks, leaves, routed, r), aux, r)
  }

  /** Genesis announces nothing, so dropping the whole epoch tree is the same rule at genesis. */
  method RevertAux<E>(
    blocks: set<Block>, leaves: seq<Block>, routed: set<Block>, best: Block, finalized: Block, count: nat, aux: AuxData<E>)
    returns (aux': AuxData<E>)
    requires Rooted(blocks) && best in blocks && OnChain(finalized, best) && Genesis !in aux.epochs
    requires forall l :: l in leaves ==> l in blocks
    ensures aux' == Reverted(blocks, leaves, routed, aux, best, finalized, count)
  {
    hide Covered;
    OnChainNumber(finalized, best);
    var unfinalized := Number(best) - Number(finalized);
    var revertible := if count < unfinalized then count else unfinalized;
    if revertible == 0 {
      return aux;
    }
    var number := Number(best) - revertible;
    var r := AtNumber(best, number);
    RootedHolds(blocks, r, best);
    var epochs: map<Block, E> := map[];
    if number != 0 {
      epochs := map b | b in aux.epochs && !(OnChain(r, b) && b != r) :: aux.epochs[b];
    } else {
      ClearsAll(aux.epochs, r);
    }
    var keys := CollectWeightKeys(blocks, leaves, routed, r);
    aux' := AuxData(aux.weights - keys, epochs);
  }

  lemma ClearsAll<E>(epochs: map<Block, E>, r: Block)
    requires Number(r) == 0 && Genesis !in epochs
    ensures (map b | b in epochs && !(OnChain(r, b) && b != r) :: epochs[b]) == map[]
  {
    forall b | b in epochs
      ensures OnChain(r, b)
    {
      GenesisOnChain(b);
    }
  }

  /** The revert point is count blocks back on the best chain, or the finalized block if that is nearer. */
  lemma RevertPoint(best: Block, finalized: Block, count: nat)
    requires OnChain(finalized, best)
    ensures var r := AtNumber(best, RevertNumber(best, finalized, count));
            && OnChain(finalized, r) && OnChain(r, best)
            && (Number(best) == Number(r) + count || (r == finalized && Number(best) < Number(r) + count))
  {
    var r := AtNumber(best, RevertNumber(best, finalized, count));
    OnChainNumber(finalized, best);
    OnChainTotal(finalized, r, best);
    if OnChain(r, finalized) {
      OnChainNumber(r, finalized);
    } else {
      OnChainNumber(finalized, r);
    }
  }

  /** The epoch changes left are those not announced strictly above the revert point, and no weight up to it is touched. */
  lemma RevertKeepsFinalized<E>(
    blocks: set<Block>, leaves: seq<Block>, routed: set<Block>, aux: AuxData<E>, best: Block, finalized: Block, count: nat)
    requires OnChain(finalized, best)
    ensures var aux' := Reverted(blocks, leaves, routed, aux, best, finalized, count);
            var r := AtNumber(best, RevertNumber(best, finalized, count));
            && (forall b :: OnChain(b, r) && b in aux.weights ==> b in aux'.weights && aux'.weights[b] == aux.weights[b])
            && (forall b :: b in aux'.epochs ==> b in aux.epochs && aux'.epochs[b] == aux.epochs[b])
            && (Number(r) < Number(best) ==>
                  forall b :: b in aux.epochs ==> (b in aux'.epochs <==> b == r || !OnChain(r, b)))
            && (forall b :: OnChain(b, r) && b in aux.epochs ==> b in aux'.epochs)
  {
    var r := AtNumber(best, RevertNumber(best, finalized, count));
    forall b | OnChain(b, r)
      ensures !(OnChain(r, b) && b != r)
    {
      if OnChain(r, b) {
        OnChainAntisymmetric(b, r);
      }
    }
  }

  /** If exactly the blocks above the finalized one have weights and all routes are read, that holds of the blocks left too. */
  lemma RevertKeepsWeighing<E>(
    blocks: set<Block>, leaves: seq<Block>, routed: set<Block>, aux: AuxData<E>, best: Block, finalized: Block, count: nat)
    requires Rooted(blocks) && best in blocks && OnChain(finalized, best)
    requires (forall l :: l in leaves <==> Leaf(blocks, l)) && forall l :: l in leaves ==> l in routed
    requires forall b :: b in aux.weights <==> b in blocks && b != Genesis && OnChain(finalized, b)
    ensures var aux' := Reverted(blocks, leaves, routed, aux, best, finalized, count);
            var r := AtNumber(best, RevertNumber(best, finalized, count));
            Number(r) < Number(best) ==>
              forall b :: b in aux'.weights <==> b in blocks - Above(blocks, r) && b != Genesis && OnChain(finalized, b)
  {
    CoversAllExactly(blocks, leaves, routed, AtNumber(best, RevertNumber(best, finalized, count)));
  }
}
