/**
 Claiming a slot. Signatures and the VRF are ideal: a signature verifies exactly
 when its key made it over that message. Hashes, the VRF outputs, the scores and
 the floating-point threshold are arbitrary fixed functions.
 */
module Authorship {
  import opened Common
  import opened Epochs

  datatype VrfData = VrfData(randomness: Randomness, slot: Slot, epochIndex: nat)

  datatype VrfSignature = VrfSignature(preOutput: nat, signer: AuthorityId, data: VrfData)

  datatype Signature = Signature(signer: AuthorityId, message: nat)

  datatype PreDigest =
    | Primary(slot: Slot, authorityIndex: nat, vrf: VrfSignature)
    | SecondaryPlain(slot: Slot, authorityIndex: nat)
    | SecondaryVrf(slot: Slot, authorityIndex: nat, vrf: VrfSignature)

  datatype DigestItem = PreRuntime(pre: PreDigest) | Seal(signature: Signature) | Other(log: nat)

  datatype Header = Header(number: nat, content: nat, digest: seq<DigestItem>)

  datatype Crypto = Crypto(
    vrfOutput: (AuthorityId, VrfData) -> nat,
    score: (AuthorityId, VrfData, nat) -> Option<nat>,
    threshold: ((nat, nat), seq<Authority>, nat) -> nat,
    slotHash: (Randomness, Slot) -> nat,
    headerHash: Header -> nat)

  function VrfSign(cr: Crypto, id: AuthorityId, data: VrfData): VrfSignature
  {
    VrfSignature(cr.vrfOutput(id, data), id, data)
  }

  predicate VrfVerify(cr: Crypto, id: AuthorityId, data: VrfData, vrf: VrfSignature)
  {
    vrf == VrfSign(cr, id, data)
  }

  function PrimaryThreshold(cr: Crypto, c: (nat, nat), authorities: seq<Authority>, index: nat): nat
  {
    if c.1 == 0 || index >= |authorities| then 0 else cr.threshold(c, authorities, index)
  }

  /** The index of the epoch that the slot belongs to, skipped epochs included. */
  function EpochIndexAt(epoch: Epoch, slot: Slot): nat
    requires epoch.duration > 0
  {
    if epoch.EndSlot() <= slot then epoch.CloneForSlot(slot).index else epoch.index
  }

  function SlotData(epoch: Epoch, slot: Slot): VrfData
    requires epoch.duration > 0
  {
    VrfData(epoch.randomness, slot, EpochIndexAt(epoch, slot))
  }

  /** The author that the hash of randomness and slot picks when no primary claim is made. */
  function SecondarySlotAuthor(cr: Crypto, slot: Slot, authorities: seq<Authority>, randomness: Randomness): (r: Option<AuthorityId>)
    ensures r.None? <==> authorities == []
    ensures r.Some? ==> exists i :: 0 <= i < |authorities| && authorities[i].0 == r.value
  {
    if authorities == [] then None
    else Some(authorities[cr.slotHash(randomness, slot) % |authorities|].0)
  }

  /** The hash of randomness and slot picks the author: the one at the remainder of dividing it among them. */
  lemma SlotHashPicksAuthor(
    cr: Crypto, slot: Slot, authorities: seq<Authority>, randomness: Randomness, i: nat, rounds: nat)
    requires i < |authorities| && cr.slotHash(randomness, slot) == rounds * |authorities| + i
    ensures SecondarySlotAuthor(cr, slot, authorities, randomness) == Some(authorities[i].0)
  {
    var hash, n := cr.slotHash(randomness, slot), |authorities|;
    assert hash == hash / n * n + hash % n;
    OneEpochPerSlot(0, n, rounds, hash / n, hash);
  }

  type Key = (AuthorityId, nat)
  type Claim = Option<(PreDigest, AuthorityId)>

  /** The VRF score of the key's authority is below its threshold. */
  predicate WinsPrimary(cr: Crypto, slot: Slot, epoch: Epoch, c: (nat, nat), key: Key)
    requires epoch.duration > 0
  {
    var data := SlotData(epoch, slot);
    var score := cr.score(key.0, data, cr.vrfOutput(key.0, data));
    score.Some? && score.value < PrimaryThreshold(cr, c, epoch.authorities, key.1)
  }

  predicate WinsSecondary(cr: Crypto, slot: Slot, epoch: Epoch, key: Key)
  {
    SecondarySlotAuthor(cr, slot, epoch.authorities, epoch.randomness) == Some(key.0)
  }

  function PrimaryDigest(cr: Crypto, slot: Slot, epoch: Epoch, key: Key): PreDigest
    requires epoch.duration > 0
  {
    Primary(slot, AsU32(key.1), VrfSign(cr, key.0, SlotData(epoch, slot)))
  }

  function SecondaryDigest(cr: Crypto, slot: Slot, epoch: Epoch, vrf: bool, key: Key): PreDigest
    requires epoch.duration > 0
  {
    if vrf then SecondaryVrf(slot, AsU32(key.1), VrfSign(cr, key.0, SlotData(epoch, slot)))
    else SecondaryPlain(slot, AsU32(key.1))
  }

  /** The claim is the one of the first key in the list that is ours and wins, if any does. */
  ghost predicate IsPrimaryClaim(
    cr: Crypto, slot: Slot, epoch: Epoch, c: (nat, nat), keystore: set<AuthorityId>, keys: seq<Key>, claim: Claim)
    requires epoch.duration > 0
  {
    match claim
    case None => forall j :: 0 <= j < |keys| ==> !(keys[j].0 in keystore && WinsPrimary(cr, slot, epoch, c, keys[j]))
    case Some((pre, id)) =>
      exists i :: 0 <= i < |keys| && keys[i].0 in keystore && WinsPrimary(cr, slot, epoch, c, keys[i])
        && pre == PrimaryDigest(cr, slot, epoch, keys[i]) && id == keys[i].0
        && forall j :: 0 <= j < i ==> !(keys[j].0 in keystore && WinsPrimary(cr, slot, epoch, c, keys[j]))
  }

  ghost predicate IsSecondaryClaim(
    cr: Crypto, slot: Slot, epoch: Epoch, keys: seq<Key>, keystore: set<AuthorityId>, vrf: bool, claim: Claim)
    requires epoch.duration > 0
  {
    match claim
    case None => forall j :: 0 <= j < |keys| ==> !(keys[j].0 in keystore && WinsSecondary(cr, slot, epoch, keys[j]))
    case Some((pre, id)) =>
      exists i :: 0 <= i < |keys| && keys[i].0 in keystore && WinsSecondary(cr, slot, epoch, keys[i])
        && pre == SecondaryDigest(cr, slot, epoch, vrf, keys[i]) && id == keys[i].0
        && forall j :: 0 <= j < i ==> !(keys[j].0 in keystore && WinsSecondary(cr, slot, epoch, keys[j]))
  }

  predicate SecondaryAllowed(config: EpochConfig)
  {
    config.allowed != PrimarySlots
  }

  /** A primary claim if there is one, else a secondary claim where the epoch allows it. */
  ghost predicate IsClaim(cr: Crypto, slot: Slot, epoch: Epoch, keystore: set<AuthorityId>, keys: seq<Key>, claim: Claim)
    requires epoch.duration > 0
  {
    || (claim.Some? && IsPrimaryClaim(cr, slot, epoch, epoch.config.c, keystore, keys, claim))
    || (&& IsPrimaryClaim(cr, slot, epoch, epoch.config.c, keystore, keys, None)
        && if SecondaryAllowed(epoch.config)
           then IsSecondaryClaim(cr, slot, epoch, keys, keystore, epoch.config.allowed == PrimaryAndSecondaryVrf, claim)
           else claim == None)
  }

  method ClaimPrimarySlot(cr: Crypto, slot: Slot, epoch: Epoch, c: (nat, nat), keystore: set<AuthorityId>, keys: seq<Key>)
    returns (claim: Claim)
    requires epoch.duration > 0
    ensures IsPrimaryClaim(cr, slot, epoch, c, keystore, keys, claim)
  {
    var epochIndex := epoch.index;
    if epoch.EndSlot() <= slot {
      epochIndex := epoch.CloneForSlot(slot).index;
    }
    var data := VrfData(epoch.randomness, slot, epochIndex);
    for i := 0 to |keys|
      invariant forall j :: 0 <= j < i ==> !(keys[j].0 in keystore && WinsPrimary(cr, slot, epoch, c, keys[j]))
    {
      var (id, index) := keys[i];
      if id in keystore {
        var vrf := VrfSign(cr, id, data);
        var threshold := PrimaryThreshold(cr, c, epoch.authorities, index);
        var score := cr.score(id, data, vrf.preOutput);
        if score.Some? && score.value < threshold {
          return Some((Primary(slot, AsU32(index), vrf), id));
        }
      }
    }
    return None;
  }

  method ClaimSecondarySlot(cr: Crypto, slot: Slot, epoch: Epoch, keys: seq<Key>, keystore: set<AuthorityId>, vrf: bool)
    returns (claim: Claim)
    requires epoch.duration > 0
    ensures IsSecondaryClaim(cr, slot, epoch, keys, keystore, vrf, claim)
  {
    if epoch.authorities == [] {
      return None;
    }
    var epochIndex := epoch.index;
    if epoch.EndSlot() <= slot {
      epochIndex := epoch.CloneForSlot(slot).index;
    }
    var expected := SecondarySlotAuthor(cr, slot, epoch.authorities, epoch.randomness);
    for i := 0 to |keys|
      invariant forall j :: 0 <= j < i ==> !(keys[j].0 in keystore && WinsSecondary(cr, slot, epoch, keys[j]))
    {
      var (id, index) := keys[i];
      if expected == Some(id) {
        var pre: Option<PreDigest> := None;
        if vrf {
          var data := VrfData(epoch.randomness, slot, epochIndex);
          if id in keystore {
            pre := Some(SecondaryVrf(slot, AsU32(index), VrfSign(cr, id, data)));
          }
        } else if id in keystore {
          pre := Some(SecondaryPlain(slot, AsU32(index)));
        }
        if pre.Some? {
          return Some((pre.value, id));
        }
      }
    }
    return None;
  }

  method ClaimSlotUsingKeys(cr: Crypto, slot: Slot, epoch: Epoch, keystore: set<AuthorityId>, keys: seq<Key>)
    returns (claim: Claim)
    requires epoch.duration > 0
    ensures IsClaim(cr, slot, epoch, keystore, keys, claim)
  {
    claim := ClaimPrimarySlot(cr, slot, epoch, epoch.config.c, keystore, keys);
    if claim.None? && (epoch.config.allowed == PrimaryAndSecondaryPlain || epoch.config.allowed == PrimaryAndSecondaryVrf) {
      claim := ClaimSecondarySlot(cr, slot, epoch, keys, keystore, epoch.config.allowed == PrimaryAndSecondaryVrf);
    }
  }

  /** The authorities of the epoch with their positions. */
  function EpochKeys(authorities: seq<Authority>): seq<Key>
  {
    seq(|authorities|, i requires 0 <= i < |authorities| => (authorities[i].0, i))
  }

  method ClaimSlot(cr: Crypto, slot: Slot, epoch: Epoch, keystore: set<AuthorityId>) returns (claim: Claim)
    requires epoch.duration > 0
    ensures IsClaim(cr, slot, epoch, keystore, EpochKeys(epoch.authorities), claim)
  {
    claim := ClaimSlotUsingKeys(cr, slot, epoch, keystore, EpochKeys(epoch.authorities));
  }

  /** A slot is left empty only if no key of ours wins it. */
  lemma ClaimedWhenOurs(cr: Crypto, slot: Slot, epoch: Epoch, keystore: set<AuthorityId>, claim: Claim)
    requires epoch.duration > 0 && IsClaim(cr, slot, epoch, keystore, EpochKeys(epoch.authorities), claim)
    ensures claim.Some? <==>
            || (exists i :: 0 <= i < |epoch.authorities| && epoch.authorities[i].0 in keystore
                  && WinsPrimary(cr, slot, epoch, epoch.config.c, (epoch.authorities[i].0, i)))
            || (SecondaryAllowed(epoch.config) && epoch.authorities != []
                  && SecondarySlotAuthor(cr, slot, epoch.authorities, epoch.randomness).value in keystore)
  {
    hide WinsPrimary, PrimaryDigest, SecondaryDigest;
    var keys := EpochKeys(epoch.authorities);
    assert forall i :: 0 <= i < |keys| ==> keys[i] == (epoch.authorities[i].0, i);
  }
}
