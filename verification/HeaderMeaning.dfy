/**
 Claims and accepted headers spelled out: which epoch index the VRF is made over when
 epochs were skipped, what the score is compared with, who the secondary author is.
 */
module HeaderMeaning {
  import opened Common
  import opened Epochs
  import opened Authorship
  import opened Verification

  /** The VRF input of a slot: the index of the epoch that contains it, which before the start is the epoch's own. */
  ghost predicate InputFor(epoch: Epoch, slot: Slot, data: VrfData)
  {
    && data.randomness == epoch.randomness && data.slot == slot && data.epochIndex >= epoch.index
    && if slot < epoch.start then data.epochIndex == epoch.index
       else var skipped := data.epochIndex - epoch.index;
            epoch.start + skipped * epoch.duration <= slot < epoch.start + skipped * epoch.duration + epoch.duration
  }

  lemma SlotDataIsInput(epoch: Epoch, slot: Slot)
    requires epoch.duration > 0
    ensures InputFor(epoch, slot, SlotData(epoch, slot))
  {
    if epoch.EndSlot() > slot {
      assert 0 * epoch.duration == 0;
    }
  }

  /** There is only one. */
  lemma InputIsUnique(epoch: Epoch, slot: Slot, data: VrfData)
    requires epoch.duration > 0
    ensures InputFor(epoch, slot, data) <==> data == SlotData(epoch, slot)
  {
    SlotDataIsInput(epoch, slot);
    if InputFor(epoch, slot, data) && epoch.start <= slot {
      var d := SlotData(epoch, slot);
      OneEpochPerSlot(epoch.start, epoch.duration, data.epochIndex - epoch.index, d.epochIndex - epoch.index, slot);
    }
  }

  /** It is the index that the epoch has after the announcements that reach the slot. */
  lemma InputAfterChanges(epoch: Epoch, slot: Slot, data: VrfData, changes: seq<(Descriptor, EpochConfig)>)
    requires epoch.duration > 0 && InputFor(epoch, slot, data)
    requires IncrementAll(epoch, changes).start <= slot < IncrementAll(epoch, changes).EndSlot()
    ensures data.epochIndex == IncrementAll(epoch, changes).index
  {
    IncrementAllSchedule(epoch, changes);
    assert epoch.start <= slot by { assert |changes| * epoch.duration >= 0; }
    OneEpochPerSlot(epoch.start, epoch.duration, data.epochIndex - epoch.index, |changes|, slot);
  }

  /** A VRF signature of the authority over the input of the slot. */
  ghost predicate GenuineVrf(cr: Crypto, epoch: Epoch, slot: Slot, id: AuthorityId, vrf: VrfSignature)
  {
    InputFor(epoch, slot, vrf.data) && vrf.signer == id && vrf.preOutput == cr.vrfOutput(id, vrf.data)
  }

  lemma GenuineVrfVerifies(cr: Crypto, epoch: Epoch, slot: Slot, id: AuthorityId, vrf: VrfSignature)
    requires epoch.duration > 0
    ensures GenuineVrf(cr, epoch, slot, id, vrf) <==> VrfVerify(cr, id, SlotData(epoch, slot), vrf)
  {
    hide SlotData, InputFor;
    InputIsUnique(epoch, slot, vrf.data);
  }

  /** The score of the authority is below what its place in the list entitles it to. */
  ghost predicate Below(cr: Crypto, epoch: Epoch, id: AuthorityId, index: nat, vrf: VrfSignature)
  {
    var score := cr.score(id, vrf.data, vrf.preOutput);
    && score.Some? && epoch.config.c.1 != 0 && index < |epoch.authorities|
    && score.value < cr.threshold(epoch.config.c, epoch.authorities, index)
  }

  /** The authority at the remainder of the hash of randomness and slot. */
  ghost predicate Expected(cr: Crypto, epoch: Epoch, slot: Slot, id: AuthorityId)
  {
    epoch.authorities != [] && id == epoch.authorities[cr.slotHash(epoch.randomness, slot) % |epoch.authorities|].0
  }

  /** What a pre-digest made by the authority for its place in the list must be. */
  ghost predicate GenuineDigest(cr: Crypto, epoch: Epoch, pre: PreDigest, id: AuthorityId)
  {
    match pre
    case Primary(slot, index, vrf) => GenuineVrf(cr, epoch, slot, id, vrf) && Below(cr, epoch, id, index, vrf)
    case SecondaryPlain(slot, _) => epoch.config.allowed == PrimaryAndSecondaryPlain && Expected(cr, epoch, slot, id)
    case SecondaryVrf(slot, _, vrf) =>
      epoch.config.allowed == PrimaryAndSecondaryVrf && Expected(cr, epoch, slot, id) && GenuineVrf(cr, epoch, slot, id, vrf)
  }

  /** A header is accepted exactly if it is in time, names an authority, carries its seal and a genuine digest of it. */
  lemma AcceptedMeans(cr: Crypto, body: Header, seal: DigestItem, pre: PreDigest, slotNow: Slot, epoch: Epoch)
    requires epoch.duration > 0
    ensures var r := Judged(cr, body, seal, pre, slotNow, epoch);
            r.Ok? && r.value.Checked? <==>
              && pre.slot <= slotNow && pre.authorityIndex < |epoch.authorities|
              && seal == Seal(Signature(epoch.authorities[pre.authorityIndex].0, cr.headerHash(body)))
              && GenuineDigest(cr, epoch, pre, epoch.authorities[pre.authorityIndex].0)
  {
    hide SlotData, GenuineVrf, VrfVerify;
    if pre.authorityIndex < |epoch.authorities| && !pre.SecondaryPlain? {
      GenuineVrfVerifies(cr, epoch, pre.slot, epoch.authorities[pre.authorityIndex].0, pre.vrf);
      VerifiedData(cr, epoch, pre.slot, epoch.authorities[pre.authorityIndex].0, pre.vrf);
    }
  }

  lemma VerifiedData(cr: Crypto, epoch: Epoch, slot: Slot, id: AuthorityId, vrf: VrfSignature)
    requires epoch.duration > 0
    ensures VrfVerify(cr, id, SlotData(epoch, slot), vrf) ==> vrf.data == SlotData(epoch, slot)
  {
  }

  /** Every claim over the authorities of an epoch is for the slot, by a key of ours, and genuine for its place. */
  lemma ClaimMeans(cr: Crypto, slot: Slot, epoch: Epoch, keystore: set<AuthorityId>, pre: PreDigest, id: AuthorityId)
    requires epoch.duration > 0 && |epoch.authorities| <= U32_MAX + 1
    requires IsClaim(cr, slot, epoch, keystore, EpochKeys(epoch.authorities), Some((pre, id)))
    ensures pre.slot == slot && id in keystore && GenuineDigest(cr, epoch, pre, id)
    ensures pre.authorityIndex < |epoch.authorities| && epoch.authorities[pre.authorityIndex].0 == id
  {
    hide GenuineDigest, IsClaim, EpochKeys, Judged;
    ClaimNamesItsAuthority(cr, slot, epoch, keystore, pre, id);
    ClaimIsOurs(cr, slot, epoch, keystore, EpochKeys(epoch.authorities), pre, id);
    var body := Header(1, 0, []);
    AcceptedByClaim(cr, slot, epoch, keystore, pre, id, body);
    AcceptedMeans(cr, body, SealBy(cr, body, id), pre, slot, epoch);
  }

  /** The number in a claim is its authority's place in the list, in 32 bits. */
  lemma ClaimNumbersPlace(cr: Crypto, slot: Slot, epoch: Epoch, keystore: set<AuthorityId>, pre: PreDigest, id: AuthorityId)
    requires epoch.duration > 0
    requires IsClaim(cr, slot, epoch, keystore, EpochKeys(epoch.authorities), Some((pre, id)))
    ensures exists i :: 0 <= i < |epoch.authorities| && epoch.authorities[i].0 == id && pre.authorityIndex == i % 0x1_0000_0000
  {
    hide WinsPrimary, WinsSecondary, SlotData;
  }

  lemma ClaimIsOurs(
    cr: Crypto, slot: Slot, epoch: Epoch, keystore: set<AuthorityId>, keys: seq<Key>, pre: PreDigest, id: AuthorityId)
    requires epoch.duration > 0 && IsClaim(cr, slot, epoch, keystore, keys, Some((pre, id)))
    ensures id in keystore
  {
    hide WinsPrimary, WinsSecondary, PrimaryDigest, SecondaryDigest;
  }

  lemma AcceptedByClaim(
    cr: Crypto, slot: Slot, epoch: Epoch, keystore: set<AuthorityId>, pre: PreDigest, id: AuthorityId, body: Header)
    requires epoch.duration > 0 && |epoch.authorities| <= U32_MAX + 1
    requires IsClaim(cr, slot, epoch, keystore, EpochKeys(epoch.authorities), Some((pre, id)))
    ensures Judged(cr, body, SealBy(cr, body, id), pre, slot, epoch) == Ok(Checked(body, pre, SealBy(cr, body, id), id))
  {
    hide IsClaim, Judged, EpochKeys, WinsPrimary;
    ClaimNamesItsAuthority(cr, slot, epoch, keystore, pre, id);
    ClaimAcceptedExactly(cr, slot, epoch, keystore, EpochKeys(epoch.authorities), pre, id, body, slot);
  }

  /** A VRF signature by an authority of ours that wins the slot for its place in the list. */
  ghost predicate WinningVrf(cr: Crypto, epoch: Epoch, slot: Slot, keystore: set<AuthorityId>, i: nat, vrf: VrfSignature)
  {
    && i < |epoch.authorities| && epoch.authorities[i].0 in keystore
    && GenuineVrf(cr, epoch, slot, epoch.authorities[i].0, vrf) && Below(cr, epoch, epoch.authorities[i].0, i, vrf)
  }

  /** No claim is made only if no authority of ours wins the slot. */
  lemma ClaimedMeans(cr: Crypto, slot: Slot, epoch: Epoch, keystore: set<AuthorityId>, claim: Claim)
    requires epoch.duration > 0 && IsClaim(cr, slot, epoch, keystore, EpochKeys(epoch.authorities), claim)
    ensures claim.None? ==> forall i, vrf :: !WinningVrf(cr, epoch, slot, keystore, i, vrf)
    ensures claim.None? && epoch.config.allowed != PrimarySlots ==>
              forall id :: Expected(cr, epoch, slot, id) ==> id !in keystore
  {
    hide IsClaim, EpochKeys, SlotData, GenuineVrf;
    ClaimedWhenOurs(cr, slot, epoch, keystore, claim);
    forall i: nat, vrf | claim.None?
      ensures !WinningVrf(cr, epoch, slot, keystore, i, vrf)
    {
      if i < |epoch.authorities| && epoch.authorities[i].0 in keystore {
        GenuineVrfVerifies(cr, epoch, slot, epoch.authorities[i].0, vrf);
        assert !WinsPrimary(cr, slot, epoch, epoch.config.c, (epoch.authorities[i].0, i));
      }
    }
  }

  /** A header other than genesis has a pre-digest exactly if one of its logs, and no other, is one. */
  lemma PreDigestMeans(header: Header, pre: PreDigest)
    requires header.number > 0
    ensures PreDigestOf(header) == Ok(pre) <==>
            exists i :: OnlyAt(header.digest, pre, i)
  {
    OneFound(header.digest, pre);
  }

  ghost predicate OnlyAt(logs: seq<DigestItem>, pre: PreDigest, i: nat)
  {
    i < |logs| && logs[i] == PreRuntime(pre) && forall j :: 0 <= j < |logs| && j != i ==> !logs[j].PreRuntime?
  }

  lemma {:induction false} NoneFound(logs: seq<DigestItem>)
    ensures PreDigests(logs) == [] <==> forall j :: 0 <= j < |logs| ==> !logs[j].PreRuntime?
  {
    if logs != [] {
      NoneFound(logs[..|logs| - 1]);
    }
  }

  lemma OnlyBefore(logs: seq<DigestItem>, pre: PreDigest, i: nat)
    requires logs != [] && !logs[|logs| - 1].PreRuntime?
    ensures OnlyAt(logs[..|logs| - 1], pre, i) <==> OnlyAt(logs, pre, i)
  {
    var init := logs[..|logs| - 1];
    if OnlyAt(logs, pre, i) {
      assert forall j :: 0 <= j < |init| ==> init[j] == logs[j];
    }
    if OnlyAt(init, pre, i) {
      assert forall j :: 0 <= j < |init| ==> logs[j] == init[j];
    }
  }

  lemma {:induction false} OneFound(logs: seq<DigestItem>, pre: PreDigest)
    ensures PreDigests(logs) == [pre] <==> exists i :: OnlyAt(logs, pre, i)
  {
    if logs != [] {
      var init, last := logs[..|logs| - 1], logs[|logs| - 1];
      NoneFound(init);
      OneFound(init, pre);
      if last.PreRuntime? {
        var rest := PreDigests(init);
        assert PreDigests(logs) == rest + [last.pre] && (rest + [last.pre])[|rest|] == last.pre;
        assert PreDigests(logs) == [pre] ==> |rest| == 0 && last.pre == pre;
        assert PreDigests(logs) == [pre] ==> OnlyAt(logs, pre, |logs| - 1);
        assert forall i :: OnlyAt(logs, pre, i) ==> i == |logs| - 1;
      } else {
        forall i
          ensures OnlyAt(init, pre, i) <==> OnlyAt(logs, pre, i)
        {
          OnlyBefore(logs, pre, i);
        }
        assert PreDigests(logs) == PreDigests(init);
      }
    }
  }
}
