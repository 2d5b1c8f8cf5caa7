/**
 Checking a sealed header, and why it agrees with slot claiming: the headers that
 are accepted are exactly those an authority makes by claiming its slot.
 */
module Verification {
  import opened Common
  import opened Epochs
  import opened Authorship

  datatype HeaderError =
    | NoPreRuntimeDigest | MultiplePreRuntimeDigests | HeaderUnsealed | HeaderBadSeal | SlotAuthorNotFound
    | BadSignature | VrfVerificationFailed | VrfThresholdExceeded | NoSecondaryAuthorExpected | InvalidAuthor
    | SecondarySlotAssignmentsDisabled

  datatype Result<T> = Ok(value: T) | Err(error: HeaderError)

  datatype CheckedHeader =
    | Checked(header: Header, pre: PreDigest, seal: DigestItem, author: AuthorityId)
    | Deferred(header: Header, slot: Slot)

  // ---- The pre-runtime digest ----

  function PreDigests(logs: seq<DigestItem>): seq<PreDigest>
  {
    if logs == [] then []
    else
      var rest, last := PreDigests(logs[..|logs| - 1]), logs[|logs| - 1];
      if last.PreRuntime? then rest + [last.pre] else rest
  }

  /** Genesis has a made-up digest; every other header has exactly one. */
  function PreDigestOf(header: Header): Result<PreDigest>
  {
    var found := PreDigests(header.digest);
    if header.number == 0 then Ok(SecondaryPlain(0, 0))
    else if |found| == 1 then Ok(found[0])
    else Err(if found == [] then NoPreRuntimeDigest else MultiplePreRuntimeDigests)
  }

  lemma {:induction false} PreDigestsGrow(logs: seq<DigestItem>, i: nat)
    requires i <= |logs|
    ensures |PreDigests(logs[..i])| <= |PreDigests(logs)|
    decreases |logs|
  {
    if i < |logs| {
      PreDigestsGrow(logs[..|logs| - 1], i);
      assert logs[..|logs| - 1][..i] == logs[..i];
    } else {
      assert logs[..i] == logs;
    }
  }

  method FindPreDigest(header: Header) returns (r: Result<PreDigest>)
    ensures r == PreDigestOf(header)
  {
    if header.number == 0 {
      return Ok(SecondaryPlain(0, 0));
    }
    var logs := header.digest;
    var pre: Option<PreDigest> := None;
    for i := 0 to |logs|
      invariant PreDigests(logs[..i]) == if pre.Some? then [pre.value] else []
    {
      assert logs[..i + 1][..i] == logs[..i];
      if logs[i].PreRuntime? {
        if pre.Some? {
          PreDigestsGrow(logs, i + 1);
          return Err(MultiplePreRuntimeDigests);
        }
        pre := Some(logs[i].pre);
      }
    }
    assert logs[..|logs|] == logs;
    return if pre.Some? then Ok(pre.value) else Err(NoPreRuntimeDigest);
  }

  // ---- The header ----

  predicate Signed(id: AuthorityId, hash: nat, signature: Signature)
  {
    signature == Signature(id, hash)
  }

  function PrimaryError(cr: Crypto, hash: nat, pre: PreDigest, signature: Signature, epoch: Epoch): Option<HeaderError>
    requires pre.Primary? && pre.authorityIndex < |epoch.authorities| && epoch.duration > 0
  {
    var id := epoch.authorities[pre.authorityIndex].0;
    var data := SlotData(epoch, pre.slot);
    if !Signed(id, hash, signature) then Some(BadSignature)
    else if !VrfVerify(cr, id, data, pre.vrf) then Some(VrfVerificationFailed)
    else
      var score := cr.score(id, data, pre.vrf.preOutput);
      if score.None? then Some(VrfVerificationFailed)
      else if score.value >= PrimaryThreshold(cr, epoch.config.c, epoch.authorities, pre.authorityIndex)
      then Some(VrfThresholdExceeded)
      else None
  }

  function SecondaryError(cr: Crypto, hash: nat, pre: PreDigest, signature: Signature, epoch: Epoch): Option<HeaderError>
    requires !pre.Primary? && pre.authorityIndex < |epoch.authorities| && epoch.duration > 0
  {
    var expected := SecondarySlotAuthor(cr, pre.slot, epoch.authorities, epoch.randomness);
    var id := epoch.authorities[pre.authorityIndex].0;
    if expected.None? then Some(NoSecondaryAuthorExpected)
    else if expected.value != id then Some(InvalidAuthor)
    else if !Signed(id, hash, signature) then Some(BadSignature)
    else if pre.SecondaryVrf? && !VrfVerify(cr, id, SlotData(epoch, pre.slot), pre.vrf) then Some(VrfVerificationFailed)
    else None
  }

  function DigestError(cr: Crypto, hash: nat, pre: PreDigest, signature: Signature, epoch: Epoch): Option<HeaderError>
    requires pre.authorityIndex < |epoch.authorities| && epoch.duration > 0
  {
    if pre.Primary? then PrimaryError(cr, hash, pre, signature, epoch)
    else if pre.SecondaryPlain? && epoch.config.allowed == PrimaryAndSecondaryPlain
    then SecondaryError(cr, hash, pre, signature, epoch)
    else if pre.SecondaryVrf? && epoch.config.allowed == PrimaryAndSecondaryVrf
    then SecondaryError(cr, hash, pre, signature, epoch)
    else Some(SecondarySlotAssignmentsDisabled)
  }

  /** What the checks say about a header without its seal. */
  function Judged(cr: Crypto, body: Header, seal: DigestItem, pre: PreDigest, slotNow: Slot, epoch: Epoch): Result<CheckedHeader>
    requires epoch.duration > 0
  {
    if !seal.Seal? then Err(HeaderBadSeal)
    else if pre.slot > slotNow then Ok(Deferred(Sealed(body, seal), pre.slot))
    else if pre.authorityIndex >= |epoch.authorities| then Err(SlotAuthorNotFound)
    else
      var error := DigestError(cr, cr.headerHash(body), pre, seal.signature, epoch);
      if error.Some? then Err(error.value)
      else Ok(Checked(body, pre, seal, epoch.authorities[pre.authorityIndex].0))
  }

  function Sealed(body: Header, seal: DigestItem): Header { body.(digest := body.digest + [seal]) }

  function Unsealed(header: Header): Header
    requires header.digest != []
  {
    header.(digest := header.digest[..|header.digest| - 1])
  }

  method CheckHeader(cr: Crypto, header: Header, known: Option<PreDigest>, slotNow: Slot, epoch: Epoch)
    returns (r: Result<CheckedHeader>)
    requires epoch.duration > 0
    ensures var pre := if known.Some? then Ok(known.value) else PreDigestOf(header);
            r == if pre.Err? then Err(pre.error)
                 else if header.digest == [] then Err(HeaderUnsealed)
                 else Judged(cr, Unsealed(header), header.digest[|header.digest| - 1], pre.value, slotNow, epoch)
  {
    var found := Ok(SecondaryPlain(0, 0));
    if known.Some? {
      found := Ok(known.value);
    } else {
      found := FindPreDigest(header);
    }
    if found.Err? {
      return Err(found.error);
    }
    var pre, digest := found.value, header.digest;
    if digest == [] {
      return Err(HeaderUnsealed);
    }
    var seal := digest[|digest| - 1];
    digest := digest[..|digest| - 1];
    if !seal.Seal? {
      return Err(HeaderBadSeal);
    }
    var preHash := cr.headerHash(header.(digest := digest));
    if pre.slot > slotNow {
      digest := digest + [seal];
      return Ok(Deferred(header.(digest := digest), pre.slot));
    }
    if pre.authorityIndex >= |epoch.authorities| {
      return Err(SlotAuthorNotFound);
    }
    var author := epoch.authorities[pre.authorityIndex].0;
    var error := DigestError(cr, preHash, pre, seal.signature, epoch);
    if error.Some? {
      return Err(error.value);
    }
    return Ok(Checked(header.(digest := digest), pre, seal, author));
  }

  // ---- Author and verifier agree ----

  function SealBy(cr: Crypto, body: Header, id: AuthorityId): DigestItem
  {
    Seal(Signature(id, cr.headerHash(body)))
  }

  /** The pre-digest is what the holder of this one key claims for the slot. */
  ghost predicate ClaimedBy(cr: Crypto, pre: PreDigest, epoch: Epoch, key: Key)
    requires epoch.duration > 0
  {
    if pre.Primary? then
      IsPrimaryClaim(cr, pre.slot, epoch, epoch.config.c, {key.0}, [key], Some((pre, key.0)))
    else
      && epoch.config.allowed == (if pre.SecondaryVrf? then PrimaryAndSecondaryVrf else PrimaryAndSecondaryPlain)
      && IsSecondaryClaim(cr, pre.slot, epoch, [key], {key.0}, pre.SecondaryVrf?, Some((pre, key.0)))
  }

  lemma SingleKeyClaim(cr: Crypto, pre: PreDigest, epoch: Epoch, key: Key)
    requires epoch.duration > 0
    ensures ClaimedBy(cr, pre, epoch, key) <==>
            if pre.Primary? then
              WinsPrimary(cr, pre.slot, epoch, epoch.config.c, key) && pre == PrimaryDigest(cr, pre.slot, epoch, key)
            else
              && epoch.config.allowed == (if pre.SecondaryVrf? then PrimaryAndSecondaryVrf else PrimaryAndSecondaryPlain)
              && WinsSecondary(cr, pre.slot, epoch, key)
              && pre == SecondaryDigest(cr, pre.slot, epoch, pre.SecondaryVrf?, key)
  {
    hide WinsPrimary, WinsSecondary, PrimaryDigest, SecondaryDigest;
    assert [key][0] == key;
  }

  /**
   A header is accepted exactly when the authority at its index claims that digest with
   its own key and made the seal.
   */
  lemma AcceptedExactlyWhenClaimed(cr: Crypto, body: Header, seal: DigestItem, pre: PreDigest, slotNow: Slot, epoch: Epoch)
    requires epoch.duration > 0 && |epoch.authorities| <= U32_MAX + 1
    ensures var r := Judged(cr, body, seal, pre, slotNow, epoch);
            r.Ok? && r.value.Checked? <==>
              && pre.slot <= slotNow && pre.authorityIndex < |epoch.authorities|
              && seal == SealBy(cr, body, epoch.authorities[pre.authorityIndex].0)
              && ClaimedBy(cr, pre, epoch, (epoch.authorities[pre.authorityIndex].0, pre.authorityIndex))
  {
    if pre.authorityIndex < |epoch.authorities| {
      hide SlotData;
      SingleKeyClaim(cr, pre, epoch, (epoch.authorities[pre.authorityIndex].0, pre.authorityIndex));
    }
  }

  /** What a claim with any list of keys needs to be accepted: its index must name its own authority. */
  lemma ClaimAcceptedExactly(
    cr: Crypto, slot: Slot, epoch: Epoch, keystore: set<AuthorityId>, keys: seq<Key>, pre: PreDigest, id: AuthorityId,
    body: Header, slotNow: Slot)
    requires epoch.duration > 0 && slot <= slotNow
    requires IsClaim(cr, slot, epoch, keystore, keys, Some((pre, id)))
    ensures Judged(cr, body, SealBy(cr, body, id), pre, slotNow, epoch) == Ok(Checked(body, pre, SealBy(cr, body, id), id)) <==>
              && pre.authorityIndex < |epoch.authorities| && epoch.authorities[pre.authorityIndex].0 == id
              && (pre.Primary? ==> WinsPrimary(cr, slot, epoch, epoch.config.c, (id, pre.authorityIndex)))
  {
    hide SlotData;
  }

  /** Every claim of ClaimSlot, sealed into a header that carries it, passes the check in time and is put off before it. */
  lemma ClaimsAreAccepted(
    cr: Crypto, slot: Slot, epoch: Epoch, keystore: set<AuthorityId>, pre: PreDigest, id: AuthorityId,
    body: Header, slotNow: Slot)
    requires epoch.duration > 0 && |epoch.authorities| <= U32_MAX + 1
    requires IsClaim(cr, slot, epoch, keystore, EpochKeys(epoch.authorities), Some((pre, id)))
    requires PreDigestOf(body) == Ok(pre)
    ensures var seal := SealBy(cr, body, id);
            && PreDigestOf(Sealed(body, seal)) == Ok(pre)
            && Judged(cr, body, seal, pre, slotNow, epoch) ==
               Ok(if slot <= slotNow then Checked(body, pre, seal, id) else Deferred(Sealed(body, seal), slot))
  {
    var seal := SealBy(cr, body, id);
    assert Sealed(body, seal).digest[..|body.digest|] == body.digest;
    ClaimNamesItsAuthority(cr, slot, epoch, keystore, pre, id);
    if slot <= slotNow {
      ClaimAcceptedExactly(cr, slot, epoch, keystore, EpochKeys(epoch.authorities), pre, id, body, slotNow);
    }
  }

  lemma ClaimNamesItsAuthority(
    cr: Crypto, slot: Slot, epoch: Epoch, keystore: set<AuthorityId>, pre: PreDigest, id: AuthorityId)
    requires epoch.duration > 0 && |epoch.authorities| <= U32_MAX + 1
    requires IsClaim(cr, slot, epoch, keystore, EpochKeys(epoch.authorities), Some((pre, id)))
    ensures pre.slot == slot && pre.authorityIndex < |epoch.authorities| && epoch.authorities[pre.authorityIndex].0 == id
    ensures pre.Primary? ==> WinsPrimary(cr, slot, epoch, epoch.config.c, (id, pre.authorityIndex))
  {
    hide WinsPrimary, WinsSecondary, SlotData;
  }

  /** One slot of one epoch has one secondary author, whatever the headers are. */
  lemma OneSecondaryAuthor(
    cr: Crypto, epoch: Epoch, body: Header, seal: DigestItem, pre: PreDigest, now: Slot,
    body': Header, seal': DigestItem, pre': PreDigest, now': Slot)
    requires epoch.duration > 0 && pre.slot == pre'.slot && !pre.Primary? && !pre'.Primary?
    requires Judged(cr, body, seal, pre, now, epoch).Ok? && Judged(cr, body, seal, pre, now, epoch).value.Checked?
    requires Judged(cr, body', seal', pre', now', epoch).Ok? && Judged(cr, body', seal', pre', now', epoch).value.Checked?
    ensures Judged(cr, body, seal, pre, now, epoch).value.author == Judged(cr, body', seal', pre', now', epoch).value.author
    ensures seal.signature.signer == seal'.signature.signer
  {
    hide SlotData;
  }
}
