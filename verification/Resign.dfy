/**
 Signing a tag again with another key (`redo_sig_gen_with_new_key` of `ces-pdp`),
 and exactly when the result passes verification under that key.
 */
module Resign {
  import opened ByteStrings
  import opened Modular
  import opened Rsa
  import opened Podr2

  function RedoGenerateSigma(k: Keys, phi: nat): nat
    requires k.n > 0
  {
    ModPow(ModPow(phi, k.e, k.n), k.d, k.n)
  }

  function Redone(k: Keys, phi: seq<Decimal>): seq<Decimal>
    requires k.n > 0
  {
    seq(|phi|, i requires 0 <= i < |phi| =>
      if phi[i].Number? then Number(RedoGenerateSigma(k, phi[i].value)) else Malformed)
  }

  ghost predicate AllNumbers(phi: seq<Decimal>)
  {
    forall i :: 0 <= i < |phi| ==> phi[i].Number?
  }

  /** Every number is signed again, in whatever order the workers finish; one malformed number fails the tag. */
  method RedoSigGenWithNewKey(k: Keys, tag: Tag, arrivals: seq<nat>) returns (r: Result<Tag>)
    requires k.n > 0 && ArrivalOrder(arrivals, |tag.phi|)
    ensures r.Ok? <==> AllNumbers(tag.phi)
    ensures r.Ok? ==> r.value == tag.(phi := Redone(k, tag.phi))
    ensures r.Err? ==> r.error == ParameterError
  {
    ArrivalCovers(arrivals, |tag.phi|);
    var phi := new Decimal[|tag.phi|](_ => Malformed);
    for j := 0 to |arrivals|
      invariant forall m :: 0 <= m < j ==>
        tag.phi[arrivals[m]].Number? && phi[arrivals[m]] == Redone(k, tag.phi)[arrivals[m]]
    {
      var i := arrivals[j];
      if tag.phi[i].Malformed? {
        return Err(ParameterError);
      }
      phi[i] := Number(RedoGenerateSigma(k, tag.phi[i].value));
    }
    forall i | 0 <= i < |tag.phi|
      ensures tag.phi[i].Number? && phi[i] == Redone(k, tag.phi)[i]
    {
      assert i in arrivals;
      var m :| 0 <= m < |arrivals| && arrivals[m] == i;
    }
    assert phi[..] == Redone(k, tag.phi);
    r := Ok(tag.(phi := phi[..]));
  }

  /** Whatever the key, signing again only reduces the old signature. */
  lemma RedoOnlyReduces(k: Keys, phi: nat)
    requires ValidKey(k) && k.n > 0
    ensures RedoGenerateSigma(k, phi) == phi % k.n
  {
    ResidueCongruent(Pow(phi, k.e), k.n);
    PowCongruent(ModPow(phi, k.e, k.n), Pow(phi, k.e), k.d, k.n);
    PowPow(phi, k.e, k.d);
    RsaInverse(k, phi);
  }

  /** A tag signed again under its own key is the same tag. */
  lemma RedoKeepsOwnTag(k: Keys, blocks: seq<Bytes>, name: string, u: nat, hash: Digest, i: nat)
    requires ValidKey(k) && k.n > 0 && i < |blocks|
    ensures var phi := TagOf(k, blocks, name, u, hash).phi[i];
            Number(RedoGenerateSigma(k, phi.value)) == phi
  {
    var phi := TagOf(k, blocks, name, u, hash).phi[i];
    RedoOnlyReduces(k, phi.value);
    DivisionUnique(phi.value, 0, phi.value, k.n);
  }

  // ---- The old tag and the new one ----

  /** The answers made with either tag are the same number. */
  lemma {:induction false} RedoKeepsAnswers(k: Keys, q: seq<QElement>, phi: seq<Decimal>)
    requires ValidKey(k) && k.n > 0
    ensures Answerable(q, Redone(k, phi)) <==> Answerable(q, phi)
    ensures Answerable(q, phi) ==> SigmaProduct(k, q, Redone(k, phi)) == SigmaProduct(k, q, phi)
  {
    hide ValidKey, ModPow;
    if q != [] && Answerable(q, phi) {
      var c := q[|q| - 1];
      assert forall j :: 0 <= j < |q| - 1 ==> q[..|q| - 1][j] == q[j];
      RedoKeepsAnswers(k, q[..|q| - 1], phi);
      RedoOnlyReduces(k, phi[c.i].value);
      ReducedPower(phi[c.i].value, c.v, k.n);
    }
  }

  lemma ReducedPower(x: nat, v: nat, n: nat)
    requires n > 0
    ensures ModPow(x % n, v, n) == ModPow(x, v, n)
  {
    ResidueCongruent(x, n);
    PowCongruent(x % n, x, v, n);
  }

  /** The verification equation of the answer that a tag gives. */
  ghost predicate Accepts(k: Keys, q: seq<QElement>, phi: seq<Decimal>, u: nat, name: string, mu: nat, hash: Digest)
    requires k.n > 0
  {
    Answerable(q, phi) && ModPow(SigmaProduct(k, q, phi) % k.n, k.e, k.n) == Target(k, u, name, q, mu, hash)
  }

  /** The new key accepts the new tag's answer exactly if it accepts the old tag's answer. */
  lemma RedoneAcceptedLikeOld(
    k: Keys, q: seq<QElement>, phi: seq<Decimal>, u: nat, name: string, mu: nat, hash: Digest)
    requires ValidKey(k) && k.n > 0
    ensures Accepts(k, q, Redone(k, phi), u, name, mu, hash) <==> Accepts(k, q, phi, u, name, mu, hash)
  {
    hide ValidKey, ModPow, Target;
    RedoKeepsAnswers(k, q, phi);
  }

  /** So signing again changes no verdict of the verifier. */
  method RedoChangesNoVerdict(k: Keys, file: Bytes, q: seq<QElement>, tag: Tag, hash: Digest, arrivals: seq<nat>)
    returns (old': Result<bool>, new': Result<bool>)
    requires ValidKey(k) && k.n > 0 && tag.phi != [] && InRange(q, |tag.phi|)
    requires AllNumbers(tag.phi) && ArrivalOrder(arrivals, |tag.phi|)
    ensures new' == old'
    ensures new'.Ok? <==> tag.u.Number?
    ensures new'.Ok? ==> (new'.value <==>
      Accepts(k, q, tag.phi, tag.u.value, tag.name, Mu(q, file, |file| / |tag.phi|), hash))
  {
    hide ValidKey, ModPow, Target, SigmaProduct, Mu;
    RedoKeepsAnswers(k, q, tag.phi);
    var redone := RedoSigGenWithNewKey(k, tag, arrivals);
    var before := ProofGen(k, file, q, tag);
    var after := ProofGen(k, file, q, redone.value);
    old' := Verify(k, tag.u, tag.name, q, before.value.sigma, before.value.mu, hash);
    new' := Verify(k, tag.u, tag.name, q, after.value.sigma, after.value.mu, hash);
  }

  // ---- When every answer is accepted ----

  /** Raising to the public exponent is injective on residues. */
  lemma RsaInjective(k: Keys, x: nat, y: nat)
    requires ValidKey(k) && k.n > 0 && Congruent(Pow(x, k.e), Pow(y, k.e), k.n)
    ensures Congruent(x, y, k.n)
  {
    PowCongruent(Pow(x, k.e), Pow(y, k.e), k.d, k.n);
    PowPow(x, k.e, k.d);
    PowPow(y, k.e, k.d);
    RsaInverse(k, x);
    RsaInverse(k, y);
  }

  lemma PowSelf(x: nat)
    ensures Pow(x, 1) == x
  {
    assert Pow(x, 0) == 1;
  }

  /** The challenge of one block with factor one. */
  function Single(i: nat): seq<QElement> { [QElement(i, 1)] }

  lemma SingleAnswer(k: Keys, phi: seq<Decimal>, i: nat, name: string, u: nat, hash: Digest, file: Bytes, size: nat)
    requires k.n > 0 && i < |phi| && phi[i].Number?
    ensures Answerable(Single(i), phi) && SigmaProduct(k, Single(i), phi) == phi[i].value % k.n
    ensures HashProduct(k, name, Single(i), hash) == hash(name, i) % k.n
    ensures Mu(Single(i), file, size) == FromBytesBe(ReadBlock(file, size, i))
  {
    var q := Single(i);
    assert q[..0] == [] && q[0] == QElement(i, 1);
    PowSelf(phi[i].value);
    PowSelf(hash(name, i));
    assert SigmaProduct(k, [], phi) == 1 && HashProduct(k, name, [], hash) == 1;
  }

  /** The answer to that challenge is accepted only with the key's own signature of the block. */
  lemma SingleAcceptedExactly(k: Keys, phi: nat, h: nat, u: nat, m: nat)
    requires ValidKey(k) && k.n > 0
    ensures ModPow(phi % k.n % k.n, k.e, k.n) == ((h % k.n) * ModPow(u, m, k.n)) % k.n
        <==> phi % k.n == Sigma(k, m, h, u)
  {
    var sigma := Sigma(k, m, h, u);
    SigmaOpens(k, m, h, u);
    ReduceFactors(h, Pow(u, m), k.n);
    ResidueCongruent(phi, k.n);
    ResidueCongruent(phi % k.n, k.n);
    assert sigma % k.n == sigma by { DivisionUnique(sigma, 0, sigma, k.n); }
    if ModPow(phi % k.n % k.n, k.e, k.n) == ((h % k.n) * ModPow(u, m, k.n)) % k.n {
      RsaInjective(k, phi % k.n % k.n, sigma);
    }
  }

  /**
   The re-signed tag passes every challenge under the new key exactly if it is the tag the
   new key would have made, that is, if every old number already reduces to it.
   */
  lemma RedoneVerifiesExactly(
    k: Keys, phi: seq<Decimal>, file: Bytes, size: nat, blocks: seq<Bytes>, name: string, u: nat, hash: Digest)
    requires ValidKey(k) && k.n > 0 && |phi| == |blocks| && AllNumbers(phi) && Holds(file, size, blocks)
    ensures (forall q :: InRange(q, |blocks|) ==> Accepts(k, q, Redone(k, phi), u, name, Mu(q, file, size), hash))
        <==> forall i :: 0 <= i < |blocks| ==> phi[i].value % k.n == Sigma(k, FromBytesBe(blocks[i]), hash(name, i), u)
  {
    hide ValidKey, ModPow, Target, SigmaProduct, Mu, Redone, Sigma, FromBytesBe, Accepts, Holds, InRange, TagOf, Single;
    if forall q :: InRange(q, |blocks|) ==> Accepts(k, q, Redone(k, phi), u, name, Mu(q, file, size), hash) {
      forall i | 0 <= i < |blocks|
        ensures phi[i].value % k.n == Sigma(k, FromBytesBe(blocks[i]), hash(name, i), u)
      {
        SingleInRange(i, |blocks|);
        RedoneAcceptedLikeOld(k, Single(i), phi, u, name, Mu(Single(i), file, size), hash);
        SingleForces(k, phi, file, size, blocks, name, u, hash, i);
      }
    }
    if forall i :: 0 <= i < |blocks| ==> phi[i].value % k.n == Sigma(k, FromBytesBe(blocks[i]), hash(name, i), u) {
      GenuineTag(k, phi, blocks, name, u, hash);
      forall q | InRange(q, |blocks|)
        ensures Accepts(k, q, Redone(k, phi), u, name, Mu(q, file, size), hash)
      {
        Completeness(k, q, file, size, blocks, name, u, hash);
        AcceptsByEquation(k, q, Redone(k, phi), u, name, Mu(q, file, size), hash);
      }
    }
  }

  lemma SingleInRange(i: nat, count: nat)
    requires i < count
    ensures InRange(Single(i), count)
  {
  }

  lemma AcceptsByEquation(k: Keys, q: seq<QElement>, phi: seq<Decimal>, u: nat, name: string, mu: nat, hash: Digest)
    requires k.n > 0 && Answerable(q, phi)
    requires ModPow(SigmaProduct(k, q, phi) % k.n, k.e, k.n) == Target(k, u, name, q, mu, hash)
    ensures Accepts(k, q, phi, u, name, mu, hash)
  {
  }

  lemma SingleForces(
    k: Keys, phi: seq<Decimal>, file: Bytes, size: nat, blocks: seq<Bytes>, name: string, u: nat, hash: Digest, i: nat)
    requires ValidKey(k) && k.n > 0 && |phi| == |blocks| && AllNumbers(phi) && Holds(file, size, blocks) && i < |blocks|
    requires Accepts(k, Single(i), phi, u, name, Mu(Single(i), file, size), hash)
    ensures phi[i].value % k.n == Sigma(k, FromBytesBe(blocks[i]), hash(name, i), u)
  {
    hide ModPow, Sigma, ValidKey, SigmaProduct, HashProduct, Mu, FromBytesBe;
    SingleAnswer(k, phi, i, name, u, hash, file, size);
    SingleAcceptedExactly(k, phi[i].value, hash(name, i), u, FromBytesBe(blocks[i]));
  }

  lemma GenuineTag(k: Keys, phi: seq<Decimal>, blocks: seq<Bytes>, name: string, u: nat, hash: Digest)
    requires ValidKey(k) && k.n > 0 && |phi| == |blocks| && AllNumbers(phi)
    requires forall i :: 0 <= i < |blocks| ==> phi[i].value % k.n == Sigma(k, FromBytesBe(blocks[i]), hash(name, i), u)
    ensures Redone(k, phi) == TagOf(k, blocks, name, u, hash).phi
  {
    hide ValidKey, Sigma, FromBytesBe, RedoGenerateSigma;
    forall i | 0 <= i < |blocks|
      ensures Redone(k, phi)[i] == TagOf(k, blocks, name, u, hash).phi[i]
    {
      RedoOnlyReduces(k, phi[i].value);
    }
  }

  // ---- A tag that does not verify after signing again ----

  const OLD_KEY := Keys(15, 3, 3)
  const NEW_KEY := Keys(33, 3, 7)

  lemma SmallPrimes()
    ensures Prime(3) && Prime(5) && Prime(11)
  {
  }

  lemma SmallKeys()
    ensures ValidKey(OLD_KEY) && ValidKey(NEW_KEY)
  {
    SmallPrimes();
    assert RsaRelation(OLD_KEY, 3, 5);
    assert RsaRelation(NEW_KEY, 3, 11);
  }

  /** One block, tagged under one key and signed again under another: the honest answer is rejected. */
  lemma ResignedTagRejected() returns (blocks: seq<Bytes>, file: Bytes, phi: seq<Decimal>, q: seq<QElement>, hash: Digest)
    ensures ValidKey(OLD_KEY) && ValidKey(NEW_KEY) && Holds(file, 1, blocks) && InRange(q, |blocks|)
    ensures phi == TagOf(OLD_KEY, blocks, "", 2, hash).phi
    ensures !Accepts(NEW_KEY, q, Redone(NEW_KEY, phi), 2, "", Mu(q, file, 1), hash)
  {
    SmallKeys();
    file := [1];
    blocks := [file];
    hash := (_, _) => 1;
    phi := TagOf(OLD_KEY, blocks, "", 2, hash).phi;
    q := Single(0);
    OldSignature(blocks, hash);
    assert ReadBlock(file, 1, 0) == file[0..1] == file;
    SingleAnswer(NEW_KEY, phi, 0, "", 2, hash, file, 1);
    RedoneAcceptedLikeOld(NEW_KEY, q, phi, 2, "", Mu(q, file, 1), hash);
    SmallPowers();
    FromOne();
    assert Target(NEW_KEY, 2, "", q, 1, hash) == 2;
  }

  lemma FromOne()
    ensures FromBytesBe([1]) == 1
  {
    assert [1 as Byte][..0] == [];
  }

  lemma SmallPowers()
    ensures ModPow(2, 1, 15) == 2 && ModPow(2, 1, 33) == 2 && ModPow(2, 3, 15) == 8 && ModPow(8, 3, 33) == 17
  {
    PowSelf(2);
    assert Pow(2, 2) == 2 * Pow(2, 1) && Pow(2, 3) == 2 * Pow(2, 2);
    PowSelf(8);
    assert Pow(8, 2) == 8 * Pow(8, 1) && Pow(8, 3) == 8 * Pow(8, 2);
  }

  lemma OldSignature(blocks: seq<Bytes>, hash: Digest)
    requires blocks == [[1]] && hash("", 0) == 1
    ensures TagOf(OLD_KEY, blocks, "", 2, hash).phi == [Number(8)]
  {
    FromOne();
    SmallPowers();
  }
}
