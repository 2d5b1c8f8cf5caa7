/**
 The PoDR2 possession proofs of `ces-pdp`: tagging a file block by block,
 answering a challenge, and checking answers one at a time or in a batch.

 Worker threads deliver their results over a channel; the order of delivery is
 the parameter `arrivals`, an arbitrary permutation. The digest of a block
 label, read as a number, is the parameter `hash`; a challenge holds its
 coefficient as the number its bytes encode. Other numbers travel as decimal
 strings: a string is either a number or malformed.
 */
module Podr2 {
  import opened ByteStrings
  import opened Modular
  import opened Rsa

  type Digest = (string, nat) -> nat

  datatype Decimal = Number(value: nat) | Malformed
  datatype PdpError = InternalError | ParameterError
  datatype Result<T> = Ok(value: T) | Err(error: PdpError)

  datatype QElement = QElement(i: nat, v: nat)
  datatype Tag = Tag(name: string, u: Decimal, phi: seq<Decimal>)
  datatype Proof = Proof(mu: Decimal, sigma: Decimal)

  function FromBytesBe(b: Bytes): nat
  {
    if b == [] then 0 else FromBytesBe(b[..|b| - 1]) * 256 + b[|b| - 1] as nat
  }

  /** Some order in which the results 0 .. n-1 may come out of the channel. */
  ghost predicate ArrivalOrder(arrivals: seq<nat>, n: nat)
  {
    multiset(arrivals) == multiset(seq(n, i => i))
  }

  lemma ArrivalCovers(arrivals: seq<nat>, n: nat)
    requires ArrivalOrder(arrivals, n)
    ensures |arrivals| == n
    ensures forall j :: 0 <= j < n ==> arrivals[j] < n
    ensures forall i :: 0 <= i < n ==> i in arrivals
  {
    var all: seq<nat> := seq(n, i => i);
    assert |multiset(arrivals)| == |multiset(all)|;
    forall j | 0 <= j < |arrivals|
      ensures arrivals[j] < n
    {
      assert arrivals[j] in multiset(arrivals);
      assert arrivals[j] in all;
    }
    forall i | 0 <= i < n
      ensures i in arrivals
    {
      assert all[i] in multiset(all);
      assert i in multiset(arrivals);
    }
  }

  // ---- Tagging ----

  /** The signature of a block with value m and label digest h. */
  function Sigma(k: Keys, m: nat, h: nat, u: nat): nat
    requires k.n > 0
  {
    var umi := ModPow(u, m, k.n);
    var summary := (h * umi) % k.n;
    ModPow(summary, k.d, k.n)
  }

  function GenerateSigma(k: Keys, data: Bytes, name: string, i: nat, u: nat, hash: Digest): Decimal
    requires k.n > 0
  {
    Number(Sigma(k, FromBytesBe(data), hash(name, i), u))
  }

  lemma BlockBounds(size: nat, count: nat, i: nat)
    requires i < count
    ensures i * size <= (i + 1) * size <= count * size
  {
    assert (i + 1) * size == i * size + size;
    var rest := count - (i + 1);
    assert count * size == (i + 1) * size + rest * size;
  }

  function Block(data: Bytes, size: nat, count: nat, i: nat): Bytes
    requires i < count && |data| == count * size
  {
    BlockBounds(size, count, i);
    data[i * size..(i + 1) * size]
  }

  function Blocks(data: Bytes, size: nat, count: nat): seq<Bytes>
    requires |data| == count * size
  {
    seq(count, i requires 0 <= i < count => Block(data, size, count, i))
  }

  /** The tag of a list of blocks, with no reference to the order in which workers finish. */
  function TagOf(k: Keys, blocks: seq<Bytes>, name: string, u: nat, hash: Digest): Tag
    requires k.n > 0
  {
    Tag(name, Number(u), seq(|blocks|, i requires 0 <= i < |blocks| => GenerateSigma(k, blocks[i], name, i, u, hash)))
  }

  /** Results stored at their index as they arrive: the slice does not depend on the arrival order. */
  method Receive(results: seq<Decimal>, arrivals: seq<nat>) returns (phi: array<Decimal>)
    requires ArrivalOrder(arrivals, |results|)
    ensures fresh(phi) && phi[..] == results
  {
    ArrivalCovers(arrivals, |results|);
    phi := new Decimal[|results|](_ => Malformed);
    for j := 0 to |results|
      invariant forall m :: 0 <= m < j ==> phi[arrivals[m]] == results[arrivals[m]]
    {
      phi[arrivals[j]] := results[arrivals[j]];
    }
    forall i | 0 <= i < |results|
      ensures phi[i] == results[i]
    {
      assert i in arrivals;
      var m :| 0 <= m < |arrivals| && arrivals[m] == i;
    }
  }

  /** A file that splits into equal blocks has one tag, whatever the arrival order. */
  method SigGenWithData(k: Keys, data: Bytes, count: nat, name: string, u: nat, hash: Digest,
                        arrivals: seq<nat>) returns (r: Result<Tag>)
    requires k.n > 0 && count > 0 && ArrivalOrder(arrivals, count)
    ensures r.Ok? <==> |data| % count == 0
    ensures r.Ok? ==> |data| == count * (|data| / count)
    ensures r.Ok? ==> r.value == TagOf(k, Blocks(data, |data| / count, count), name, u, hash)
    ensures r.Err? ==> r.error == InternalError
  {
    if |data| % count != 0 {
      return Err(InternalError);
    }
    var blocks := Blocks(data, |data| / count, count);
    var sent := TagOf(k, blocks, name, u, hash).phi;
    var phi := Receive(sent, arrivals);
    r := Ok(Tag(name, Number(u), phi[..]));
  }

  // ---- Answering a challenge ----

  /** What one seek-and-read leaves in a zeroed buffer. */
  function ReadBlock(file: Bytes, size: nat, i: nat): Bytes
  {
    var from := size * i;
    if from + size <= |file| then file[from..from + size]
    else if from <= |file| then file[from..] + seq(from + size - |file|, _ => 0 as Byte)
    else seq(size, _ => 0 as Byte)
  }

  function Mu(q: seq<QElement>, file: Bytes, size: nat): nat
  {
    if q == [] then 0
    else
      var c := q[|q| - 1];
      Times(c.v, FromBytesBe(ReadBlock(file, size, c.i))) + Mu(q[..|q| - 1], file, size)
  }

  function Times(v: nat, m: nat): nat
  {
    v * m
  }

  ghost predicate InRange(q: seq<QElement>, count: nat)
  {
    forall j :: 0 <= j < |q| ==> q[j].i < count
  }

  ghost predicate Answerable(q: seq<QElement>, phi: seq<Decimal>)
  {
    InRange(q, |phi|) && forall j :: 0 <= j < |q| ==> phi[q[j].i].Number?
  }

  ghost function SigmaProduct(k: Keys, q: seq<QElement>, phi: seq<Decimal>): nat
    requires k.n > 0 && Answerable(q, phi)
  {
    if q == [] then 1
    else
      var c := q[|q| - 1];
      SigmaProduct(k, q[..|q| - 1], phi) * ModPow(phi[c.i].value, c.v, k.n)
  }

  method ProofGen(k: Keys, file: Bytes, q: seq<QElement>, tag: Tag) returns (r: Result<Proof>)
    requires k.n > 0 && tag.phi != [] && InRange(q, |tag.phi|)
    ensures r.Ok? <==> Answerable(q, tag.phi)
    ensures r.Ok? ==> r.value.mu == Number(Mu(q, file, |file| / |tag.phi|))
    ensures r.Ok? ==> r.value.sigma == Number(SigmaProduct(k, q, tag.phi) % k.n)
    ensures r.Err? ==> r.error == InternalError
  {
    hide Times, ReadBlock, FromBytesBe, ModPow;
    var mu, sigma := 0, 1;
    var size := |file| / |tag.phi|;
    for j := 0 to |q|
      invariant Answerable(q[..j], tag.phi)
      invariant mu == Mu(q[..j], file, size) && sigma == SigmaProduct(k, q[..j], tag.phi)
    {
      assert q[..j + 1][..j] == q[..j];
      var vi := q[j].v;
      mu := Times(vi, FromBytesBe(ReadBlock(file, size, q[j].i))) + mu;
      var phi := tag.phi[q[j].i];
      if phi.Malformed? {
        return Err(InternalError);
      }
      sigma := sigma * ModPow(phi.value, vi, k.n);
    }
    assert q[..|q|] == q;
    r := Ok(Proof(Number(mu), Number(sigma % k.n)));
  }

  // ---- Checking one answer ----

  function HashProduct(k: Keys, name: string, q: seq<QElement>, hash: Digest): nat
    requires k.n > 0
  {
    if q == [] then 1
    else
      var c := q[|q| - 1];
      HashProduct(k, name, q[..|q| - 1], hash) * ModPow(hash(name, c.i), c.v, k.n)
  }

  method MultiplyHashes(k: Keys, name: string, q: seq<QElement>, hash: Digest) returns (m: nat)
    requires k.n > 0
    ensures m == HashProduct(k, name, q, hash)
  {
    m := 1;
    for j := 0 to |q|
      invariant m == HashProduct(k, name, q[..j], hash)
    {
      assert q[..j + 1][..j] == q[..j];
      m := m * ModPow(hash(name, q[j].i), q[j].v, k.n);
    }
    assert q[..|q|] == q;
  }

  /** The right-hand side of the verification equation. */
  function Target(k: Keys, u: nat, name: string, q: seq<QElement>, mu: nat, hash: Digest): nat
    requires k.n > 0
  {
    (HashProduct(k, name, q, hash) * ModPow(u, mu, k.n)) % k.n
  }

  method Verify(k: Keys, u: Decimal, name: string, q: seq<QElement>, sigma: Decimal, mu: Decimal, hash: Digest)
    returns (r: Result<bool>)
    requires k.n > 0
    ensures r.Ok? <==> u.Number? && mu.Number? && sigma.Number?
    ensures r.Ok? ==> (r.value <==> ModPow(sigma.value, k.e, k.n) == Target(k, u.value, name, q, mu.value, hash))
    ensures r.Err? ==> r.error == ParameterError
  {
    var multiply := MultiplyHashes(k, name, q, hash);
    if u.Malformed? || mu.Malformed? || sigma.Malformed? {
      return Err(ParameterError);
    }
    multiply := multiply * ModPow(u.value, mu.value, k.n);
    multiply := multiply % k.n;
    r := Ok(ModPow(sigma.value, k.e, k.n) == multiply);
  }

  // ---- Completeness ----

  /** The public exponent opens a block signature. */
  lemma SigmaOpens(k: Keys, m: nat, h: nat, u: nat)
    requires ValidKey(k) && k.n > 0
    ensures Congruent(Pow(Sigma(k, m, h, u), k.e), h * Pow(u, m), k.n)
  {
    var base := h * Pow(u, m);
    var summary := (h * (Pow(u, m) % k.n)) % k.n;
    assert summary == base % k.n by { ReduceFactors(h, Pow(u, m), k.n); }
    ResidueCongruent(base, k.n);
    ResidueCongruent(Pow(summary, k.d), k.n);
    PowCongruent(ModPow(summary, k.d, k.n), Pow(summary, k.d), k.e, k.n);
    PowPow(summary, k.d, k.e);
    assert k.d * k.e == k.e * k.d;
    RsaInverse(k, summary);
  }

  /** One challenged block, opened: its label's power times a power of u. */
  ghost predicate TermOpened(k: Keys, sigma: nat, h: nat, u: nat, v: nat, m: nat)
    requires k.n > 0
  {
    Congruent(Pow(ModPow(sigma, v, k.n), k.e), ModPow(h, v, k.n) * Pow(u, Times(v, m)), k.n)
  }

  lemma TermOpens(k: Keys, m: nat, h: nat, u: nat, v: nat)
    requires ValidKey(k) && k.n > 0
    ensures TermOpened(k, Sigma(k, m, h, u), h, u, v, m)
  {
    var n, sigma := k.n, Sigma(k, m, h, u);
    SigmaOpens(k, m, h, u);
    ResidueCongruent(Pow(sigma, v), n);
    PowCongruent(ModPow(sigma, v, n), Pow(sigma, v), k.e, n);
    PowCommute(sigma, v, k.e);
    PowCongruent(Pow(sigma, k.e), h * Pow(u, m), v, n);
    PowProduct(h, Pow(u, m), v);
    PowPow(u, m, v);
    assert m * v == Times(v, m);
    ResidueCongruent(Pow(h, v), n);
    CongruentMul(Pow(h, v), ModPow(h, v, n), Pow(u, m * v), Pow(u, m * v), n);
  }

  lemma FactorsOpen(k: Keys, s: nat, t: nat, hs: nat, ht: nat, u: nat, x: nat, y: nat)
    requires k.n > 0
    requires Congruent(Pow(s, k.e), hs * Pow(u, x), k.n) && Congruent(Pow(t, k.e), ht * Pow(u, y), k.n)
    ensures Congruent(Pow(s * t, k.e), (hs * ht) * Pow(u, y + x), k.n)
  {
    PowProduct(s, t, k.e);
    CongruentMul(Pow(s, k.e), hs * Pow(u, x), Pow(t, k.e), ht * Pow(u, y), k.n);
    Interchange(hs, Pow(u, x), ht, Pow(u, y));
    PowAdd(u, x, y);
  }

  /** Reading the file finds the blocks that were tagged. */
  ghost predicate Holds(file: Bytes, size: nat, blocks: seq<Bytes>)
  {
    forall i :: 0 <= i < |blocks| ==> ReadBlock(file, size, i) == blocks[i]
  }

  lemma FileHoldsBlocks(data: Bytes, size: nat, count: nat)
    requires |data| == count * size
    ensures Holds(data, size, Blocks(data, size, count))
  {
    forall i | 0 <= i < count
      ensures ReadBlock(data, size, i) == Block(data, size, count, i)
    {
      BlockBounds(size, count, i);
      assert size * i == i * size && (i + 1) * size == i * size + size;
    }
  }

  /** The verification equation before any final reduction. */
  ghost predicate Opens(k: Keys, q: seq<QElement>, phi: seq<Decimal>, name: string, u: nat, mu: nat, hash: Digest)
    requires k.n > 0 && Answerable(q, phi)
  {
    Congruent(Pow(SigmaProduct(k, q, phi), k.e), HashProduct(k, name, q, hash) * Pow(u, mu), k.n)
  }

  lemma {:induction false} ProductOpens(k: Keys, q: seq<QElement>, file: Bytes, size: nat, blocks: seq<Bytes>,
                                        name: string, u: nat, hash: Digest)
    requires ValidKey(k) && k.n > 0 && Holds(file, size, blocks) && InRange(q, |blocks|)
    ensures Answerable(q, TagOf(k, blocks, name, u, hash).phi)
    ensures Opens(k, q, TagOf(k, blocks, name, u, hash).phi, name, u, Mu(q, file, size), hash)
  {
    hide Opens, TermOpened, Times, ReadBlock, FromBytesBe, Sigma, SigmaProduct, HashProduct, ValidKey;
    var phi := TagOf(k, blocks, name, u, hash).phi;
    if q == [] {
      NothingOpens(k, phi, name, u, hash);
    } else {
      var init, c := q[..|q| - 1], q[|q| - 1];
      ProductOpens(k, init, file, size, blocks, name, u, hash);
      var m, h := FromBytesBe(blocks[c.i]), hash(name, c.i);
      TermOpens(k, m, h, u, c.v);
      ExtendOpens(k, init, c, phi, name, u, Mu(init, file, size), m, hash);
      assert init + [c] == q;
    }
  }

  lemma NothingOpens(k: Keys, phi: seq<Decimal>, name: string, u: nat, hash: Digest)
    requires k.n > 0
    ensures Opens(k, [], phi, name, u, 0, hash)
  {
    PowOne(k.e);
  }

  lemma ExtendOpens(k: Keys, q: seq<QElement>, c: QElement, phi: seq<Decimal>, name: string, u: nat, mu: nat, m: nat,
                    hash: Digest)
    requires k.n > 0 && Answerable(q, phi) && c.i < |phi| && phi[c.i].Number?
    requires Opens(k, q, phi, name, u, mu, hash)
    requires TermOpened(k, phi[c.i].value, hash(name, c.i), u, c.v, m)
    ensures Answerable(q + [c], phi)
    ensures Opens(k, q + [c], phi, name, u, Times(c.v, m) + mu, hash)
  {
    assert (q + [c])[..|q + [c]| - 1] == q;
    FactorsOpen(k, SigmaProduct(k, q, phi), ModPow(phi[c.i].value, c.v, k.n), HashProduct(k, name, q, hash),
                ModPow(hash(name, c.i), c.v, k.n), u, mu, Times(c.v, m));
  }

  /** The unreduced product of one file's signatures opens to its target. */
  ghost predicate FileOpened(k: Keys, q: seq<QElement>, phi: seq<Decimal>, target: nat)
    requires k.n > 0 && Answerable(q, phi)
  {
    Congruent(Pow(SigmaProduct(k, q, phi), k.e), target, k.n)
  }

  lemma OpensTarget(k: Keys, q: seq<QElement>, phi: seq<Decimal>, name: string, u: nat, mu: nat, hash: Digest)
    requires k.n > 0 && Answerable(q, phi) && Opens(k, q, phi, name, u, mu, hash)
    ensures FileOpened(k, q, phi, Target(k, u, name, q, mu, hash))
  {
    var hp := HashProduct(k, name, q, hash);
    ReduceFactors(hp, Pow(u, mu), k.n);
    ResidueCongruent(hp * Pow(u, mu), k.n);
  }

  /** Every honest answer satisfies the verification equation. */
  lemma Completeness(k: Keys, q: seq<QElement>, file: Bytes, size: nat, blocks: seq<Bytes>, name: string, u: nat,
                     hash: Digest)
    requires ValidKey(k) && k.n > 0 && Holds(file, size, blocks) && InRange(q, |blocks|)
    ensures Answerable(q, TagOf(k, blocks, name, u, hash).phi)
    ensures ModPow(SigmaProduct(k, q, TagOf(k, blocks, name, u, hash).phi) % k.n, k.e, k.n)
         == Target(k, u, name, q, Mu(q, file, size), hash)
  {
    hide *;
    ProductOpens(k, q, file, size, blocks, name, u, hash);
    var phi := TagOf(k, blocks, name, u, hash).phi;
    OpensTarget(k, q, phi, name, u, Mu(q, file, size), hash);
    OpenedAccepted(k, q, phi, u, name, Mu(q, file, size), hash);
  }

  lemma OpenedAccepted(k: Keys, q: seq<QElement>, phi: seq<Decimal>, u: nat, name: string, mu: nat, hash: Digest)
    requires k.n > 0 && Answerable(q, phi) && FileOpened(k, q, phi, Target(k, u, name, q, mu, hash))
    ensures ModPow(SigmaProduct(k, q, phi) % k.n, k.e, k.n) == Target(k, u, name, q, mu, hash)
  {
    var s, t := SigmaProduct(k, q, phi), HashProduct(k, name, q, hash) * ModPow(u, mu, k.n);
    ResidueCongruent(t, k.n);
    ResidueCongruent(s, k.n);
    PowCongruent(s % k.n, s, k.e, k.n);
  }

  /** Tag, answer and check, end to end. */
  method TagProveVerify(k: Keys, data: Bytes, count: nat, name: string, u: nat, hash: Digest, q: seq<QElement>,
                        arrivals: seq<nat>) returns (accepted: Result<bool>)
    requires ValidKey(k) && k.n > 0 && count > 0 && ArrivalOrder(arrivals, count) && InRange(q, count)
    ensures accepted == if |data| % count == 0 then Ok(true) else Err(InternalError)
  {
    var tag := SigGenWithData(k, data, count, name, u, hash, arrivals);
    if tag.Err? {
      return Err(tag.error);
    }
    var size := |data| / count;
    FileHoldsBlocks(data, size, count);
    Completeness(k, q, data, size, Blocks(data, size, count), name, u, hash);
    var proof := ProofGen(k, data, q, tag.value);
    accepted := Verify(k, tag.value.u, tag.value.name, q, proof.value.sigma, proof.value.mu, hash);
  }

  // ---- Aggregation and batch checking ----

  function Product(s: seq<nat>): nat
  {
    if s == [] then 1 else Product(s[..|s| - 1]) * s[|s| - 1]
  }

  lemma {:induction false} ProductConcat(s: seq<nat>, t: seq<nat>)
    ensures Product(s + t) == Product(s) * Product(t)
  {
    if t == [] {
      assert s + t == s;
    } else {
      var init, last := t[..|t| - 1], t[|t| - 1];
      assert (s + t)[..|s + t| - 1] == s + init;
      ProductConcat(s, init);
      Regroup(Product(s), Product(init), last);
    }
  }

  lemma ProductAppend(s: seq<nat>, x: nat)
    ensures Product(s + [x]) == Product(s) * x
  {
    assert (s + [x])[..|s + [x]| - 1] == s;
  }

  lemma MoveFactor(all: int, ax: int, a: int, x: int, b: int, ab: int)
    requires all == ax * b && ax == a * x && ab == a * b
    ensures all == ab * x
  {
    Regroup(a, x, b);
    Regroup(a, b, x);
  }

  lemma RemoveFactor(t: seq<nat>, j: nat)
    requires j < |t|
    ensures Product(t) == Product(t[..j] + t[j + 1..]) * t[j]
    ensures multiset(t[..j] + t[j + 1..]) == multiset(t) - multiset{t[j]}
  {
    hide Product;
    var before, after := t[..j], t[j + 1..];
    assert t == before + [t[j]] + after;
    ProductAppend(before, t[j]);
    ProductConcat(before, after);
    ProductConcat(before + [t[j]], after);
    MoveFactor(Product(t), Product(before + [t[j]]), Product(before), t[j], Product(after), Product(before + after));
  }

  /** A product does not depend on the order of its factors. */
  lemma {:induction false} ProductOfPermutation(s: seq<nat>, t: seq<nat>)
    requires multiset(s) == multiset(t)
    ensures Product(s) == Product(t)
  {
    if s == [] {
      assert |multiset(t)| == 0;
    } else {
      var last := |s| - 1;
      assert s[last] in multiset(t);
      var j :| 0 <= j < |t| && t[j] == s[last];
      RemoveFactor(s, last);
      RemoveFactor(t, j);
      ProductOfPermutation(s[..last] + s[last + 1..], t[..j] + t[j + 1..]);
    }
  }

  ghost predicate AllAnswerable(q: seq<QElement>, tags: seq<Tag>)
  {
    forall t :: 0 <= t < |tags| ==> Answerable(q, tags[t].phi)
  }

  ghost function SigmaProducts(k: Keys, q: seq<QElement>, tags: seq<Tag>): nat
    requires k.n > 0 && AllAnswerable(q, tags)
  {
    if tags == [] then 1
    else SigmaProducts(k, q, tags[..|tags| - 1]) * SigmaProduct(k, q, tags[|tags| - 1].phi)
  }

  ghost function Aggregate(k: Keys, q: seq<QElement>, tags: seq<Tag>): nat
    requires k.n > 0 && AllAnswerable(q, tags)
  {
    if tags == [] then 1 else SigmaProducts(k, q, tags) % k.n
  }

  method MultiplySigmas(k: Keys, q: seq<QElement>, phi: seq<Decimal>, base: nat) returns (r: Result<nat>)
    requires k.n > 0 && InRange(q, |phi|)
    ensures r.Ok? <==> Answerable(q, phi)
    ensures r.Ok? ==> r.value == base * SigmaProduct(k, q, phi)
    ensures r.Err? ==> r.error == InternalError
  {
    var sigma := base;
    for j := 0 to |q|
      invariant Answerable(q[..j], phi)
      invariant sigma == base * SigmaProduct(k, q[..j], phi)
    {
      assert q[..j + 1][..j] == q[..j];
      var sigmaI := phi[q[j].i];
      if sigmaI.Malformed? {
        return Err(InternalError);
      }
      var power := ModPow(sigmaI.value, q[j].v, k.n);
      Regroup(base, SigmaProduct(k, q[..j], phi), power);
      sigma := sigma * power;
    }
    assert q[..|q|] == q;
    r := Ok(sigma);
  }

  /** The source reduces after each tag only; an empty list leaves the unit. */
  method AggrProofGen(k: Keys, q: seq<QElement>, tags: seq<Tag>) returns (r: Result<Decimal>)
    requires k.n > 0 && forall t :: 0 <= t < |tags| ==> InRange(q, |tags[t].phi|)
    ensures r.Ok? <==> AllAnswerable(q, tags)
    ensures r.Ok? ==> r.value == Number(Aggregate(k, q, tags))
    ensures r.Err? ==> r.error == InternalError
  {
    var sigma := 1;
    for t := 0 to |tags|
      invariant AllAnswerable(q, tags[..t])
      invariant sigma == Aggregate(k, q, tags[..t])
    {
      assert tags[..t + 1][..t] == tags[..t];
      var phi := tags[t].phi;
      var product := MultiplySigmas(k, q, phi, sigma);
      if product.Err? {
        return Err(InternalError);
      }
      ReduceFactors(SigmaProducts(k, q, tags[..t]), SigmaProduct(k, q, phi), k.n);
      sigma := product.value % k.n;
    }
    assert tags[..|tags|] == tags;
    r := Ok(Number(sigma));
  }

  /** The aggregate is the product of the single answers' sigmas. */
  lemma {:induction false} AggregateOfSigmas(k: Keys, q: seq<QElement>, tags: seq<Tag>, sigmas: seq<nat>)
    requires k.n > 0 && AllAnswerable(q, tags) && |sigmas| == |tags|
    requires forall t :: 0 <= t < |tags| ==> sigmas[t] == SigmaProduct(k, q, tags[t].phi) % k.n
    ensures SigmaProducts(k, q, tags) % k.n == Product(sigmas) % k.n
  {
    if tags != [] {
      var last := |tags| - 1;
      AggregateOfSigmas(k, q, tags[..last], sigmas[..last]);
      var p := SigmaProduct(k, q, tags[last].phi);
      ResidueCongruent(p, k.n);
      CongruentMul(SigmaProducts(k, q, tags[..last]), Product(sigmas[..last]), p, p % k.n, k.n);
    }
  }

  ghost function Targets(k: Keys, us: seq<Decimal>, names: seq<string>, q: seq<QElement>, mus: seq<Decimal>,
                         hash: Digest): seq<nat>
    requires k.n > 0 && BatchShape(us, names, mus)
  {
    seq(|names|, i requires 0 <= i < |names| => Target(k, us[i].value, names[i], q, mus[i].value, hash))
  }

  /** What the workers unwrap: one number per name in both lists. */
  ghost predicate BatchShape(us: seq<Decimal>, names: seq<string>, mus: seq<Decimal>)
  {
    && |us| >= |names| && |mus| >= |names|
    && forall i :: 0 <= i < |names| ==> us[i].Number? && mus[i].Number?
  }

  ghost function BatchTarget(k: Keys, us: seq<Decimal>, names: seq<string>, q: seq<QElement>, mus: seq<Decimal>,
                             hash: Digest): nat
    requires k.n > 0 && BatchShape(us, names, mus)
  {
    if names == [] then 1 else Product(Targets(k, us, names, q, mus, hash)) % k.n
  }

  /** The verdict is a function of the inputs alone, whatever the arrival order. */
  method BatchVerify(k: Keys, us: seq<Decimal>, names: seq<string>, q: seq<QElement>, sigma: Decimal,
                     mus: seq<Decimal>, hash: Digest, arrivals: seq<nat>) returns (ok: bool)
    requires k.n > 0 && BatchShape(us, names, mus) && sigma.Number? && ArrivalOrder(arrivals, |names|)
    ensures ok <==> ModPow(sigma.value, k.e, k.n) == BatchTarget(k, us, names, q, mus, hash)
  {
    ArrivalCovers(arrivals, |names|);
    ghost var targets := Targets(k, us, names, q, mus, hash);
    ghost var received: seq<nat> := [];
    var multiply := 1;
    for j := 0 to |names|
      invariant received == seq(j, m requires 0 <= m < j => targets[arrivals[m]])
      invariant multiply == if j == 0 then 1 else Product(received) % k.n
    {
      var i := arrivals[j];
      var mul := MultiplyHashes(k, names[i], q, hash);
      mul := mul * ModPow(us[i].value, mus[i].value, k.n);
      mul := mul % k.n;
      ghost var before := received;
      received := received + [mul];
      assert received[..j] == before;
      ReduceFactors(Product(before), mul, k.n);
      multiply := multiply * mul;
      multiply := multiply % k.n;
    }
    if names != [] {
      ReceivedAll(targets, arrivals, received);
      ProductOfPermutation(received, targets);
    }
    ok := ModPow(sigma.value, k.e, k.n) == multiply;
  }

  /** Values picked in an arrival order are a permutation of the values. */
  lemma {:induction false} PickedMultiset(values: seq<nat>, order: seq<nat>, x: nat)
    requires forall m :: 0 <= m < |order| ==> order[m] < |values|
    ensures multiset(seq(|order|, m requires 0 <= m < |order| => values[order[m]]))[x]
         == Occurrences(values, multiset(order), x, |values|)
    decreases |order|
  {
    var picked := seq(|order|, m requires 0 <= m < |order| => values[order[m]]);
    if order == [] {
      OccurrencesEmpty(values, x, |values|);
    } else {
      var last := |order| - 1;
      var init := order[..last];
      PickedMultiset(values, init, x);
      assert picked == seq(|init|, m requires 0 <= m < |init| => values[init[m]]) + [values[order[last]]];
      assert order == init + [order[last]];
      OccurrencesAdd(values, multiset(init), order[last], x, |values|);
      assert multiset(order) == multiset(init) + multiset{order[last]};
    }
  }

  /** How often x is picked when index i < bound is picked picks[i] times. */
  ghost function Occurrences(values: seq<nat>, picks: multiset<nat>, x: nat, bound: nat): nat
    requires bound <= |values|
  {
    if bound == 0 then 0
    else Occurrences(values, picks, x, bound - 1) + if values[bound - 1] == x then picks[bound - 1] else 0
  }

  lemma {:induction false} OccurrencesEmpty(values: seq<nat>, x: nat, bound: nat)
    requires bound <= |values|
    ensures Occurrences(values, multiset{}, x, bound) == 0
  {
    if bound > 0 { OccurrencesEmpty(values, x, bound - 1); }
  }

  lemma {:induction false} OccurrencesAdd(values: seq<nat>, picks: multiset<nat>, i: nat, x: nat, bound: nat)
    requires bound <= |values| && i < |values|
    ensures Occurrences(values, picks + multiset{i}, x, bound)
         == Occurrences(values, picks, x, bound) + if i < bound && values[i] == x then 1 else 0
  {
    if bound > 0 { OccurrencesAdd(values, picks, i, x, bound - 1); }
  }

  lemma ReceivedAll(values: seq<nat>, arrivals: seq<nat>, received: seq<nat>)
    requires ArrivalOrder(arrivals, |values|) && |received| == |arrivals| == |values|
    requires forall m :: 0 <= m < |arrivals| ==> arrivals[m] < |values| && received[m] == values[arrivals[m]]
    ensures multiset(received) == multiset(values)
  {
    var all: seq<nat> := seq(|values|, i => i);
    forall x: nat
      ensures multiset(received)[x] == multiset(values)[x]
    {
      PickedMultiset(values, arrivals, x);
      PickedMultiset(values, all, x);
      assert received == seq(|arrivals|, m requires 0 <= m < |arrivals| => values[arrivals[m]]);
      assert values == seq(|all|, m requires 0 <= m < |all| => values[all[m]]);
    }
  }

  datatype Stored = Stored(file: Bytes, size: nat, blocks: seq<Bytes>, name: string, u: nat)

  ghost predicate Challengeable(f: Stored, q: seq<QElement>)
  {
    Holds(f.file, f.size, f.blocks) && InRange(q, |f.blocks|)
  }

  ghost predicate AllChallengeable(files: seq<Stored>, q: seq<QElement>)
  {
    forall i :: 0 <= i < |files| ==> Challengeable(files[i], q)
  }

  ghost function TagsOf(k: Keys, files: seq<Stored>, hash: Digest): seq<Tag>
    requires k.n > 0
  {
    seq(|files|, i requires 0 <= i < |files| => TagOf(k, files[i].blocks, files[i].name, files[i].u, hash))
  }

  ghost function TargetOf(k: Keys, f: Stored, q: seq<QElement>, hash: Digest): nat
    requires k.n > 0
  {
    Target(k, f.u, f.name, q, Mu(q, f.file, f.size), hash)
  }

  ghost function TargetsOf(k: Keys, files: seq<Stored>, q: seq<QElement>, hash: Digest): seq<nat>
    requires k.n > 0
  {
    seq(|files|, i requires 0 <= i < |files| => TargetOf(k, files[i], q, hash))
  }

  ghost predicate BatchOpens(k: Keys, q: seq<QElement>, tags: seq<Tag>, targets: seq<nat>)
    requires k.n > 0 && AllAnswerable(q, tags)
  {
    Congruent(Pow(SigmaProducts(k, q, tags), k.e), Product(targets), k.n)
  }

  lemma EmptyBatch(k: Keys, q: seq<QElement>)
    requires k.n > 0
    ensures BatchOpens(k, q, [], [])
    ensures k.n > 1 ==> ModPow(1, k.e, k.n) == 1
  {
    PowOne(k.e);
  }

  lemma ExtendBatch(k: Keys, q: seq<QElement>, tags: seq<Tag>, targets: seq<nat>, tag: Tag, target: nat)
    requires k.n > 0 && AllAnswerable(q, tags) && BatchOpens(k, q, tags, targets) && Answerable(q, tag.phi)
    requires FileOpened(k, q, tag.phi, target)
    ensures AllAnswerable(q, tags + [tag]) && BatchOpens(k, q, tags + [tag], targets + [target])
  {
    assert (tags + [tag])[..|tags + [tag]| - 1] == tags;
    assert (targets + [target])[..|targets + [target]| - 1] == targets;
    var s, t := SigmaProducts(k, q, tags), SigmaProduct(k, q, tag.phi);
    PowProduct(s, t, k.e);
    CongruentMul(Pow(s, k.e), Product(targets), Pow(t, k.e), target, k.n);
  }

  lemma {:induction false} AggregateOpens(k: Keys, files: seq<Stored>, q: seq<QElement>, hash: Digest)
    requires ValidKey(k) && k.n > 0 && AllChallengeable(files, q)
    ensures AllAnswerable(q, TagsOf(k, files, hash))
    ensures BatchOpens(k, q, TagsOf(k, files, hash), TargetsOf(k, files, q, hash))
  {
    hide BatchOpens, FileOpened, Opens, Target, ValidKey;
    if files == [] {
      EmptyBatch(k, q);
    } else {
      var init, f := files[..|files| - 1], files[|files| - 1];
      AggregateOpens(k, init, q, hash);
      ProductOpens(k, q, f.file, f.size, f.blocks, f.name, f.u, hash);
      var tag := TagOf(k, f.blocks, f.name, f.u, hash);
      OpensTarget(k, q, tag.phi, f.name, f.u, Mu(q, f.file, f.size), hash);
      ExtendBatch(k, q, TagsOf(k, init, hash), TargetsOf(k, init, q, hash), tag, TargetOf(k, f, q, hash));
      assert TagsOf(k, files, hash) == TagsOf(k, init, hash) + [tag];
      assert TargetsOf(k, files, q, hash) == TargetsOf(k, init, q, hash) + [TargetOf(k, f, q, hash)];
    }
  }

  lemma BatchReduced(k: Keys, q: seq<QElement>, tags: seq<Tag>, targets: seq<nat>)
    requires k.n > 0 && AllAnswerable(q, tags) && BatchOpens(k, q, tags, targets)
    ensures ModPow(SigmaProducts(k, q, tags) % k.n, k.e, k.n) == Product(targets) % k.n
  {
    var s := SigmaProducts(k, q, tags);
    ResidueCongruent(s, k.n);
    PowCongruent(s % k.n, s, k.e, k.n);
  }

  /** Every honest aggregate satisfies the batch equation. */
  lemma BatchCompleteness(k: Keys, files: seq<Stored>, q: seq<QElement>, hash: Digest)
    requires ValidKey(k) && k.n > 0 && AllChallengeable(files, q)
    ensures AllAnswerable(q, TagsOf(k, files, hash))
    ensures ModPow(SigmaProducts(k, q, TagsOf(k, files, hash)) % k.n, k.e, k.n)
         == Product(TargetsOf(k, files, q, hash)) % k.n
  {
    AggregateOpens(k, files, q, hash);
    BatchReduced(k, q, TagsOf(k, files, hash), TargetsOf(k, files, q, hash));
  }

  ghost predicate Answered(files: seq<Stored>, q: seq<QElement>, us: seq<Decimal>, names: seq<string>, mus: seq<Decimal>)
  {
    && |us| == |names| == |mus| == |files|
    && (forall j :: 0 <= j < |files| ==> us[j] == Number(files[j].u))
    && (forall j :: 0 <= j < |files| ==> names[j] == files[j].name)
    && (forall j :: 0 <= j < |files| ==> mus[j] == Number(Mu(q, files[j].file, files[j].size)))
  }

  /** The aggregate that the source computes meets the value that the batch check computes. */
  lemma AggregateAccepted(k: Keys, files: seq<Stored>, q: seq<QElement>, hash: Digest, us: seq<Decimal>,
                          names: seq<string>, mus: seq<Decimal>)
    requires ValidKey(k) && k.n > 1 && AllChallengeable(files, q) && Answered(files, q, us, names, mus)
    ensures AllAnswerable(q, TagsOf(k, files, hash))
    ensures ModPow(Aggregate(k, q, TagsOf(k, files, hash)), k.e, k.n) == BatchTarget(k, us, names, q, mus, hash)
  {
    assert Targets(k, us, names, q, mus, hash) == TargetsOf(k, files, q, hash);
    BatchCompleteness(k, files, q, hash);
    EmptyBatch(k, q);
  }

  /** Aggregate any number of honest answers and check the batch: accepted in every arrival order. */
  method AggregateVerify(k: Keys, ghost files: seq<Stored>, q: seq<QElement>, hash: Digest, tags: seq<Tag>,
                         us: seq<Decimal>, names: seq<string>, mus: seq<Decimal>, arrivals: seq<nat>)
    returns (ok: bool)
    requires ValidKey(k) && k.n > 1 && AllChallengeable(files, q) && ArrivalOrder(arrivals, |files|)
    requires tags == TagsOf(k, files, hash) && Answered(files, q, us, names, mus)
    ensures ok
  {
    AggregateAccepted(k, files, q, hash, us, names, mus);
    var sigma := AggrProofGen(k, q, tags);
    ok := BatchVerify(k, us, names, q, sigma.value, mus, hash, arrivals);
  }
}
