/**
 What the numbers in tags and answers say about the file: a block is read as a
 number without loss, the blocks are the file, every tag number is bound to its
 block and position, and an answer is a sum and two products over its challenges.
 */
module Reading {
  import opened ByteStrings
  import opened Modular
  import opened Rsa
  import opened Podr2

  // ---- Bytes as numbers ----

  lemma OneByte(x: Byte)
    ensures FromBytesBe([x]) == x as nat
  {
    assert [x][..0] == [];
    assert FromBytesBe([]) == 0;
  }

  lemma Shift(x: nat, y: nat, p: nat)
    ensures (x * p + y) * 256 == x * (256 * p) + y * 256
  {
  }

  /** Big-endian: what comes first weighs most. */
  lemma {:induction false} NumberOfConcat(a: Bytes, b: Bytes)
    ensures FromBytesBe(a + b) == FromBytesBe(a) * Pow(256, |b|) + FromBytesBe(b)
  {
    if b == [] {
      assert a + b == a;
    } else {
      var init := b[..|b| - 1];
      NumberOfConcat(a, init);
      assert (a + b)[..|a + b| - 1] == a + init;
      assert Pow(256, |b|) == 256 * Pow(256, |init|);
      Shift(FromBytesBe(a), FromBytesBe(init), Pow(256, |init|));
    }
  }

  /** Blocks of one length that read as the same number are the same. */
  lemma {:induction false} NumbersTellBlocksApart(a: Bytes, b: Bytes)
    requires |a| == |b| && FromBytesBe(a) == FromBytesBe(b)
    ensures a == b
  {
    if a != [] {
      var x, y := a[|a| - 1] as nat, b[|b| - 1] as nat;
      var p, q := FromBytesBe(a[..|a| - 1]), FromBytesBe(b[..|b| - 1]);
      DivisionUnique(p * 256 + x, p, x, 256);
      DivisionUnique(q * 256 + y, q, y, 256);
      NumbersTellBlocksApart(a[..|a| - 1], b[..|b| - 1]);
      assert a == a[..|a| - 1] + [a[|a| - 1]] && b == b[..|b| - 1] + [b[|b| - 1]];
    }
  }

  // ---- The file and its blocks ----

  function Join(blocks: seq<Bytes>): Bytes
  {
    if blocks == [] then [] else Join(blocks[..|blocks| - 1]) + blocks[|blocks| - 1]
  }

  /** The blocks in order are the file. */
  lemma {:induction false} BlocksAreTheFile(data: Bytes, size: nat, count: nat, n: nat)
    requires |data| == count * size && n <= count
    ensures n * size <= |data| && Join(Blocks(data, size, count)[..n]) == data[..n * size]
    decreases n
  {
    var blocks := Blocks(data, size, count);
    if n > 0 {
      BlocksAreTheFile(data, size, count, n - 1);
      BlockBounds(size, count, n - 1);
      assert blocks[..n][..n - 1] == blocks[..n - 1];
      assert data[..n * size] == data[..(n - 1) * size] + data[(n - 1) * size..n * size];
    } else {
      assert n * size == 0;
    }
  }

  /** A block read has its size: the bytes of the file from its place on, then zeros. */
  lemma BlockHasItsSize(file: Bytes, size: nat, i: nat)
    ensures |ReadBlock(file, size, i)| == size
    ensures forall j :: 0 <= j < size ==>
              ReadBlock(file, size, i)[j] == if size * i + j < |file| then file[size * i + j] else 0
  {
    var from := size * i;
    assert from < |file| && from + size > |file| ==> ReadBlock(file, size, i)[..|file| - from] == file[from..];
  }

  /** Every number of a tag is bound to the name, the position and the contents of its block. */
  lemma TagNumberOpens(k: Keys, blocks: seq<Bytes>, name: string, u: nat, hash: Digest, i: nat)
    requires ValidKey(k) && k.n > 0 && i < |blocks|
    ensures var tag := TagOf(k, blocks, name, u, hash);
            && tag.name == name && tag.u == Number(u) && |tag.phi| == |blocks| && tag.phi[i].Number? && tag.phi[i].value < k.n
            && Congruent(Pow(tag.phi[i].value, k.e), hash(name, i) * Pow(u, FromBytesBe(blocks[i])), k.n)
  {
    hide ValidKey, FromBytesBe;
    SigmaOpens(k, FromBytesBe(blocks[i]), hash(name, i), u);
  }

  // ---- Answers ----

  /** A challenge of one block: coefficient times number, and powers by the coefficient. */
  lemma OneChallenge(k: Keys, phi: seq<Decimal>, c: QElement, name: string, hash: Digest, file: Bytes, size: nat)
    requires k.n > 0 && c.i < |phi| && phi[c.i].Number?
    ensures Mu([c], file, size) == c.v * FromBytesBe(ReadBlock(file, size, c.i))
    ensures Answerable([c], phi) && SigmaProduct(k, [c], phi) == Pow(phi[c.i].value, c.v) % k.n
    ensures HashProduct(k, name, [c], hash) == Pow(hash(name, c.i), c.v) % k.n
  {
    hide FromBytesBe, ReadBlock;
    assert [c][..0] == [] && [c][0] == c;
    assert SigmaProduct(k, [], phi) == 1 && HashProduct(k, name, [], hash) == 1 && Mu([], file, size) == 0;
  }

  lemma {:induction false} MuOfConcat(p: seq<QElement>, q: seq<QElement>, file: Bytes, size: nat)
    ensures Mu(p + q, file, size) == Mu(p, file, size) + Mu(q, file, size)
  {
    hide FromBytesBe, ReadBlock, Times;
    if q == [] {
      assert p + q == p;
    } else {
      MuOfConcat(p, q[..|q| - 1], file, size);
      assert (p + q)[..|p + q| - 1] == p + q[..|q| - 1];
    }
  }

  lemma {:induction false} SigmasOfConcat(k: Keys, p: seq<QElement>, q: seq<QElement>, phi: seq<Decimal>)
    requires k.n > 0 && Answerable(p, phi) && Answerable(q, phi)
    ensures Answerable(p + q, phi)
    ensures SigmaProduct(k, p + q, phi) == SigmaProduct(k, p, phi) * SigmaProduct(k, q, phi)
  {
    hide ModPow;
    if q == [] {
      assert p + q == p;
    } else {
      var init, c := q[..|q| - 1], q[|q| - 1];
      assert forall j :: 0 <= j < |init| ==> init[j] == q[j];
      SigmasOfConcat(k, p, init, phi);
      assert (p + q)[..|p + q| - 1] == p + init;
      Regroup(SigmaProduct(k, p, phi), SigmaProduct(k, init, phi), ModPow(phi[c.i].value, c.v, k.n));
    }
  }

  lemma {:induction false} LabelsOfConcat(k: Keys, p: seq<QElement>, q: seq<QElement>, name: string, hash: Digest)
    requires k.n > 0
    ensures HashProduct(k, name, p + q, hash) == HashProduct(k, name, p, hash) * HashProduct(k, name, q, hash)
  {
    hide ModPow;
    if q == [] {
      assert p + q == p;
    } else {
      var init, c := q[..|q| - 1], q[|q| - 1];
      LabelsOfConcat(k, p, init, name, hash);
      assert (p + q)[..|p + q| - 1] == p + init;
      Regroup(HashProduct(k, name, p, hash), HashProduct(k, name, init, hash), ModPow(hash(name, c.i), c.v, k.n));
    }
  }

  lemma MultiplesApart(v: nat, x: nat, y: nat)
    requires v > 0 && x != y
    ensures v * x != v * y
  {
    if x < y {
      assert v * y == v * x + v * (y - x);
    } else {
      assert v * x == v * y + v * (x - y);
    }
  }

  /** Changing any byte of a block that is challenged alone, with a coefficient that is not zero, changes the answer. */
  lemma ChangedBlockChangesMu(file: Bytes, file': Bytes, size: nat, c: QElement)
    requires c.v > 0 && ReadBlock(file, size, c.i) != ReadBlock(file', size, c.i)
    ensures Mu([c], file, size) != Mu([c], file', size)
  {
    hide FromBytesBe, ReadBlock;
    BlockHasItsSize(file, size, c.i);
    BlockHasItsSize(file', size, c.i);
    var x, y := FromBytesBe(ReadBlock(file, size, c.i)), FromBytesBe(ReadBlock(file', size, c.i));
    if x == y {
      NumbersTellBlocksApart(ReadBlock(file, size, c.i), ReadBlock(file', size, c.i));
    }
    MultiplesApart(c.v, x, y);
    assert [c][..0] == [];
  }
}
