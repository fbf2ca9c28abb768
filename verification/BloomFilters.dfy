/** The Bloom filter behind the streaming index (packages/shared/src/similarity.ts). */
module BloomFilters {
  import opened Basics

  const TWO_32 := 0x1_0000_0000
  const MAX_BITS := 0x8000_0000

  /** One FNV-1a round on a UTF-16 code unit; the shifts add up to the FNV prime. */
  function Fnv1aRound(h: bv32, c: CodeUnit): bv32 {
    var x := h ^ (c as bv32);
    x + ((x << 1) + (x << 4) + (x << 7) + (x << 8) + (x << 24))
  }

  function Djb2Round(h: bv32, c: CodeUnit): bv32 {
    (h << 5) + h + (c as bv32)
  }

  function Fold(key: seq<CodeUnit>, seed: bv32, round: (bv32, CodeUnit) -> bv32): bv32 {
    if key == [] then seed else round(Fold(key[..|key| - 1], seed, round), key[|key| - 1])
  }

  method ComputeFold(key: seq<CodeUnit>, seed: bv32, round: (bv32, CodeUnit) -> bv32) returns (h: bv32)
    ensures h == Fold(key, seed, round)
  {
    h := seed;
    for i := 0 to |key|
      invariant h == Fold(key[..i], seed, round)
    {
      assert key[..i + 1][..i] == key[..i];
      h := round(h, key[i]);
    }
    assert key[..|key|] == key;
  }

  /** 32-bit FNV-1a. */
  function Fnv1a(key: string): bv32 { Fold(CodeUnits(key), 0x811c_9dc5, Fnv1aRound) }

  /** 32-bit djb2. */
  function Djb2(key: string): bv32 { Fold(CodeUnits(key), 5381, Djb2Round) }

  /** The result of the bitwise `| 1`: odd, and read back as a signed 32-bit number. */
  function SignedOdd(h: bv32): int {
    var odd := (h | 1) as int;
    if odd < 0x8000_0000 then odd else odd - TWO_32
  }

  /** Index of the `i`-th probe: double hashing, wrapped to 32 bits, reduced modulo `m`.
      JavaScript's unsigned shift by zero is the remainder modulo 2^32, also for a negative sum. */
  function Probe(h1: bv32, h2: bv32, i: nat, m: nat): (index: nat)
    requires m > 0
    ensures index < m
  {
    ((h1 as int + i * SignedOdd(h2)) % TWO_32) % m
  }

  /** The sign of the odd step does not matter: the probes are `h1 + i * (h2 | 1)` in 32 bits. */
  lemma ProbeIsDoubleHash(h1: bv32, h2: bv32, i: nat, m: nat)
    requires m > 0
    ensures Probe(h1, h2, i, m) == ((h1 as int + i * ((h2 | 1) as int)) % TWO_32) % m
  {
    SameResidue(h1 as int, (h2 | 1) as int, i);
  }

  lemma SameResidue(x: int, odd: int, i: nat)
    ensures (x + i * (odd - TWO_32)) % TWO_32 == (x + i * odd) % TWO_32
  {
    assert i * (odd - TWO_32) == i * odd - i * TWO_32;
    WrapsAround(x + i * odd, i);
  }

  lemma {:induction false} WrapsAround(x: int, i: nat)
    ensures (x - i * TWO_32) % TWO_32 == x % TWO_32
    decreases i
  {
    if i > 0 {
      WrapsAround(x - TWO_32, i - 1);
    }
  }

  lemma FoldOne(key: seq<CodeUnit>, c: CodeUnit, seed: bv32, round: (bv32, CodeUnit) -> bv32)
    ensures Fold(key + [c], seed, round) == round(Fold(key, seed, round), c)
  {
    assert (key + [c])[..|key|] == key;
  }

  /** The published values of both hashes for a text of two letters. */
  lemma HashesOfAb()
    ensures Fnv1a("ab") == 0x4D25_05CA && Djb2("ab") == 5863208
  {
    assert CodeUnits("ab") == [97, 98] by {
      assert "ab"[..1] == "a" && "a"[..0] == "" && CodeUnits("") == [];
      assert Encoded('a') == [97] && Encoded('b') == [98];
    }
    assert [97, 98] == [97] + [98] && [97] == [] + [97];
    FoldOne([], 97, 0x811c_9dc5, Fnv1aRound);
    FoldOne([97], 98, 0x811c_9dc5, Fnv1aRound);
    FoldOne([], 97, 5381, Djb2Round);
    FoldOne([97], 98, 5381, Djb2Round);
  }

  ghost function Probes(key: string, m: nat, k: nat): set<nat>
    requires m > 0
  {
    set i | 0 <= i < k :: Probe(Fnv1a(key), Djb2(key), i, m)
  }

  function Mask(bit: nat): bv8
    requires bit < 8
  {
    (1 as bv8) << bit
  }

  predicate BitSet(bytes: seq<bv8>, index: nat)
    requires index < 8 * |bytes|
  {
    bytes[index / 8] & Mask(index % 8) != 0
  }

  /** Setting a bit sets that bit and no other, in that byte and in every other. */
  lemma SettingOneBit(bytes: seq<bv8>, index: nat, other: nat)
    requires index < 8 * |bytes| && other < 8 * |bytes|
    ensures BitSet(bytes[index / 8 := bytes[index / 8] | Mask(index % 8)], other)
        <==> other == index || BitSet(bytes, other)
  {
    var byte := bytes[index / 8];
    if other / 8 == index / 8 {
      assert other == index <==> other % 8 == index % 8;
    }
  }

  /** Some added key probes this index. */
  ghost predicate Claimed(keys: set<string>, index: nat, m: nat, k: nat)
    requires m > 0
  {
    exists key :: key in keys && index in Probes(key, m, k)
  }

  /** A bit is set exactly when some added key probes it. */
  ghost predicate Represents(bytes: seq<bv8>, keys: set<string>, m: nat, k: nat) {
    0 < m <= 8 * |bytes| &&
    forall index: nat :: index < m ==> (BitSet(bytes, index) <==> Claimed(keys, index, m, k))
  }

  lemma RepresentsOneMore(before: seq<bv8>, after: seq<bv8>, keys: set<string>, key: string, m: nat, k: nat)
    requires Represents(before, keys, m, k) && |after| == |before|
    requires forall index: nat :: index < m ==>
        (BitSet(after, index) <==> BitSet(before, index) || index in Probes(key, m, k))
    ensures Represents(after, keys + {key}, m, k)
  {
    forall index: nat | index < m
      ensures BitSet(after, index) <==> Claimed(keys + {key}, index, m, k)
    {
    }
  }

  class BloomFilter {
    const bits: array<bv8>
    const m: nat
    const k: nat
    /** Every key added so far. */
    ghost var keys: set<string>

    ghost predicate Valid()
      reads this, bits
    {
      0 < m <= MAX_BITS && 0 < k && bits.Length == (m + 7) / 8 && Represents(bits[..], keys, m, k)
    }

    /** The sizes that the constructor derives from the expected load and the error rate;
        any positive pair below the 32-bit shift limit will do. */
    constructor (m: nat, k: nat)
      requires 0 < m <= MAX_BITS && 0 < k
      ensures Valid() && fresh(bits) && keys == {} && this.m == m && this.k == k
    {
      this.m, this.k := m, k;
      keys := {};
      bits := new bv8[(m + 7) / 8](_ => 0);
    }

    method Indices(key: string) returns (out: seq<nat>)
      requires m > 0
      ensures |out| == k && forall i :: 0 <= i < k ==> out[i] == Probe(Fnv1a(key), Djb2(key), i, m)
      ensures forall index: nat :: index in out <==> index in Probes(key, m, k)
    {
      var h1 := ComputeFold(CodeUnits(key), 0x811c_9dc5, Fnv1aRound);
      var h2 := ComputeFold(CodeUnits(key), 5381, Djb2Round);
      out := [];
      for i := 0 to k
        invariant |out| == i && forall j :: 0 <= j < i ==> out[j] == Probe(h1, h2, j, m)
      {
        out := out + [Probe(h1, h2, i, m)];
      }
      forall index: nat
        ensures index in out <==> index in Probes(key, m, k)
      {
        if index in out {
          var i: nat :| i < k && out[i] == index;
          assert index == Probe(Fnv1a(key), Djb2(key), i, m);
        }
        if index in Probes(key, m, k) {
          var i: nat :| i < k && index == Probe(Fnv1a(key), Djb2(key), i, m);
          assert out[i] == index;
        }
      }
    }

    method SetBit(index: nat)
      requires bits.Length == (m + 7) / 8 && index < m
      modifies bits
      ensures forall other: nat :: other < m ==>
          (BitSet(bits[..], other) <==> other == index || old(BitSet(bits[..], other)))
    {
      ghost var before := bits[..];
      bits[index / 8] := bits[index / 8] | Mask(index % 8);
      assert bits[..] == before[index / 8 := before[index / 8] | Mask(index % 8)];
      forall other: nat | other < m
        ensures BitSet(bits[..], other) <==> other == index || BitSet(before, other)
      {
        SettingOneBit(before, index, other);
      }
    }

    method SetBits(indices: seq<nat>)
      requires bits.Length == (m + 7) / 8 && forall index :: index in indices ==> index < m
      modifies bits
      ensures forall other: nat :: other < m ==>
          (BitSet(bits[..], other) <==> other in indices || old(BitSet(bits[..], other)))
    {
      for i := 0 to |indices|
        invariant forall other: nat :: other < m ==>
            (BitSet(bits[..], other) <==> other in indices[..i] || old(BitSet(bits[..], other)))
      {
        assert indices[i] in indices;
        SetBit(indices[i]);
      }
    }

    method Add(key: string)
      requires Valid()
      modifies this, bits
      ensures Valid() && keys == old(keys) + {key}
      ensures forall index: nat :: index < m && old(BitSet(bits[..], index)) ==> BitSet(bits[..], index)
    {
      ghost var before := bits[..];
      var indices := Indices(key);
      SetBits(indices);
      RepresentsOneMore(before, bits[..], keys, key, m, k);
      keys := keys + {key};
    }

    method TestBit(index: nat) returns (on: bool)
      requires bits.Length == (m + 7) / 8 && index < m
      ensures on <==> BitSet(bits[..], index)
    {
      assert bits[..][index / 8] == bits[index / 8];
      on := bits[index / 8] & Mask(index % 8) != 0;
    }

    /** Answers exactly whether all probes of the key are claimed by added keys; so an added
        key is always reported. */
    method Has(key: string) returns (found: bool)
      requires Valid()
      ensures found <==> forall index :: index in Probes(key, m, k) ==> Claimed(keys, index, m, k)
      ensures key in keys ==> found
    {
      var indices := Indices(key);
      for i := 0 to |indices|
        invariant forall j :: 0 <= j < i ==> Claimed(keys, indices[j], m, k)
      {
        assert indices[i] in indices;
        var on := TestBit(indices[i]);
        if !on {
          return false;
        }
      }
      return true;
    }
  }
}
