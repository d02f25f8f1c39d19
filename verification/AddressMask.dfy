/** Per-address masks with exactly 64 of 128 bits set, remembered once computed. */
module AddressMask {
  import opened Bytes
  import opened FisherYates
  import opened SimpleRng

  const MASK_BYTES := 16
  const MASK_BITS := 128
  const MASK_WEIGHT := 64

  /** The shuffled bit positions of a generator seed; the first 64 are selected. */
  function Positions(word: nat): (s: seq<nat>)
    ensures |s| == MASK_BITS
  {
    Shuffle(Identity(MASK_BITS), ShuffleDraws(word, MASK_BITS))
  }

  function Chosen(word: nat): (s: seq<nat>)
    ensures |s| == MASK_WEIGHT
  {
    Positions(word)[..MASK_WEIGHT]
  }

  lemma ChosenDistinct(word: nat)
    ensures Distinct(Chosen(word))
    ensures forall i :: 0 <= i < MASK_WEIGHT ==> Chosen(word)[i] < MASK_BITS
  {
    ShuffleIsPermutation(MASK_BITS, ShuffleDraws(word, MASK_BITS));
  }

  /** The mask whose set bits are exactly the chosen positions. */
  function MaskOf(word: nat): (m: seq<Byte>)
    ensures |m| == MASK_BYTES
    ensures forall j :: 0 <= j < MASK_BITS ==> (BitAt(m, j) <==> j in Chosen(word))
  {
    FromBits(MASK_BYTES, (j: nat) => j in Chosen(word))
  }

  /** The mask in the generator's terms: the first 64 of 128 positions, shuffled by the draws of `DrawIsState`. */
  lemma MaskBits(word: nat, j: nat)
    requires j < 128
    ensures BitAt(MaskOf(word), j) <==> j in Shuffle(Identity(128), ShuffleDraws(word, 128))[..64]
  {
    hide Shuffle, ShuffleDraws, BitAt;
  }

  function SetBits(m: seq<Byte>): set<nat> {
    set j: nat | j < 8 * |m| && BitAt(m, j)
  }

  function Elements(s: seq<nat>): set<nat> {
    set x | x in s
  }

  lemma {:induction false} DistinctCount(s: seq<nat>)
    requires Distinct(s)
    ensures |Elements(s)| == |s|
  {
    if s != [] {
      var n := |s| - 1;
      DistinctCount(s[..n]);
      assert s[n] !in s[..n];
      assert s == s[..n] + [s[n]];
      assert Elements(s) == Elements(s[..n]) + {s[n]};
    } else {
      assert Elements(s) == {};
    }
  }

  /** Every mask has weight 64, whatever the address and the generator stream. */
  lemma MaskWeight(word: nat)
    ensures |SetBits(MaskOf(word))| == MASK_WEIGHT
  {
    ChosenDistinct(word);
    DistinctCount(Chosen(word));
    SetBitsAreChosen(word);
  }

  lemma SetBitsAreChosen(word: nat)
    ensures SetBits(MaskOf(word)) == Elements(Chosen(word))
  {
    hide BitAt, Chosen;
    var m, s := MaskOf(word), Chosen(word);
    assert forall i :: 0 <= i < |s| ==> s[i] < MASK_BITS by {
      ChosenDistinct(word);
    }
    assert forall j :: j in s ==> j < MASK_BITS;
    assert forall j: nat :: j in SetBits(m) <==> j < MASK_BITS && BitAt(m, j);
  }

  /** The mask cache; `seedOf` stands for the keyed hash of the address string. */
  class MaskCache {
    const seedOf: string -> int
    var cache: map<string, seq<Byte>>

    /** Memoisation is invisible: whatever is remembered is what would be computed again. */
    ghost predicate Valid()
      reads this
    {
      forall key :: key in cache ==> cache[key] == MaskOf(seedOf(key) % WORD)
    }

    constructor (hash: string -> int)
      ensures Valid() && seedOf == hash && cache == map[]
    {
      seedOf := hash;
      cache := map[];
    }

    method GenerateMask(key: string) returns (mask: seq<Byte>)
      requires Valid()
      modifies this
      ensures Valid()
      ensures mask == MaskOf(seedOf(key) % WORD)
      ensures cache == old(cache)[key := mask]
    {
      hide MaskOf;
      if key in cache {
        assert cache == cache[key := cache[key]];
        return cache[key];
      }
      mask := FreshMask(seedOf(key));
      cache := cache[key := mask];
    }
  }

  method FreshMask(seed: int) returns (mask: seq<Byte>)
    ensures mask == MaskOf(seed % WORD)
  {
    var word := seed % WORD;
    var rng := new SimpleRNG(seed);
    var indices := ShuffledPositions(rng);
    ChosenDistinct(word);
    assert indices[..MASK_WEIGHT] == Chosen(word);
    mask := OrPositions(indices[..MASK_WEIGHT]);
    SameBitRow(mask, MaskOf(word));
  }

  method ShuffledPositions(rng: SimpleRNG) returns (p: seq<nat>)
    modifies rng
    ensures p == Positions(old(rng.state))
  {
    var indices := new nat[MASK_BITS](i => i);
    ghost var js := ShuffleDraws(rng.state, MASK_BITS);
    assert indices[..] == Identity(MASK_BITS);
    assert Unsettled(indices[..], js, MASK_BITS) == Positions(rng.state) by {
      assert indices[..][..MASK_BITS] == Identity(MASK_BITS) && js[..MASK_BITS] == js;
    }
    var i := MASK_BITS - 1;
    while i > 0
      invariant 0 <= i < MASK_BITS
      invariant fresh(indices)
      invariant js[..i + 1] == ShuffleDraws(rng.state, i + 1)
      invariant Unsettled(indices[..], js, i + 1) == Positions(old(rng.state))
    {
      ghost var draws := ShuffleDraws(rng.state, i + 1);
      var j := rng.Intn(i + 1);
      assert draws[i] == j && draws[..i] == ShuffleDraws(rng.state, i);
      assert js[..i + 1][..i] == js[..i];
      UnsettledTurn(indices[..], js, i);
      indices[i], indices[j] := indices[j], indices[i];
      i := i - 1;
    }
    UnsettledDone(indices[..], js, 1);
    p := indices[..];
  }

  /** `mask[idx/8] |= 1 << (idx%8)` for each listed position. */
  method OrPositions(positions: seq<nat>) returns (mask: seq<Byte>)
    requires forall i :: 0 <= i < |positions| ==> positions[i] < MASK_BITS
    ensures |mask| == MASK_BYTES
    ensures forall j :: 0 <= j < MASK_BITS ==> (BitAt(mask, j) <==> j in positions)
  {
    mask := FromBits(MASK_BYTES, (j: nat) => false);
    for i := 0 to |positions|
      invariant |mask| == MASK_BYTES
      invariant forall j :: 0 <= j < MASK_BITS ==> (BitAt(mask, j) <==> j in positions[..i])
    {
      var p := positions[i];
      ghost var before := mask;
      mask := mask[p / 8 := OrBit(mask[p / 8], p % 8)];
      forall j | 0 <= j < MASK_BITS ensures BitAt(mask, j) <==> j in positions[..i + 1] {
        OrBitAt(before, p, j);
        assert positions[..i + 1] == positions[..i] + [p];
      }
    }
    assert positions[..|positions|] == positions;
  }
}
