/** The self-seeded connection-ID encoding: 16 seed bits, then 56 payload bits hidden in 112. */
module CidCodec {
  import opened Bytes
  import opened FisherYates
  import SimpleRng

  const SEED_BYTES := 2
  const PAYLOAD_BITS := 56
  const PAYLOAD_BYTES := 7
  const ENCODED_BITS := 112
  const ENCODED_BYTES := 14
  const OUTPUT_BYTES := 16
  const SEEDS: nat := 65536

  type Seed = s: nat | s < SEEDS

  /**
   * What the shared secret fixes for each seed: the draws math/rand makes for its shuffle, and the
   * word seed ^ hash(secret) the noise starts from. Nothing is assumed of either beyond their range.
   */
  datatype Secret = Secret(draws: seq<seq<nat>>, states: seq<nat>)

  ghost predicate ValidSecret(k: Secret) {
    && |k.draws| == SEEDS && |k.states| == SEEDS
    && forall s :: 0 <= s < SEEDS ==> Draws(k.draws[s], ENCODED_BITS)
  }

  // ----- index tables -----

  /** Row s of the index table: the shuffled positions, narrowed to bytes. */
  function Row(k: Secret, s: Seed): (row: seq<Byte>)
    requires ValidSecret(k)
    ensures |row| == ENCODED_BITS
  {
    Narrow(Shuffle(Identity(ENCODED_BITS), k.draws[s]))
  }

  function Narrow(p: seq<nat>): (row: seq<Byte>)
    ensures |row| == |p|
  {
    seq(|p|, i requires 0 <= i < |p| => p[i] % 256)
  }

  /** Every row is a permutation of 0..111; narrowing to bytes loses nothing. */
  lemma RowIsPermutation(k: Secret, s: Seed)
    requires ValidSecret(k)
    ensures Permutation(Row(k, s), ENCODED_BITS)
    ensures Row(k, s) == Shuffle(Identity(ENCODED_BITS), k.draws[s])
  {
    var p := Shuffle(Identity(ENCODED_BITS), k.draws[s]);
    ShuffleIsPermutation(ENCODED_BITS, k.draws[s]);
    assert forall i :: 0 <= i < ENCODED_BITS ==> p[i] % 256 == p[i];
    assert Row(k, s) == p;
  }

  method PrecomputeIndices(k: Secret) returns (table: seq<seq<Byte>>)
    requires ValidSecret(k)
    ensures |table| == SEEDS
    ensures forall s :: 0 <= s < SEEDS ==> table[s] == Row(k, s)
  {
    table := [];
    for s := 0 to SEEDS
      invariant |table| == s
      invariant forall t :: 0 <= t < s ==> table[t] == Row(k, t)
    {
      var idx := new nat[ENCODED_BITS](i => i);
      assert idx[..] == Identity(ENCODED_BITS);
      ShuffleInPlace(idx, k.draws[s]);
      var row: seq<Byte> := [];
      for i := 0 to ENCODED_BITS
        invariant |row| == i
        invariant forall j :: 0 <= j < i ==> row[j] == idx[j] % 256
      {
        row := row + [idx[i] % 256];
      }
      assert row == Row(k, s);
      table := table + [row];
    }
  }

  // ----- noise -----

  /** Noise byte i from a start word: byte i % 8 of generator state 1 + i / 8. */
  function NoiseByte(word: nat, i: nat): Byte {
    SimpleRng.Steps(1 + i / 8, word) / Pow256(i % 8) % 256
  }

  function Noise(k: Secret, s: Seed): (noise: seq<Byte>)
    requires ValidSecret(k)
    ensures |noise| == PAYLOAD_BYTES
  {
    seq(PAYLOAD_BYTES, i requires 0 <= i < PAYLOAD_BYTES => NoiseByte(k.states[s], i))
  }

  method MakeNoise(word: nat, n: nat) returns (noise: seq<Byte>)
    ensures |noise| == n && forall i :: 0 <= i < n ==> noise[i] == NoiseByte(word, i)
  {
    hide Pow256, SimpleRng.Step;
    var state := SimpleRng.Step(word);
    noise := [];
    assert SimpleRng.Steps(1, word) == state;
    for i := 0 to n
      invariant |noise| == i
      invariant state == SimpleRng.Steps(1 + i / 8, word)
      invariant forall j :: 0 <= j < i ==> noise[j] == NoiseByte(word, j)
    {
      noise := noise + [state / Pow256(i % 8) % 256];
      if i % 8 == 7 {
        SimpleRng.StepsSplit(1 + i / 8, 1, word);
        state := SimpleRng.Step(state);
        assert (i + 1) / 8 == i / 8 + 1;
      } else {
        assert (i + 1) / 8 == i / 8;
      }
    }
  }

  /** The noise is the low 56 bits of the generator's first state after the start word. */
  lemma NoiseIsOneStep(k: Secret, s: Seed)
    requires ValidSecret(k)
    ensures LittleEndian(Noise(k, s))
            == (k.states[s] * 6364136223846793005 + 1442695040888963407) % 0x1_0000_0000_0000_0000 % Pow2(56)
  {
    var noise, state := Noise(k, s), SimpleRng.Steps(1, k.states[s]);
    SimpleRng.StepsInNumbers(k.states[s]);
    hide SimpleRng.Steps, Pow256, Pow2, LittleEndian;
    forall i | 0 <= i < PAYLOAD_BYTES ensures noise[i] == state / Pow256(i) % 256 {
      assert noise[i] == NoiseByte(k.states[s], i);
    }
    LittleEndianOf(state, noise);
    BytesOfBits(7);
  }

  lemma {:induction false} BytesOfBits(n: nat)
    ensures Pow256(n) == Pow2(8 * n)
  {
    if n > 0 {
      BytesOfBits(n - 1);
      Pow2Of8();
      SimpleRng.Pow2Sum(8, 8 * (n - 1));
    }
  }

  // ----- the encoding of one payload -----

  /** Bit j of the cipher text: a noise bit, or a payload bit masked by its noise bit. */
  ghost predicate CipherBit(payload: seq<Byte>, noise: seq<Byte>, p: seq<Byte>, j: nat)
    requires |payload| == |noise| == PAYLOAD_BYTES && Permutation(p, ENCODED_BITS) && j < ENCODED_BITS
  {
    var q := Where(p, ENCODED_BITS, j);
    if q < PAYLOAD_BITS then BitAt(noise, q) != BitAt(payload, q) else BitAt(noise, q - PAYLOAD_BITS)
  }

  ghost function Encode(payload: seq<Byte>, noise: seq<Byte>, p: seq<Byte>): (c: seq<Byte>)
    requires |payload| == |noise| == PAYLOAD_BYTES && Permutation(p, ENCODED_BITS)
    ensures |c| == ENCODED_BYTES
    ensures forall j :: 0 <= j < ENCODED_BITS ==> BitAt(c, j) == CipherBit(payload, noise, p, j)
  {
    FromBits(ENCODED_BYTES, (j: nat) => j < ENCODED_BITS && CipherBit(payload, noise, p, j))
  }

  predicate InRange(p: seq<Byte>) {
    |p| == ENCODED_BITS && forall i :: 0 <= i < ENCODED_BITS ==> p[i] < ENCODED_BITS
  }

  /** Bit i of the payload hidden in a cipher text: real bit xor noise bit. */
  predicate PlainBit(c: seq<Byte>, p: seq<Byte>, i: nat)
    requires |c| == ENCODED_BYTES && InRange(p) && i < PAYLOAD_BITS
  {
    BitAt(c, p[i]) != BitAt(c, p[i + PAYLOAD_BITS])
  }

  /** The payload hidden in a cipher text. */
  function Decode(c: seq<Byte>, p: seq<Byte>): (payload: seq<Byte>)
    requires |c| == ENCODED_BYTES && InRange(p)
    ensures |payload| == PAYLOAD_BYTES
    ensures forall i :: 0 <= i < PAYLOAD_BITS ==> BitAt(payload, i) == PlainBit(c, p, i)
  {
    FromBits(PAYLOAD_BYTES, (i: nat) => i < PAYLOAD_BITS && PlainBit(c, p, i))
  }

  /** The noise a cipher text carries. */
  function NoiseIn(c: seq<Byte>, p: seq<Byte>): (noise: seq<Byte>)
    requires |c| == ENCODED_BYTES && InRange(p)
    ensures |noise| == PAYLOAD_BYTES
    ensures forall i :: 0 <= i < PAYLOAD_BITS ==> BitAt(noise, i) == BitAt(c, p[i + PAYLOAD_BITS])
  {
    FromBits(PAYLOAD_BYTES, (i: nat) => i < PAYLOAD_BITS && BitAt(c, p[i + PAYLOAD_BITS]))
  }

  lemma WhereAt(p: seq<Byte>, i: nat)
    requires Permutation(p, ENCODED_BITS) && i < ENCODED_BITS
    ensures Where(p, ENCODED_BITS, p[i]) == i
  {
  }

  /** Encoding is one-to-one: payload and noise are both recovered, for every noise and every permutation. */
  lemma DecodeEncode(payload: seq<Byte>, noise: seq<Byte>, p: seq<Byte>)
    requires |payload| == |noise| == PAYLOAD_BYTES && Permutation(p, ENCODED_BITS)
    ensures Decode(Encode(payload, noise, p), p) == payload
    ensures NoiseIn(Encode(payload, noise, p), p) == noise
  {
    var c := Encode(payload, noise, p);
    forall i | 0 <= i < PAYLOAD_BITS
      ensures BitAt(Decode(c, p), i) == BitAt(payload, i) && BitAt(NoiseIn(c, p), i) == BitAt(noise, i)
    {
      WhereAt(p, i);
      WhereAt(p, i + PAYLOAD_BITS);
    }
    SameBitRow(Decode(c, p), payload);
    SameBitRow(NoiseIn(c, p), noise);
  }

  /** ... and onto: every 14-byte cipher text is the encoding of exactly the payload and noise it carries. */
  lemma EncodeDecode(c: seq<Byte>, p: seq<Byte>)
    requires |c| == ENCODED_BYTES && Permutation(p, ENCODED_BITS)
    ensures Encode(Decode(c, p), NoiseIn(c, p), p) == c
  {
    var payload, noise := Decode(c, p), NoiseIn(c, p);
    var c' := Encode(payload, noise, p);
    forall j | 0 <= j < ENCODED_BITS ensures BitAt(c', j) == BitAt(c, j) {
      CipherBitOfDecoded(c, p, j);
    }
    SameBitRow(c', c);
  }

  lemma CipherBitOfDecoded(c: seq<Byte>, p: seq<Byte>, j: nat)
    requires |c| == ENCODED_BYTES && Permutation(p, ENCODED_BITS) && j < ENCODED_BITS
    ensures CipherBit(Decode(c, p), NoiseIn(c, p), p, j) == BitAt(c, j)
  {
    hide BitAt;
    var q := Where(p, ENCODED_BITS, j);
    var i := if q < PAYLOAD_BITS then q else q - PAYLOAD_BITS;
    assert BitAt(NoiseIn(c, p), i) == BitAt(c, p[i + PAYLOAD_BITS]);
    assert BitAt(Decode(c, p), i) == PlainBit(c, p, i);
  }

  /** The 112 bits of a cipher text, each by its one writer. */
  lemma EncodedBits(payload: seq<Byte>, noise: seq<Byte>, p: seq<Byte>, i: nat)
    requires |payload| == |noise| == 7 && Permutation(p, 112) && i < 56
    ensures BitAt(Encode(payload, noise, p), p[i + 56]) == BitAt(noise, i)
    ensures BitAt(Encode(payload, noise, p), p[i]) == (BitAt(noise, i) != BitAt(payload, i))
  {
    hide BitAt;
    WhereAt(p, i);
    WhereAt(p, i + 56);
  }

  // ----- whole connection IDs -----

  function Zeros(n: nat): (s: seq<Byte>)
    ensures |s| == n
  {
    seq(n, i => 0)
  }

  /** What the wire carries for a connection ID under a seed. */
  ghost function Scrambled(k: Secret, cid: seq<Byte>, s: Seed): (wire: seq<Byte>)
    requires ValidSecret(k) && |cid| == OUTPUT_BYTES
    ensures |wire| == OUTPUT_BYTES
  {
    RowIsPermutation(k, s);
    BigEndian(s, SEED_BYTES) + Encode(cid[..PAYLOAD_BYTES], Noise(k, s), Row(k, s))
  }

  function SeedOf(wire: seq<Byte>): Seed
    requires |wire| >= 2
  {
    assert FromBigEndian(wire[..2]) == 256 * FromBigEndian(wire[..2][..1]) + wire[1];
    assert FromBigEndian(wire[..2][..1]) == wire[0];
    FromBigEndian(wire[..2])
  }

  /** What a receiver makes of any 16 bytes: 7 payload bytes, then zeros. */
  function Unscrambled(k: Secret, wire: seq<Byte>): (cid: seq<Byte>)
    requires ValidSecret(k) && |wire| == OUTPUT_BYTES
    ensures |cid| == OUTPUT_BYTES
  {
    var row := Row(k, SeedOf(wire));
    RowIsPermutation(k, SeedOf(wire));
    Decode(wire[SEED_BYTES..], row) + Zeros(OUTPUT_BYTES - PAYLOAD_BYTES)
  }

  /** The row of a seed is the shuffle of 0..111 by the draws made for it. */
  function RowOf(k: Secret, s: Seed): (row: seq<nat>)
    requires ValidSecret(k)
    ensures |row| == 112
  {
    Shuffle(Identity(112), k.draws[s])
  }

  /**
   * All 128 bits of what the wire carries: the seed, high byte first; then at the second half of the row's positions
   * the noise of `NoiseIsOneStep`, and at the first half the noise with the ID's first 56 bits added in.
   */
  lemma ScrambledMeans(k: Secret, cid: seq<Byte>, s: Seed, i: nat)
    requires ValidSecret(k) && |cid| == 16 && i < 56
    ensures var w, row := Scrambled(k, cid, s), RowOf(k, s);
      && w[0] == s / 256 && w[1] == s % 256
      && row[i] < 112 && row[i + 56] < 112
      && BitAt(w[2..], row[i + 56]) == BitAt(Noise(k, s), i)
      && BitAt(w[2..], row[i]) == (BitAt(Noise(k, s), i) != BitAt(cid[..7], i))
  {
    hide BitAt, Shuffle, Noise, Encode;
    RowIsPermutation(k, s);
    var c := Encode(cid[..7], Noise(k, s), Row(k, s));
    assert Scrambled(k, cid, s) == BigEndian(s, 2) + c;
    assert (BigEndian(s, 2) + c)[2..] == c;
    BigEndianAt(s, 2, 0);
    BigEndianAt(s, 2, 1);
    assert Pow256(0) == 1 && Pow256(1) == 256;
    EncodedBits(cid[..7], Noise(k, s), Row(k, s), i);
  }

  /** What a receiver makes of any 16 bytes: bit i is the sum of the two bits its seed's row points to; the rest is zero. */
  lemma UnscrambledMeans(k: Secret, wire: seq<Byte>, i: nat)
    requires ValidSecret(k) && |wire| == 16 && i < 56
    ensures var row := RowOf(k, 256 * (wire[0] as int) + (wire[1] as int)); var cid := Unscrambled(k, wire);
      && row[i] < 112 && row[i + 56] < 112
      && BitAt(cid[..7], i) == (BitAt(wire[2..], row[i]) != BitAt(wire[2..], row[i + 56]))
      && forall j :: 7 <= j < 16 ==> cid[j] == 0
  {
    hide BitAt, Shuffle;
    SeedBytes(wire);
    RowIsPermutation(k, SeedOf(wire));
    var payload := Decode(wire[2..], Row(k, SeedOf(wire)));
    assert Unscrambled(k, wire)[..7] == payload;
    assert BitAt(payload, i) == PlainBit(wire[2..], Row(k, SeedOf(wire)), i);
  }

  lemma SeedBytes(wire: seq<Byte>)
    requires |wire| >= 2
    ensures SeedOf(wire) == 256 * (wire[0] as int) + (wire[1] as int)
  {
    assert FromBigEndian(wire[..2]) == 256 * FromBigEndian(wire[..2][..1]) + wire[1];
    assert FromBigEndian(wire[..2][..1]) == wire[0];
  }

  lemma SeedSurvives(s: Seed, rest: seq<Byte>)
    ensures SeedOf(BigEndian(s, SEED_BYTES) + rest) == s
  {
    assert (BigEndian(s, SEED_BYTES) + rest)[..2] == BigEndian(s, 2);
    assert Pow256(2) == SEEDS;
    BigEndianRoundTrip(s, 2);
  }

  /** The receiver recovers the first 7 bytes of the real ID, whatever seed the sender drew. */
  lemma ScrambleRoundTrip(k: Secret, cid: seq<Byte>, s: Seed)
    requires ValidSecret(k) && |cid| == OUTPUT_BYTES
    ensures Unscrambled(k, Scrambled(k, cid, s)) == cid[..PAYLOAD_BYTES] + Zeros(OUTPUT_BYTES - PAYLOAD_BYTES)
  {
    RowIsPermutation(k, s);
    var c := Encode(cid[..PAYLOAD_BYTES], Noise(k, s), Row(k, s));
    SeedSurvives(s, c);
    assert (BigEndian(s, SEED_BYTES) + c)[SEED_BYTES..] == c;
    DecodeEncode(cid[..PAYLOAD_BYTES], Noise(k, s), Row(k, s));
  }

  // ----- the in-place routines -----

  /** One turn of the encoding loop: the two conditional bit writes for payload bit i. */
  function EncodeTurn(out: seq<Byte>, payload: seq<Byte>, noise: seq<Byte>, p: seq<Byte>, i: nat): (out': seq<Byte>)
    requires |out| == ENCODED_BYTES && |payload| == |noise| == PAYLOAD_BYTES && i < PAYLOAD_BITS
    requires InRange(p)
    ensures |out'| == ENCODED_BYTES
  {
    var m, r := BitAt(payload, i), BitAt(noise, i);
    var realPos, noisePos := p[i], p[i + PAYLOAD_BITS];
    var mid := if r then out[noisePos / 8 := OrBit(out[noisePos / 8], noisePos % 8)] else out;
    if r != m then mid[realPos / 8 := OrBit(mid[realPos / 8], realPos % 8)] else mid
  }

  /** After i turns exactly the bits of payload bits 0..i-1 are in place. */
  ghost predicate EncodedUpTo(out: seq<Byte>, payload: seq<Byte>, noise: seq<Byte>, p: seq<Byte>, i: nat)
    requires |payload| == |noise| == PAYLOAD_BYTES && Permutation(p, ENCODED_BITS)
  {
    && |out| == ENCODED_BYTES
    && forall j :: 0 <= j < ENCODED_BITS ==>
         BitAt(out, j) == (Where(p, ENCODED_BITS, j) % PAYLOAD_BITS < i && CipherBit(payload, noise, p, j))
  }

  lemma EncodeTurnAdvances(out: seq<Byte>, payload: seq<Byte>, noise: seq<Byte>, p: seq<Byte>, i: nat)
    requires |payload| == |noise| == PAYLOAD_BYTES && Permutation(p, ENCODED_BITS) && i < PAYLOAD_BITS
    requires EncodedUpTo(out, payload, noise, p, i)
    ensures EncodedUpTo(EncodeTurn(out, payload, noise, p, i), payload, noise, p, i + 1)
  {
    var out' := EncodeTurn(out, payload, noise, p, i);
    forall j | 0 <= j < ENCODED_BITS
      ensures BitAt(out', j) == (Where(p, ENCODED_BITS, j) % PAYLOAD_BITS < i + 1 && CipherBit(payload, noise, p, j))
    {
      EncodeTurnSettles(out, payload, noise, p, i, j);
    }
  }

  lemma FoldIndex(q: nat)
    requires q < ENCODED_BITS
    ensures q % PAYLOAD_BITS == if q < PAYLOAD_BITS then q else q - PAYLOAD_BITS
  {
  }

  lemma EncodeTurnSettles(out: seq<Byte>, payload: seq<Byte>, noise: seq<Byte>, p: seq<Byte>, i: nat, j: nat)
    requires |out| == ENCODED_BYTES && |payload| == |noise| == PAYLOAD_BYTES && Permutation(p, ENCODED_BITS)
    requires i < PAYLOAD_BITS && j < ENCODED_BITS
    requires BitAt(out, j) == (Where(p, ENCODED_BITS, j) % PAYLOAD_BITS < i && CipherBit(payload, noise, p, j))
    ensures InRange(p)
    ensures BitAt(EncodeTurn(out, payload, noise, p, i), j)
            == (Where(p, ENCODED_BITS, j) % PAYLOAD_BITS < i + 1 && CipherBit(payload, noise, p, j))
  {
    assert InRange(p);
    hide Permutation, BitAt, EncodeTurn;
    EncodeTurnBit(out, payload, noise, p, i, j);
    WhereAt(p, i);
    WhereAt(p, i + PAYLOAD_BITS);
    var q := Where(p, ENCODED_BITS, j);
    FoldIndex(q);
    assert j == p[i] <==> q == i;
    assert j == p[i + PAYLOAD_BITS] <==> q == i + PAYLOAD_BITS;
  }

  /** The two writes of a turn reach bit j only when it is one of their two positions. */
  lemma EncodeTurnBit(out: seq<Byte>, payload: seq<Byte>, noise: seq<Byte>, p: seq<Byte>, i: nat, j: nat)
    requires |out| == ENCODED_BYTES && |payload| == |noise| == PAYLOAD_BYTES && i < PAYLOAD_BITS && j < ENCODED_BITS
    requires InRange(p)
    ensures BitAt(EncodeTurn(out, payload, noise, p, i), j) <==>
            || BitAt(out, j)
            || (BitAt(noise, i) && j == p[i + PAYLOAD_BITS])
            || (BitAt(noise, i) != BitAt(payload, i) && j == p[i])
  {
    hide BitAt, OrBit;
    var noisePos := p[i + PAYLOAD_BITS];
    var mid := if BitAt(noise, i) then out[noisePos / 8 := OrBit(out[noisePos / 8], noisePos % 8)] else out;
    OrBitAt(out, noisePos, j);
    OrBitAt(mid, p[i], j);
  }

  /** One turn of the decoding loop. */
  function DecodeTurn(out: seq<Byte>, c: seq<Byte>, p: seq<Byte>, i: nat): seq<Byte>
    requires |out| == PAYLOAD_BYTES && |c| == ENCODED_BYTES && i < PAYLOAD_BITS
    requires InRange(p)
  {
    if BitAt(c, p[i]) != BitAt(c, p[i + PAYLOAD_BITS]) then out[i / 8 := OrBit(out[i / 8], i % 8)] else out
  }

  ghost predicate DecodedUpTo(out: seq<Byte>, c: seq<Byte>, p: seq<Byte>, i: nat)
    requires |c| == ENCODED_BYTES
    requires InRange(p)
  {
    && |out| == PAYLOAD_BYTES
    && forall j :: 0 <= j < PAYLOAD_BITS ==> BitAt(out, j) == (j < i && BitAt(Decode(c, p), j))
  }

  lemma DecodeTurnAdvances(out: seq<Byte>, c: seq<Byte>, p: seq<Byte>, i: nat)
    requires |c| == ENCODED_BYTES && i < PAYLOAD_BITS
    requires InRange(p)
    requires DecodedUpTo(out, c, p, i)
    ensures DecodedUpTo(DecodeTurn(out, c, p, i), c, p, i + 1)
  {
    var out' := DecodeTurn(out, c, p, i);
    forall j | 0 <= j < PAYLOAD_BITS ensures BitAt(out', j) == (j < i + 1 && BitAt(Decode(c, p), j)) {
      OrBitAt(out, i, j);
      assert BitAt(Decode(c, p), i) == PlainBit(c, p, i);
    }
  }

  /** The encoding loop: scatter noise and masked payload bits over a cleared buffer. */
  method EncodeBits(payload: seq<Byte>, noise: seq<Byte>, indices: seq<Byte>) returns (cipher: seq<Byte>)
    requires |payload| == |noise| == PAYLOAD_BYTES && Permutation(indices, ENCODED_BITS)
    ensures cipher == Encode(payload, noise, indices)
  {
    var output := new Byte[ENCODED_BYTES](i => 0);
    AllClear(output[..], payload, noise, indices);
    for i := 0 to PAYLOAD_BITS
      invariant EncodedUpTo(output[..], payload, noise, indices, i)
    {
      ghost var before := output[..];
      var m, r := BitAt(payload, i), BitAt(noise, i);
      var realPos, noisePos := indices[i], indices[i + PAYLOAD_BITS];
      if r {
        output[noisePos / 8] := OrBit(output[noisePos / 8], noisePos % 8);
      }
      if r != m {
        output[realPos / 8] := OrBit(output[realPos / 8], realPos % 8);
      }
      assert output[..] == EncodeTurn(before, payload, noise, indices, i);
      EncodeTurnAdvances(before, payload, noise, indices, i);
    }
    cipher := output[..];
    SameBitRow(cipher, Encode(payload, noise, indices));
  }

  /** Seed first, then the cipher text. */
  method WriteSeedAndCipher(data: array<Byte>, seedBytes: seq<Byte>, cipher: seq<Byte>)
    requires data.Length == OUTPUT_BYTES && |seedBytes| == SEED_BYTES && |cipher| == ENCODED_BYTES
    modifies data
    ensures data[..] == seedBytes + cipher
  {
    for i := 0 to OUTPUT_BYTES
      invariant forall j :: 0 <= j < i ==> data[j] == (seedBytes + cipher)[j]
    {
      data[i] := if i < SEED_BYTES then seedBytes[i] else cipher[i - SEED_BYTES];
    }
  }

  /** The decoding loop. */
  method DecodeBits(cipher: seq<Byte>, indices: seq<Byte>) returns (payload: seq<Byte>)
    requires |cipher| == ENCODED_BYTES && InRange(indices)
    ensures payload == Decode(cipher, indices)
  {
    var recovered := new Byte[PAYLOAD_BYTES](i => 0);
    assert DecodedUpTo(recovered[..], cipher, indices, 0) by {
      forall j | 0 <= j < PAYLOAD_BITS ensures !BitAt(recovered[..], j) {
        NoBits(j % 8);
      }
    }
    for i := 0 to PAYLOAD_BITS
      invariant DecodedUpTo(recovered[..], cipher, indices, i)
    {
      ghost var before := recovered[..];
      DecodeTurnAdvances(before, cipher, indices, i);
      if BitAt(cipher, indices[i]) != BitAt(cipher, indices[i + PAYLOAD_BITS]) {
        recovered[i / 8] := OrBit(recovered[i / 8], i % 8);
      }
      assert recovered[..] == DecodeTurn(before, cipher, indices, i);
    }
    payload := recovered[..];
    SameBitRow(payload, Decode(cipher, indices));
  }

  /** Clear the buffer, then put the recovered bytes in front. */
  method WriteBack(data: array<Byte>, recovered: seq<Byte>)
    requires data.Length == OUTPUT_BYTES && |recovered| == PAYLOAD_BYTES
    modifies data
    ensures data[..] == recovered + Zeros(OUTPUT_BYTES - PAYLOAD_BYTES)
  {
    for i := 0 to OUTPUT_BYTES
      invariant forall j :: 0 <= j < i ==> data[j] == 0
    {
      data[i] := 0;
    }
    for i := 0 to PAYLOAD_BYTES
      invariant forall j :: 0 <= j < OUTPUT_BYTES ==> data[j] == if j < i then recovered[j] else 0
    {
      data[i] := recovered[i];
    }
  }

  /** The index tables, computed once from the secret. */
  class Codec {
    const secret: Secret
    const table: seq<seq<Byte>>

    ghost predicate Valid() {
      && ValidSecret(secret)
      && |table| == SEEDS
      && forall s :: 0 <= s < SEEDS ==> table[s] == Row(secret, s)
    }

    constructor (k: Secret)
      requires ValidSecret(k)
      ensures Valid() && secret == k
    {
      secret := k;
      var t := PrecomputeIndices(k);
      table := t;
    }

    method Obfuscate(data: array<Byte>, seed: Seed)
      requires Valid() && data.Length == OUTPUT_BYTES
      modifies data
      ensures data[..] == Scrambled(secret, old(data[..]), seed)
    {
      hide Encode, Row;
      var payload := data[..PAYLOAD_BYTES];
      var noise := MakeNoise(secret.states[seed], PAYLOAD_BYTES);
      assert noise == Noise(secret, seed);
      var indices := table[seed];
      RowIsPermutation(secret, seed);
      var output := EncodeBits(payload, noise, indices);
      WriteSeedAndCipher(data, BigEndian(seed, SEED_BYTES), output);
    }

    method Deobfuscate(data: array<Byte>)
      requires Valid() && data.Length == OUTPUT_BYTES
      modifies data
      ensures data[..] == Unscrambled(secret, old(data[..]))
    {
      var wire := data[..];
      var seed := SeedOf(wire);
      var indices := table[seed];
      RowIsPermutation(secret, seed);
      var recovered := DecodeBits(wire[SEED_BYTES..], indices);
      WriteBack(data, recovered);
    }
  }

  lemma {:induction false} NoBits(k: nat)
    ensures !Bit(0, k)
  {
    if k > 0 {
      NoBits(k - 1);
    }
  }

  lemma AllClear(out: seq<Byte>, payload: seq<Byte>, noise: seq<Byte>, p: seq<Byte>)
    requires |payload| == |noise| == PAYLOAD_BYTES && Permutation(p, ENCODED_BITS)
    requires |out| == ENCODED_BYTES && forall i :: 0 <= i < |out| ==> out[i] == 0
    ensures EncodedUpTo(out, payload, noise, p, 0)
  {
    forall j | 0 <= j < ENCODED_BITS ensures !BitAt(out, j) {
      NoBits(j % 8);
    }
  }
}
