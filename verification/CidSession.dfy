/** Caches of known connection IDs, and the server's table of one cache per source address. */
module CidSession {
  import opened Bytes
  import opened FisherYates
  import opened CidCodec
  import opened Wrappers

  type Cid = seq<Byte>

  // ----- the prefix hash -----

  /** `hashPrefix56` of the first 7 bytes; 0 when there are fewer. */
  function PrefixHash(b: Cid): nat {
    if |b| < PAYLOAD_BYTES then 0 else LittleEndian(b[..PAYLOAD_BYTES])
  }

  /** `BytesEqual` on the first 7 bytes of both. */
  predicate Matches(a: Cid, b: Cid) {
    |a| >= PAYLOAD_BYTES && |b| >= PAYLOAD_BYTES && a[..PAYLOAD_BYTES] == b[..PAYLOAD_BYTES]
  }

  predicate ZeroPrefix(b: Cid) {
    |b| < PAYLOAD_BYTES || b[..PAYLOAD_BYTES] == Zeros(PAYLOAD_BYTES)
  }

  lemma {:induction false} LittleEndianBound(s: seq<Byte>)
    ensures LittleEndian(s) < Pow256(|s|)
    ensures LittleEndian(s) == 0 <==> forall i :: 0 <= i < |s| ==> s[i] == 0
  {
    if s != [] {
      LittleEndianBound(s[1..]);
      assert forall i :: 1 <= i < |s| ==> s[i] == s[1..][i - 1];
    }
  }

  /** The hash fits 56 bits, is 0 only for an all-zero prefix, and otherwise decides prefix equality. */
  lemma PrefixHashFaithful(a: Cid, b: Cid)
    ensures PrefixHash(a) < Pow2(56)
    ensures PrefixHash(a) == 0 <==> ZeroPrefix(a)
    ensures PrefixHash(a) == PrefixHash(b) && PrefixHash(a) != 0 <==> Matches(a, b) && !ZeroPrefix(a)
  {
    HashRange(a);
    HashRange(b);
    if |a| >= PAYLOAD_BYTES && |b| >= PAYLOAD_BYTES && PrefixHash(a) == PrefixHash(b) {
      LittleEndianInjective(a[..PAYLOAD_BYTES], b[..PAYLOAD_BYTES]);
    }
  }

  /** The hash reads the first 7 bytes lowest first. */
  lemma PrefixHashValue(b: Cid)
    requires |b| >= 7
    ensures PrefixHash(b) == b[0] as int + 0x100 * b[1] as int + 0x1_0000 * b[2] as int + 0x100_0000 * b[3] as int
                             + 0x1_0000_0000 * b[4] as int + 0x100_0000_0000 * b[5] as int + 0x1_0000_0000_0000 * b[6] as int
  {
    var s := b[..7];
    assert s == s[0..];
    LittleEndianFrom(s, 0);
    LittleEndianFrom(s, 1);
    LittleEndianFrom(s, 2);
    LittleEndianFrom(s, 3);
    LittleEndianFrom(s, 4);
    LittleEndianFrom(s, 5);
    LittleEndianFrom(s, 6);
  }

  lemma LittleEndianFrom(s: seq<Byte>, i: nat)
    requires i < |s|
    ensures LittleEndian(s[i..]) == s[i] as int + 256 * LittleEndian(s[i + 1..])
    ensures LittleEndian(s[|s|..]) == 0
  {
    assert s[i..][1..] == s[i + 1..];
  }

  lemma HashRange(a: Cid)
    ensures PrefixHash(a) < Pow2(56)
    ensures PrefixHash(a) == 0 <==> ZeroPrefix(a)
  {
    assert Pow256(7) == 0x100_0000_0000_0000;
    Pow2Of8();
    assert Pow2(16) == 65536;
    assert Pow2(24) == 0x100_0000;
    assert Pow2(32) == 0x1_0000_0000;
    assert Pow2(40) == 0x100_0000_0000;
    assert Pow2(48) == 0x1_0000_0000_0000;
    assert Pow2(56) == 0x100_0000_0000_0000;
    if |a| >= PAYLOAD_BYTES {
      LittleEndianBound(a[..PAYLOAD_BYTES]);
    }
  }

  // ----- the cache as a plain list, oldest ID first -----

  function Learn(log: seq<Cid>, cid: Cid): seq<Cid> {
    if cid in log then log else log + [cid]
  }

  function LatestWith(log: seq<Cid>, hash: nat): (r: Option<Cid>)
    ensures r.Some? ==> r.value in log && PrefixHash(r.value) == hash != 0
  {
    if log == [] then None
    else
      var last := log[|log| - 1];
      if PrefixHash(last) == hash && hash != 0 then Some(last) else LatestWith(log[..|log| - 1], hash)
  }

  function Lookup(log: seq<Cid>, decoded: Cid): Option<Cid> {
    if |decoded| < PAYLOAD_BYTES then None else LatestWith(log, PrefixHash(decoded))
  }

  lemma {:induction false} LatestNone(log: seq<Cid>, hash: nat)
    ensures LatestWith(log, hash).None? <==> hash == 0 || forall i :: 0 <= i < |log| ==> PrefixHash(log[i]) != hash
    decreases |log|
  {
    if log != [] {
      LatestNone(log[..|log| - 1], hash);
    }
  }

  lemma {:induction false} LatestIndex(log: seq<Cid>, hash: nat) returns (i: nat)
    requires LatestWith(log, hash).Some?
    ensures i < |log| && log[i] == LatestWith(log, hash).value
    ensures forall j :: i < j < |log| ==> PrefixHash(log[j]) != hash
    decreases |log|
  {
    i := |log| - 1;
    if PrefixHash(log[i]) != hash {
      ghost var init := log[..i];
      i := LatestIndex(init, hash);
      assert forall j :: i < j < |init| ==> log[j] == init[j];
    }
  }

  lemma LatestAfter(log: seq<Cid>, cid: Cid)
    ensures forall hash :: LatestWith(log + [cid], hash)
                           == if PrefixHash(cid) == hash != 0 then Some(cid) else LatestWith(log, hash)
  {
    assert (log + [cid])[..|log|] == log;
  }

  /** A lookup finds the most recently learnt ID with the query's first 7 bytes, unless these are zero. */
  lemma LookupFindsLatest(log: seq<Cid>, decoded: Cid)
    ensures Lookup(log, decoded).None? <==>
            ZeroPrefix(decoded) || forall i :: 0 <= i < |log| ==> !Matches(decoded, log[i])
    ensures Lookup(log, decoded).Some? ==>
            exists i :: 0 <= i < |log| && log[i] == Lookup(log, decoded).value && Matches(decoded, log[i])
                        && forall j :: i < j < |log| ==> !Matches(decoded, log[j])
  {
    var hash := PrefixHash(decoded);
    PrefixHashFaithful(decoded, decoded);
    forall i | 0 <= i < |log| ensures PrefixHash(log[i]) == hash != 0 <==> Matches(decoded, log[i]) && !ZeroPrefix(decoded) {
      PrefixHashFaithful(decoded, log[i]);
    }
    LatestNone(log, hash);
    if Lookup(log, decoded).Some? {
      var i := LatestIndex(log, hash);
      assert log[i] == Lookup(log, decoded).value && Matches(decoded, log[i]);
    }
  }

  /** The list after a sequence of additions, known IDs among them. */
  function LearnAll(adds: seq<Cid>): seq<Cid> {
    if adds == [] then [] else Learn(LearnAll(adds[..|adds| - 1]), adds[|adds| - 1])
  }

  /** When an ID was added first. */
  function FirstAdded(adds: seq<Cid>, c: Cid): (i: nat)
    requires c in adds
    ensures i < |adds| && adds[i] == c && c !in adds[..i]
  {
    var init := adds[..|adds| - 1];
    if c in init then
      var i := FirstAdded(init, c);
      assert init[..i] == adds[..i];
      i
    else |adds| - 1
  }

  /** The list holds what was added, in the order of first additions. */
  lemma {:induction false} LearnAllOrder(adds: seq<Cid>)
    ensures forall c :: c in LearnAll(adds) <==> c in adds
    ensures forall i, j :: 0 <= i < j < |LearnAll(adds)| ==>
              FirstAdded(adds, LearnAll(adds)[i]) < FirstAdded(adds, LearnAll(adds)[j])
    decreases |adds|
  {
    if adds != [] {
      var n := |adds| - 1;
      var init, log := LearnAll(adds[..n]), LearnAll(adds);
      LearnAllOrder(adds[..n]);
      assert adds == adds[..n] + [adds[n]];
      forall c | c in adds[..n] ensures FirstAdded(adds, c) == FirstAdded(adds[..n], c) {
      }
      assert forall c :: c in log <==> c in adds;
      forall i, j | 0 <= i < j < |log| ensures FirstAdded(adds, log[i]) < FirstAdded(adds, log[j]) {
        assert log[i] == init[i] && init[i] in adds[..n];
        if j < |init| {
          assert log[j] == init[j] && init[j] in adds[..n];
        }
      }
    }
  }

  predicate SharesPrefix(a: Cid, b: Cid) {
    |a| >= 7 && |b| >= 7 && a[..7] == b[..7] && a[..7] != [0, 0, 0, 0, 0, 0, 0]
  }

  lemma SharesMeans(a: Cid, b: Cid)
    ensures SharesPrefix(a, b) <==> Matches(a, b) && !ZeroPrefix(a)
  {
    assert Zeros(7) == [0, 0, 0, 0, 0, 0, 0];
  }

  lemma IndexInLog(adds: seq<Cid>, c: Cid) returns (i: nat)
    requires c in adds
    ensures i < |LearnAll(adds)| && LearnAll(adds)[i] == c
  {
    LearnAllOrder(adds);
    i :| 0 <= i < |LearnAll(adds)| && LearnAll(adds)[i] == c;
  }

  lemma FoundWasLast(adds: seq<Cid>, decoded: Cid, d: Cid)
    requires Lookup(LearnAll(adds), decoded).Some?
    ensures var c := Lookup(LearnAll(adds), decoded).value;
      && c in adds && SharesPrefix(decoded, c)
      && (d in adds && SharesPrefix(decoded, d) ==> FirstAdded(adds, d) <= FirstAdded(adds, c))
  {
    var log := LearnAll(adds);
    LearnAllOrder(adds);
    LookupFindsLatest(log, decoded);
    SharesMeans(decoded, d);
    SharesMeans(decoded, Lookup(log, decoded).value);
    hide SharesPrefix, Matches, ZeroPrefix, Lookup, LearnAll, FirstAdded;
    var i :| 0 <= i < |log| && log[i] == Lookup(log, decoded).value && Matches(decoded, log[i])
             && forall j :: i < j < |log| ==> !Matches(decoded, log[j]);
    if d in adds && SharesPrefix(decoded, d) {
      var j := IndexInLog(adds, d);
    }
  }

  lemma NoneShares(adds: seq<Cid>, decoded: Cid, d: Cid)
    requires Lookup(LearnAll(adds), decoded).None? && d in adds
    ensures !SharesPrefix(decoded, d)
  {
    LookupFindsLatest(LearnAll(adds), decoded);
    SharesMeans(decoded, d);
    hide Lookup, LearnAll, Matches, ZeroPrefix, SharesPrefix;
    var j := IndexInLog(adds, d);
  }

  /** After any additions, a lookup yields the ID with the query's first 7 bytes, not all zero, that was first added last. */
  lemma LookupAfterAdds(adds: seq<Cid>, decoded: Cid, c: Cid)
    ensures Lookup(LearnAll(adds), decoded) == Some(c) <==>
            && c in adds && SharesPrefix(decoded, c)
            && forall d :: d in adds && SharesPrefix(decoded, d) ==> FirstAdded(adds, d) <= FirstAdded(adds, c)
  {
    hide SharesPrefix, Lookup, LearnAll, FirstAdded;
    var found := Lookup(LearnAll(adds), decoded);
    forall d | d in adds && SharesPrefix(decoded, d)
      ensures found.Some? && found.value in adds && FirstAdded(adds, d) <= FirstAdded(adds, found.value)
    {
      if found.None? {
        NoneShares(adds, decoded, d);
      } else {
        FoundWasLast(adds, decoded, d);
      }
    }
    if found.Some? {
      FoundWasLast(adds, decoded, c);
    }
  }

  // ----- the cache itself -----

  class CidEntry {
    var realCid: Cid
    const prefixHash: nat

    constructor (cid: Cid, hash: nat)
      ensures realCid == cid && prefixHash == hash
    {
      realCid := cid;
      prefixHash := hash;
    }
  }

  /** The maps hold the same entries: one per ID of the list, and per prefix the latest one. */
  ghost predicate Indexed(entries: map<Cid, CidEntry>, prefixIndex: map<nat, CidEntry>, log: seq<Cid>) {
    && (forall c :: c in entries <==> c in log)
    && (forall hash :: hash in prefixIndex <==> LatestWith(log, hash).Some?)
    && (forall hash :: hash in prefixIndex ==> prefixIndex[hash] == entries[LatestWith(log, hash).value])
  }

  lemma IndexedAfter(entries: map<Cid, CidEntry>, prefixIndex: map<nat, CidEntry>, log: seq<Cid>, cid: Cid, entry: CidEntry)
    requires Indexed(entries, prefixIndex, log) && cid !in log
    ensures Indexed(entries[cid := entry],
                    if PrefixHash(cid) != 0 then prefixIndex[PrefixHash(cid) := entry] else prefixIndex, log + [cid])
  {
    hide PrefixHash;
    LatestAfter(log, cid);
  }

  class CidCache {
    var entries: map<Cid, CidEntry>
    var prefixIndex: map<nat, CidEntry>
    ghost var log: seq<Cid>
    ghost var Repr: set<object>

    /** Both maps hold the same entries, and together they represent the list `log`. */
    ghost predicate Valid()
      reads this, Repr
    {
      && this in Repr && entries.Values <= Repr
      && Distinct(log)
      && Indexed(entries, prefixIndex, log)
      && (forall c :: c in entries ==> entries[c].realCid == c && entries[c].prefixHash == PrefixHash(c))
    }

    constructor ()
      ensures Valid() && log == [] && fresh(Repr)
    {
      entries := map[];
      prefixIndex := map[];
      log := [];
      Repr := {this};
    }

    method AddReal(cid: Cid)
      requires Valid()
      modifies Repr
      ensures Valid() && log == Learn(old(log), cid)
      ensures log == if cid in old(log) then old(log) else old(log) + [cid]
      ensures old(Repr) <= Repr && fresh(Repr - old(Repr))
    {
      if cid in entries {
        entries[cid].realCid := cid;
        return;
      }
      var prefixHash := if |cid| >= PAYLOAD_BYTES then LittleEndian(cid[..PAYLOAD_BYTES]) else 0;
      var entry := new CidEntry(cid, prefixHash);
      IndexedAfter(entries, prefixIndex, log, cid, entry);
      entries := entries[cid := entry];
      Repr := Repr + {entry};
      if prefixHash != 0 {
        prefixIndex := prefixIndex[prefixHash := entry];
      }
      log := log + [cid];
    }

    /** Exact membership. */
    method FindByReal(cid: Cid) returns (found: Option<Cid>)
      requires Valid()
      ensures found == if cid in log then Some(cid) else None
    {
      if cid in entries {
        return Some(entries[cid].realCid);
      }
      return None;
    }

    method FindByDecoded56(decoded: Cid) returns (found: Option<Cid>)
      requires Valid()
      ensures found == Lookup(log, decoded)
    {
      if |decoded| < PAYLOAD_BYTES {
        return None;
      }
      var hash := PrefixHash(decoded);
      if hash in prefixIndex {
        return Some(prefixIndex[hash].realCid);
      }
      return None;
    }
  }

  // ----- one cache per source address -----

  class ServerSessionMap {
    var m: map<string, CidCache>
    ghost var Repr: set<object>

    ghost predicate Slot(a: string)
      reads this, Repr
      requires a in m
    {
      m[a] in Repr && m[a] in m[a].Repr && m[a].Repr <= Repr && this !in m[a].Repr && m[a].Valid()
    }

    ghost predicate Apart(a: string, b: string)
      reads this, m.Values
      requires a in m && b in m
    {
      m[a].Repr !! m[b].Repr
    }

    /** Caches of different addresses share no objects. */
    ghost predicate Valid()
      reads this, Repr
    {
      && this in Repr
      && (forall a :: a in m ==> Slot(a))
      && (forall a, b :: a in m && b in m && a != b ==> Apart(a, b))
    }

    /** What is known for an address; an address never seen knows nothing. */
    ghost function Log(a: string): seq<Cid>
      reads this, m.Values
    {
      if a in m then m[a].log else []
    }

    constructor ()
      ensures Valid() && m == map[] && fresh(Repr)
    {
      m := map[];
      Repr := {this};
    }

    method GetCache(addr: string) returns (cache: CidCache)
      requires Valid()
      modifies this
      ensures Valid() && fresh(Repr - old(Repr))
      ensures m == old(m)[addr := cache] && (addr in old(m) ==> cache == old(m)[addr])
      ensures forall a :: Log(a) == old(Log(a))
    {
      if addr in m {
        return m[addr];
      }
      cache := new CidCache();
      Adopt(addr, cache);
    }

    method Adopt(addr: string, cache: CidCache)
      requires Valid() && addr !in m
      requires cache.Valid() && cache in cache.Repr && cache.log == [] && cache.Repr !! Repr
      modifies this
      ensures Valid() && Repr == old(Repr) + cache.Repr && m == old(m)[addr := cache]
      ensures forall a :: Log(a) == old(Log(a))
    {
      hide CidCache.Valid;
      m := m[addr := cache];
      Repr := Repr + cache.Repr;
      forall a | a in m ensures Slot(a) {
        if a != addr {
          assert old(Slot(a));
        }
      }
      forall a, b | a in m && b in m && a != b ensures Apart(a, b) {
        if a != addr && b != addr {
          assert old(Apart(a, b));
        } else {
          assert old(Slot(if a == addr then b else a));
        }
      }
    }

    /** Learning an ID for one address leaves the caches of all other addresses as they were. */
    method AddRealFor(addr: string, cid: Cid)
      requires Valid() && addr in m
      modifies this, m[addr].Repr
      ensures Valid() && m == old(m) && fresh(Repr - old(Repr))
      ensures Log(addr) == Learn(old(Log(addr)), cid)
      ensures forall a :: a != addr ==> Log(a) == old(Log(a))
    {
      hide CidCache.Valid;
      var cache := m[addr];
      assert Slot(addr);
      cache.AddReal(cid);
      Repr := Repr + cache.Repr;
      assert Repr - old(Repr) <= cache.Repr - old(cache.Repr);
      assert Slot(addr);
      forall a | a in m && a != addr
        ensures Slot(a) && Apart(a, addr) && Apart(addr, a) && Log(a) == old(Log(a))
      {
        assert old(Slot(a));
        assert old(Apart(a, addr));
      }
      forall a, b | a in m && b in m && a != b && a != addr && b != addr ensures Apart(a, b) {
        assert old(Apart(a, b));
      }
    }
  }
}
