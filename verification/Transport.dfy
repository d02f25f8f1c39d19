/** Connection-ID hiding on the packet path: the sender's WriteTo, the receiver's ReadFrom. */
module Transport {
  import opened Bytes
  import opened CidCodec
  import opened CidSession
  import opened Wrappers

  const CID_OFFSET := 1
  const FIXED_CID_LEN := 16
  const WARM_UP := 10
  const QUEUE_CAPACITY := 2048
  const FAKE_ADDR := "192.0.2.1:54321"

  type Bytestring = seq<Byte>

  // ----- packets -----

  /** Short header (RFC 9000, section 17.3): top bit clear, and long enough to hold a connection ID. */
  predicate Eligible(data: Bytestring) {
    |data| >= CID_OFFSET + FIXED_CID_LEN && data[0] < 0x80
  }

  function CidOf(data: Bytestring): (c: Cid)
    requires Eligible(data)
    ensures |c| == FIXED_CID_LEN
  {
    data[CID_OFFSET..CID_OFFSET + FIXED_CID_LEN]
  }

  function WithCid(data: Bytestring, c: Cid): (r: Bytestring)
    requires Eligible(data) && |c| == FIXED_CID_LEN
    ensures |r| == |data| && Eligible(r) && CidOf(r) == c
    ensures forall i :: 0 <= i < |data| && !(CID_OFFSET <= i < CID_OFFSET + FIXED_CID_LEN) ==> r[i] == data[i]
  {
    data[..CID_OFFSET] + c + data[CID_OFFSET + FIXED_CID_LEN..]
  }

  lemma SameButCid(data: Bytestring, c: Cid)
    requires Eligible(data) && |c| == FIXED_CID_LEN
    ensures WithCid(data, CidOf(data)) == data
    ensures forall d: Cid | |d| == FIXED_CID_LEN :: WithCid(WithCid(data, c), d) == WithCid(data, d)
    ensures WithCid(data, c) == data <==> c == CidOf(data)
  {
  }

  // ----- what the two ends do to one packet -----

  function CountOf(counts: map<Cid, nat>, c: Cid): nat {
    if c in counts then counts[c] else 0
  }

  /** WriteTo: count the packet, and scramble its connection ID after the first ten. */
  ghost function Emit(k: Secret, enabled: bool, counts: map<Cid, nat>, data: Bytestring, seed: Seed): (r: (Bytestring, map<Cid, nat>))
    requires ValidSecret(k)
  {
    if !Eligible(data) then (data, counts)
    else
      var c := CidOf(data);
      var n := CountOf(counts, c) + 1;
      (if enabled && n > WARM_UP then WithCid(data, Scrambled(k, c, seed)) else data, counts[c := n])
  }

  /** Go's copy: src written over buf from position `at`, as far as buf reaches. */
  function Overlay(buf: Bytestring, at: nat, src: Bytestring): (r: Bytestring)
    ensures |r| == |buf|
    ensures at + |src| <= |buf| ==> r == buf[..at] + src + buf[at + |src|..]
    ensures at <= |buf| < at + |src| ==> r == buf[..at] + src[..|buf| - at]
  {
    seq(|buf|, i requires 0 <= i < |buf| => if at <= i < at + |src| then src[i - at] else buf[i])
  }

  /** The known ID that ReadFrom puts back, if it puts one back. */
  function Replacement(k: Secret, log: seq<Cid>, data: Bytestring): Option<Cid>
    requires ValidSecret(k)
  {
    if !Eligible(data) || CidOf(data) in log then None else Lookup(log, Unscrambled(k, CidOf(data)))
  }

  /** The packet ReadFrom makes of a datagram. */
  function Restore(k: Secret, log: seq<Cid>, data: Bytestring): Bytestring
    requires ValidSecret(k)
  {
    var r := Replacement(k, log, data);
    if r.Some? then Overlay(data, CID_OFFSET, r.value) else data
  }

  /** What ReadFrom knows afterwards: an ID that is neither known nor decodable is taken for a real one. */
  function Learnt(k: Secret, log: seq<Cid>, data: Bytestring): seq<Cid>
    requires ValidSecret(k)
  {
    if Eligible(data) && Replacement(k, log, data).None? then Learn(log, CidOf(data)) else log
  }

  // ----- the same in bytes -----

  /** Long headers (first byte 128 or more) and packets too short for an ID go out and come in as they are. */
  lemma LeftAlone(k: Secret, enabled: bool, counts: map<Cid, nat>, log: seq<Cid>, data: Bytestring, seed: Seed)
    requires ValidSecret(k) && (|data| < 17 || data[0] >= 128)
    ensures Emit(k, enabled, counts, data, seed) == (data, counts)
    ensures Restore(k, log, data) == data && Learnt(k, log, data) == log
  {
  }

  /** A short-header packet is counted under its bytes 1..16, which change once ten have been counted. */
  lemma EmitInBytes(k: Secret, enabled: bool, counts: map<Cid, nat>, data: Bytestring, seed: Seed)
    requires ValidSecret(k) && |data| >= 17 && data[0] < 128
    ensures var c := data[1..17]; var n := if c in counts then counts[c] else 0;
      Emit(k, enabled, counts, data, seed)
      == (if enabled && n >= 10 then data[..1] + Scrambled(k, c, seed) + data[17..] else data, counts[c := n + 1])
  {
    hide Scrambled;
  }

  /** What a read makes of a short-header packet, by what is known of its bytes 1..16. */
  lemma ReadInBytes(k: Secret, log: seq<Cid>, data: Bytestring)
    requires ValidSecret(k) && |data| >= 17 && data[0] < 128
    ensures var c := data[1..17]; var found := Lookup(log, Unscrambled(k, c));
      if c in log then Restore(k, log, data) == data && Learnt(k, log, data) == log
      else if found.None? then Restore(k, log, data) == data && Learnt(k, log, data) == log + [c]
      else Learnt(k, log, data) == log
           && (|found.value| == 16 ==> Restore(k, log, data) == data[..1] + found.value + data[17..])
  {
    hide Unscrambled, Lookup;
  }

  // ----- the two operations -----

  datatype Packet = Datagram(data: Bytestring, addr: Option<string>) | PumpFailed

  datatype ReadError = ConnectionClosed | SocketError | NilSourceAddress
  datatype ReadResult = Got(n: nat, addr: Option<string>) | Err(error: ReadError)

  method CopyInto(p: array<Byte>, at: nat, src: Bytestring)
    requires at <= p.Length
    modifies p
    ensures p[..] == Overlay(old(p[..]), at, src)
  {
    var n := if p.Length - at < |src| then p.Length - at else |src|;
    for i := 0 to n
      invariant forall j :: 0 <= j < p.Length ==> p[j] == if at <= j < at + i then src[j - at] else old(p[j])
    {
      p[at + i] := src[i];
    }
  }

  method Deliver(p: array<Byte>, data: Bytestring, replacement: Option<Cid>)
    requires p.Length > 0 || replacement.None?
    modifies p
    ensures p[..] == Patched(data, replacement, old(p[..]))
  {
    CopyInto(p, 0, data);
    if replacement.Some? {
      CopyInto(p, CID_OFFSET, replacement.value);
    }
  }

  class MagicConn {
    const isServer: bool
    const obfuscationEnabled: bool
    const codec: Codec
    const clientCache: CidCache
    const sessions: ServerSessionMap
    var txCounts: map<Cid, nat>
    var recvQueue: seq<Packet>
    var closed: bool

    ghost predicate Valid()
      reads this, clientCache, clientCache.Repr, sessions, sessions.Repr
    {
      && codec.Valid()
      && clientCache.Valid() && sessions.Valid()
      && this !in clientCache.Repr && this !in sessions.Repr && clientCache.Repr !! sessions.Repr
      && |recvQueue| <= QUEUE_CAPACITY
    }

    /** The IDs known for packets from `addr`: the server keeps one cache per address, the client just one. */
    ghost function Known(addr: string): seq<Cid>
      reads this, clientCache, sessions, sessions.m.Values
    {
      if isServer then sessions.Log(addr) else clientCache.log
    }

    constructor (server: bool, enabled: bool, c: Codec, shared: ServerSessionMap)
      requires c.Valid() && shared.Valid()
      ensures Valid() && fresh(clientCache.Repr)
      ensures isServer == server && obfuscationEnabled == enabled && codec == c && sessions == shared
      ensures txCounts == map[] && recvQueue == [] && !closed && clientCache.log == []
    {
      isServer, obfuscationEnabled, codec, sessions := server, enabled, c, shared;
      txCounts, recvQueue, closed := map[], [], false;
      var cache := new CidCache();
      clientCache := cache;
    }

    /** A pump offers a datagram to the queue; a full queue drops it, and so may a closed connection (`done`). */
    method Offer(pkt: Packet, done: bool) returns (queued: bool)
      requires Valid() && (done ==> closed)
      modifies this`recvQueue
      ensures Valid()
      ensures queued == (!done && |old(recvQueue)| < 2048)
      ensures recvQueue == if queued then old(recvQueue) + [pkt] else old(recvQueue)
    {
      queued := !done && |recvQueue| < QUEUE_CAPACITY;
      if queued {
        recvQueue := recvQueue + [pkt];
      }
    }

    /** Cancels the context; what waits in the queue may still be read. */
    method Close()
      requires Valid()
      modifies this`closed
      ensures Valid() && closed
    {
      closed := true;
    }

    method WriteTo(p: array<Byte>, seed: Seed)
      requires Valid() && Apart(p)
      modifies this`txCounts, p
      ensures Valid()
      ensures (p[..], txCounts) == Emit(codec.secret, obfuscationEnabled, old(txCounts), old(p[..]), seed)
    {
      ghost var data := p[..];
      if p.Length > 0 && p[0] < 0x80 {
        if p.Length >= CID_OFFSET + FIXED_CID_LEN {
          var cidKey := p[CID_OFFSET..CID_OFFSET + FIXED_CID_LEN];
          assert cidKey == CidOf(data);
          var count := if cidKey in txCounts then txCounts[cidKey] else 0;
          count := count + 1;
          txCounts := txCounts[cidKey := count];
          if obfuscationEnabled && count > WARM_UP {
            var cell := new Byte[FIXED_CID_LEN](i requires 0 <= i < FIXED_CID_LEN => cidKey[i]);
            assert cell[..] == cidKey;
            codec.Obfuscate(cell, seed);
            CopyInto(p, CID_OFFSET, cell[..]);
            assert p[..] == WithCid(data, Scrambled(codec.secret, cidKey, seed));
          }
        }
      }
    }

    /** The cache a packet is looked up in; asking for it creates an empty one, which changes nothing known. */
    method CacheFor(source: string) returns (cache: CidCache)
      requires Valid()
      modifies sessions
      ensures Valid() && cache.Valid() && cache.log == Known(source)
      ensures isServer ==> source in sessions.m
      ensures fresh(sessions.Repr - old(sessions.Repr))
      ensures forall a :: Known(a) == old(Known(a))
    {
      cache := clientCache;
      if isServer {
        cache := sessions.GetCache(source);
        assert sessions.Slot(source);
      }
    }

    /** Take an ID for real, for packets from this source only. */
    method LearnFor(source: string, cid: Cid)
      requires Valid() && (isServer ==> source in sessions.m)
      modifies clientCache.Repr, sessions, sessions.Repr
      ensures Valid()
      ensures fresh(clientCache.Repr - old(clientCache.Repr)) && fresh(sessions.Repr - old(sessions.Repr))
      ensures Known(source) == Learn(old(Known(source)), cid)
      ensures isServer ==> forall a :: a != source ==> Known(a) == old(Known(a))
    {
      if isServer {
        assert sessions.Slot(source);
        sessions.AddRealFor(source, cid);
      } else {
        clientCache.AddReal(cid);
      }
    }

    /** Clear match first, then a match of the decoded prefix. */
    method Classify(cache: CidCache, data: Bytestring) returns (known: bool, replacement: Option<Cid>)
      requires codec.Valid() && cache.Valid() && Eligible(data)
      ensures known == (CidOf(data) in cache.log)
      ensures replacement == Replacement(codec.secret, cache.log, data)
    {
      var wireCid := CidOf(data);
      var hit := cache.FindByReal(wireCid);
      if hit.Some? {
        return true, None;
      }
      var decoded := new Byte[FIXED_CID_LEN](i requires 0 <= i < FIXED_CID_LEN => wireCid[i]);
      assert decoded[..] == wireCid;
      codec.Deobfuscate(decoded);
      known := false;
      replacement := cache.FindByDecoded56(decoded[..]);
    }

    ghost predicate Apart(p: array<Byte>)
      reads clientCache, sessions
    {
      p !in clientCache.Repr && p !in sessions.Repr
    }

    /** Look a short-header packet up, and learn its ID when it is neither known nor decodable. */
    method Consult(data: Bytestring, source: string) returns (replacement: Option<Cid>)
      requires Valid() && Eligible(data)
      modifies clientCache.Repr, sessions, sessions.Repr
      ensures Valid()
      ensures fresh(clientCache.Repr - old(clientCache.Repr)) && fresh(sessions.Repr - old(sessions.Repr))
      ensures replacement == Replacement(codec.secret, old(Known(source)), data)
      ensures Known(source) == Learnt(codec.secret, old(Known(source)), data)
      ensures isServer ==> forall a :: a != source ==> Known(a) == old(Known(a))
    {
      hide CidCache.Valid, ServerSessionMap.Valid, Lookup, Unscrambled;
      var cache := CacheFor(source);
      var known;
      known, replacement := Classify(cache, data);
      if !known && replacement.None? {
        LearnFor(source, CidOf(data));
      }
    }

    /** The body of ReadFrom once a datagram with a source is at hand. */
    method ReadDatagram(p: array<Byte>, data: Bytestring, source: string)
      requires Valid() && Apart(p)
      requires p.Length > 0 || Replacement(codec.secret, Known(source), data).None?
      modifies p, clientCache.Repr, sessions, sessions.Repr
      ensures Valid()
      ensures fresh(clientCache.Repr - old(clientCache.Repr)) && fresh(sessions.Repr - old(sessions.Repr))
      ensures p[..] == Received(codec.secret, old(Known(source)), data, old(p[..]))
      ensures Known(source) == Learnt(codec.secret, old(Known(source)), data)
      ensures isServer ==> forall a :: a != source ==> Known(a) == old(Known(a))
    {
      hide CidCache.Valid, ServerSessionMap.Valid;
      var replacement: Option<Cid> := None;
      if Eligible(data) {
        replacement := Consult(data, source);
      }
      Deliver(p, data, replacement);
    }

    /**
     * `done` says which ready arm the select takes. The call blocks while neither is ready. An empty
     * buffer cannot be sliced past its end, so it must not meet a packet that needs its ID put back.
     */
    method ReadFrom(p: array<Byte>, done: bool) returns (r: ReadResult)
      requires Valid() && Apart(p)
      requires if done then closed else recvQueue != []
      requires !done && recvQueue[0].Datagram? ==>
                 p.Length > 0 || Replacement(codec.secret, Known(SourceOf(recvQueue[0])), recvQueue[0].data).None?
      modifies this`recvQueue, p, clientCache.Repr, sessions, sessions.Repr
      ensures Valid()
      ensures fresh(clientCache.Repr - old(clientCache.Repr)) && fresh(sessions.Repr - old(sessions.Repr))
      ensures recvQueue == if done then old(recvQueue) else old(recvQueue)[1..]
      ensures r.Err? ==> p[..] == old(p[..]) && forall a :: Known(a) == old(Known(a))
      ensures r.Err? <==> done || old(recvQueue)[0].PumpFailed? || Unanswerable(old(recvQueue)[0])
      ensures r == Err(ConnectionClosed) <==> done
      ensures r == Err(SocketError) <==> !done && old(recvQueue)[0].PumpFailed?
      ensures r == Err(NilSourceAddress) <==>
                (&& !done && old(recvQueue)[0].Datagram? && isServer && old(recvQueue)[0].addr.None?
                 && |old(recvQueue)[0].data| >= 17 && old(recvQueue)[0].data[0] < 128)
      ensures r.Got? && !isServer ==> r.addr == Some("192.0.2.1:54321")
      ensures !isServer ==> forall a, b :: Known(a) == Known(b)
      ensures r.Got? ==>
                var pkt := old(recvQueue)[0];
                && r.n == (if p.Length < |pkt.data| then p.Length else |pkt.data|)
                && r.addr == (if isServer then pkt.addr else Some(FAKE_ADDR))
                && p[..] == Received(codec.secret, old(Known(SourceOf(recvQueue[0]))), pkt.data, old(p[..]))
                && Known(SourceOf(pkt)) == Learnt(codec.secret, old(Known(SourceOf(recvQueue[0]))), pkt.data)
      ensures r.Got? && isServer ==>
                forall a :: a != SourceOf(old(recvQueue)[0]) ==> Known(a) == old(Known(a))
    {
      hide CidCache.Valid, ServerSessionMap.Valid;
      if done {
        return Err(ConnectionClosed);
      }
      var pkt := recvQueue[0];
      recvQueue := recvQueue[1..];
      if pkt.PumpFailed? {
        return Err(SocketError);
      }
      if Unanswerable(pkt) {
        return Err(NilSourceAddress);
      }
      ReadDatagram(p, pkt.data, SourceOf(pkt));
      r := Got(if p.Length < |pkt.data| then p.Length else |pkt.data|, if isServer then pkt.addr else Some(FAKE_ADDR));
    }

    /** The server has no cache to consult for a short-header packet without a source address. */
    predicate Unanswerable(pkt: Packet) {
      isServer && pkt.Datagram? && pkt.addr.None? && Eligible(pkt.data)
    }
  }

  function SourceOf(pkt: Packet): string {
    if pkt.Datagram? && pkt.addr.Some? then pkt.addr.value else FAKE_ADDR
  }

  /** The caller's buffer after a read: the datagram, then the ID put back over it. */
  function Patched(data: Bytestring, replacement: Option<Cid>, buf: Bytestring): Bytestring {
    if replacement.Some? then Overlay(Overlay(buf, 0, data), CID_OFFSET, replacement.value) else Overlay(buf, 0, data)
  }

  function Received(k: Secret, log: seq<Cid>, data: Bytestring, buf: Bytestring): Bytestring
    requires ValidSecret(k)
  {
    Patched(data, Replacement(k, log, data), buf)
  }
}
