/** Programs that talk over a pair of byte streams, and why two that follow one conversation cannot go wrong. */
module Exchange {
  import opened Bytes
  import opened Wrappers

  const READ_BUFFER := 64 * 1024

  /** Up is client to server. */
  datatype Direction = Up | Down

  function Other(d: Direction): Direction {
    if d == Up then Down else Up
  }

  /** What a finished task hands to its caller: bytes of bulk data received, and the peer's loss figure. */
  datatype Outcome = Outcome(received: nat, peerLoss: nat)

  /**
   * A sequential stream program, at the point it has reached. ReadFull is `io.ReadFull` with what it holds so
   * far; ReadLoop is the loop around `Read` that counts bulk data, and passes its count on when it leaves.
   */
  datatype Program =
    | Done(outcome: Outcome)
    | Failed
    | Write(out: seq<Byte>, next: Program)
    | ReadFull(need: nat, got: seq<Byte>, resume: seq<Byte> -> Program)
    | ReadLoop(expected: nat, received: nat, leave: nat -> Program)

  /** The loop tests its condition before every read. */
  function Loop(expected: nat, received: nat, leave: nat -> Program): Program {
    if received < expected then ReadLoop(expected, received, leave) else leave(received)
  }

  // ----- the product machine -----

  datatype Session = Session(client: Program, server: Program, up: seq<Byte>, down: seq<Byte>)

  /** One party writes k bytes or reads k bytes; k == 0 is a read that finds the stream closed by its peer. */
  datatype Move = Move(party: Direction, k: nat)

  predicate Closed(p: Program) {
    p.Done? || p.Failed?
  }

  /** May a party at `p` move k bytes, given what waits for it, the room in its outgoing stream and its peer? */
  predicate CanMove(p: Program, k: nat, incoming: seq<Byte>, room: int, peer: Program) {
    match p
    case Done(_) => false
    case Failed => false
    case Write(out, _) => 1 <= k <= |out| && k <= room
    case ReadFull(need, got, _) =>
      if k == 0 then incoming == [] && Closed(peer) else k <= |incoming| && |got| + k <= need
    case ReadLoop(_, _, _) =>
      if k == 0 then incoming == [] && Closed(peer) else k <= |incoming| && k <= READ_BUFFER
  }

  function Sent(p: Program, k: nat): seq<Byte> {
    if p.Write? && k <= |p.out| then p.out[..k] else []
  }

  function Taken(p: Program, k: nat): nat {
    if p.ReadFull? || p.ReadLoop? then k else 0
  }

  function Moved(p: Program, k: nat, incoming: seq<Byte>, room: int, peer: Program): Program
    requires CanMove(p, k, incoming, room, peer)
  {
    match p
    case Write(out, next) => if k == |out| then next else Write(out[k..], next)
    case ReadFull(need, got, resume) =>
      if k == 0 then Failed
      else if |got| + k == need then resume(got + incoming[..k])
      else ReadFull(need, got + incoming[..k], resume)
    case ReadLoop(expected, received, leave) =>
      if k == 0 then leave(received) else Loop(expected, received + k, leave)
  }

  predicate Enabled(s: Session, capacity: nat, m: Move) {
    match m.party
    case Up => CanMove(s.client, m.k, s.down, capacity - |s.up|, s.server)
    case Down => CanMove(s.server, m.k, s.up, capacity - |s.down|, s.client)
  }

  function Step(s: Session, capacity: nat, m: Move): Session
    requires Enabled(s, capacity, m)
  {
    match m.party
    case Up =>
      Session(Moved(s.client, m.k, s.down, capacity - |s.up|, s.server), s.server,
              s.up + Sent(s.client, m.k), s.down[Taken(s.client, m.k)..])
    case Down =>
      Session(s.client, Moved(s.server, m.k, s.up, capacity - |s.down|, s.client),
              s.up[Taken(s.server, m.k)..], s.down + Sent(s.server, m.k))
  }

  /** Any chunking: a write of any part that fits, a read of any part that waits, up to what was asked for. */
  lemma MovesAllowed(s: Session, capacity: nat, party: Direction, k: nat)
    requires k >= 1
    ensures var (p, incoming, outgoing) := if party == Up then (s.client, s.down, s.up) else (s.server, s.up, s.down);
      Enabled(s, capacity, Move(party, k)) <==>
        || (p.Write? && k <= |p.out| && |outgoing| + k <= capacity)
        || (p.ReadFull? && k <= |incoming| && |p.got| + k <= p.need)
        || (p.ReadLoop? && k <= |incoming| && k <= 65536)
  {
  }

  /** At the end of its stream `io.ReadFull` fails, and a bulk loop leaves with what it has counted. */
  lemma EndOfStream(s: Session, capacity: nat, party: Direction)
    requires Enabled(s, capacity, Move(party, 0))
    ensures var (p, incoming, peer) := if party == Up then (s.client, s.down, s.server) else (s.server, s.up, s.client);
      && incoming == [] && (peer.Done? || peer.Failed?)
      && var s' := Step(s, capacity, Move(party, 0));
         (if party == Up then s'.client else s'.server) == (if p.ReadLoop? then p.leave(p.received) else Failed)
  {
  }

  /** A run: every move is enabled where it is made. */
  ghost predicate IsRun(s: Session, capacity: nat, moves: seq<Move>)
    decreases |moves|
  {
    moves == [] || (Enabled(s, capacity, moves[0]) && IsRun(Step(s, capacity, moves[0]), capacity, moves[1..]))
  }

  function After(s: Session, capacity: nat, moves: seq<Move>): Session
    requires IsRun(s, capacity, moves)
    decreases |moves|
  {
    if moves == [] then s else After(Step(s, capacity, moves[0]), capacity, moves[1..])
  }

  // ----- conversations -----

  /** A conversation: every byte that is to pass, in order, with its direction. */
  datatype Talk = Talk(dir: Direction, byte: Byte)

  function Tag(d: Direction, bytes: seq<Byte>): (c: seq<Talk>)
    ensures |c| == |bytes|
  {
    seq(|bytes|, i requires 0 <= i < |bytes| => Talk(d, bytes[i]))
  }

  function Untag(c: seq<Talk>): (bytes: seq<Byte>)
    ensures |bytes| == |c|
  {
    seq(|c|, i requires 0 <= i < |c| => c[i].byte)
  }

  predicate Says(c: seq<Talk>, d: Direction) {
    forall i :: 0 <= i < |c| ==> c[i].dir == d
  }

  /**
   * The outcome of a party's program when the conversation goes as given; None when the program would say
   * something else, fail, or be able to read past a bulk transfer.
   */
  function Play(p: Program, mine: Direction, c: seq<Talk>): Option<Outcome>
    decreases |c|
  {
    match p
    case Done(outcome) => if c == [] then Some(outcome) else None
    case Failed => None
    case Write(out, next) =>
      if out != [] && |out| <= |c| && c[..|out|] == Tag(mine, out) then Play(next, mine, c[|out|..]) else None
    case ReadFull(need, got, resume) =>
      var k := need - |got|;
      if 0 < k <= |c| && Says(c[..k], Other(mine)) then Play(resume(got + Untag(c[..k])), mine, c[k..]) else None
    case ReadLoop(expected, received, leave) =>
      var k := expected - received;
      if 0 < k <= |c| && Says(c[..k], Other(mine)) && (k < |c| ==> c[k].dir == mine) then Play(leave(expected), mine, c[k..])
      else None
  }

  /** The sender is ahead of the receiver by exactly the bytes in its stream. */
  ghost predicate Ahead(sender: Program, d: Direction, receiver: Program, stream: seq<Byte>, c: seq<Talk>, ro: Outcome, rd: Outcome) {
    && Play(sender, d, c) == Some(ro)
    && Play(receiver, Other(d), Tag(d, stream) + c) == Some(rd)
  }

  /** Half duplex: at most one stream holds bytes, and both parties agree on the rest of the conversation c. */
  ghost predicate InTune(s: Session, c: seq<Talk>, client: Outcome, server: Outcome) {
    || (s.down == [] && Ahead(s.client, Up, s.server, s.up, c, client, server))
    || (s.up == [] && Ahead(s.server, Down, s.client, s.down, c, server, client))
  }

  // ----- one move -----

  lemma TagSplit(d: Direction, bytes: seq<Byte>, k: nat)
    requires k <= |bytes|
    ensures Tag(d, bytes) == Tag(d, bytes[..k]) + Tag(d, bytes[k..])
  {
  }

  lemma WriteKeeps(p: Program, d: Direction, c: seq<Talk>, k: nat)
    requires p.Write? && 1 <= k <= |p.out| && Play(p, d, c).Some?
    ensures k <= |c| && c[..k] == Tag(d, p.out[..k])
    ensures Play(if k == |p.out| then p.next else Write(p.out[k..], p.next), d, c[k..]) == Play(p, d, c)
  {
    var n := |p.out|;
    assert c[..k] == c[..n][..k];
    if k < n {
      assert c[k..][..n - k] == c[..n][k..] == Tag(d, p.out[k..]);
      assert c[k..][n - k..] == c[n..];
    }
  }

  /** A bulk read never takes more than is expected: the peer says no more until it is answered. */
  lemma NoOverRead(p: Program, mine: Direction, incoming: seq<Byte>, c: seq<Talk>)
    requires p.ReadLoop? && Play(p, mine, Tag(Other(mine), incoming) + c).Some?
    ensures p.received < p.expected && |incoming| <= p.expected - p.received
  {
    var k := p.expected - p.received;
    var all := Tag(Other(mine), incoming) + c;
    assert forall i :: 0 <= i < |incoming| ==> all[i].dir == Other(mine);
  }

  lemma SaysConcat(a: seq<Talk>, b: seq<Talk>, d: Direction)
    ensures Says(a + b, d) <==> Says(a, d) && Says(b, d)
  {
    assert (a + b)[..|a|] == a && (a + b)[|a|..] == b;
    if Says(a + b, d) {
      forall i | 0 <= i < |b| ensures b[i].dir == d {
        assert (a + b)[|a| + i] == b[i];
      }
    }
  }

  lemma PrefixSplit(all: seq<Talk>, n: nat, k: nat, d: Direction)
    requires k <= n <= |all|
    ensures Untag(all[..n]) == Untag(all[..k]) + Untag(all[k..][..n - k])
    ensures all[k..][n - k..] == all[n..]
    ensures Says(all[..n], d) <==> Says(all[..k], d) && Says(all[k..][..n - k], d)
  {
    assert all[..n] == all[..k] + all[k..][..n - k];
    SaysConcat(all[..k], all[k..][..n - k], d);
  }

  lemma FullReadKeeps(need: nat, got: seq<Byte>, resume: seq<Byte> -> Program, mine: Direction, all: seq<Talk>, k: nat)
    requires 0 < k <= |all| && |got| + k <= need && Says(all[..k], Other(mine))
    requires Play(ReadFull(need, got, resume), mine, all).Some?
    ensures var got' := got + Untag(all[..k]);
            Play(if |got'| == need then resume(got') else ReadFull(need, got', resume), mine, all[k..])
            == Play(ReadFull(need, got, resume), mine, all)
  {
    var n := need - |got|;
    PrefixSplit(all, n, k, Other(mine));
    assert got + Untag(all[..n]) == got + Untag(all[..k]) + Untag(all[k..][..n - k]);
  }

  lemma LoopReadKeeps(expected: nat, received: nat, leave: nat -> Program, mine: Direction, all: seq<Talk>, k: nat)
    requires received + k <= expected && 0 < k <= |all|
    requires Play(ReadLoop(expected, received, leave), mine, all).Some?
    ensures Play(Loop(expected, received + k, leave), mine, all[k..]) == Play(ReadLoop(expected, received, leave), mine, all)
  {
    var n := expected - received;
    PrefixSplit(all, n, k, Other(mine));
    if k < n {
      assert n < |all| ==> all[k..][n - k] == all[n];
    }
  }

  lemma ReadKeeps(p: Program, mine: Direction, incoming: seq<Byte>, c: seq<Talk>, k: nat, room: int, peer: Program)
    requires p.ReadFull? || p.ReadLoop?
    requires k > 0 && CanMove(p, k, incoming, room, peer)
    requires Play(p, mine, Tag(Other(mine), incoming) + c).Some?
    ensures Play(Moved(p, k, incoming, room, peer), mine, Tag(Other(mine), incoming[k..]) + c)
            == Play(p, mine, Tag(Other(mine), incoming) + c)
  {
    hide Play;
    var all := Tag(Other(mine), incoming) + c;
    assert all[k..] == Tag(Other(mine), incoming[k..]) + c;
    assert all[..k] == Tag(Other(mine), incoming[..k]) && Untag(all[..k]) == incoming[..k];
    match p
    case ReadFull(need, got, resume) => FullReadKeeps(need, got, resume, mine, all, k);
    case ReadLoop(expected, received, leave) =>
      NoOverRead(p, mine, incoming, c);
      LoopReadKeeps(expected, received, leave, mine, all, k);
  }

  /** The rest of the conversation after a move: a write uses it up, a read does not. */
  function Rest(s: Session, c: seq<Talk>, m: Move): seq<Talk> {
    var p := if m.party == Up then s.client else s.server;
    if p.Write? && m.k <= |c| then c[m.k..] else c
  }

  lemma SenderMoves(p: Program, d: Direction, q: Program, stream: seq<Byte>, c: seq<Talk>, ro: Outcome, rd: Outcome, k: nat, room: int)
    requires Ahead(p, d, q, stream, c, ro, rd) && CanMove(p, k, [], room, q)
    ensures p.Write? && 1 <= k <= |c|
    ensures Ahead(Moved(p, k, [], room, q), d, q, stream + Sent(p, k), c[k..], ro, rd)
  {
    assert |Tag(d, stream) + c| == |stream| + |c|;
    if p.Write? {
      WriteKeeps(p, d, c, k);
      TagSplit(d, stream + p.out[..k], |stream|);
      assert (stream + p.out[..k])[..|stream|] == stream && (stream + p.out[..k])[|stream|..] == p.out[..k];
      assert Tag(d, stream + p.out[..k]) + c[k..] == Tag(d, stream) + c;
    }
  }

  lemma ReceiverReads(p: Program, d: Direction, q: Program, stream: seq<Byte>, c: seq<Talk>, ro: Outcome, rd: Outcome, k: nat, room: int)
    requires Ahead(p, d, q, stream, c, ro, rd) && !q.Write? && stream != [] && CanMove(q, k, stream, room, p)
    ensures 1 <= k <= |stream|
    ensures Ahead(p, d, Moved(q, k, stream, room, p), stream[k..], c, ro, rd)
  {
    ReadKeeps(q, Other(d), stream, c, k, room, p);
  }

  lemma ReceiverListens(p: Program, d: Direction, q: Program, stream: seq<Byte>, c: seq<Talk>, ro: Outcome, rd: Outcome)
    requires Ahead(p, d, q, stream, c, ro, rd) && stream != []
    ensures q.ReadFull? || q.ReadLoop?
  {
    var all := Tag(d, stream) + c;
    assert all[0].dir == d;
    if q.Write? {
      WriteSpeaks(q, Other(d), all);
    }
  }

  lemma WriteSpeaks(p: Program, mine: Direction, c: seq<Talk>)
    requires p.Write? && Play(p, mine, c).Some?
    ensures c != [] && c[0].dir == mine
  {
    assert c[..|p.out|][0] == Tag(mine, p.out)[0];
  }

  /** While the stream holds bytes its receiver reads; a sender whose peer has not been answered only sends. */
  lemma WhoMayMove(p: Program, d: Direction, q: Program, stream: seq<Byte>, c: seq<Talk>, ro: Outcome, rd: Outcome, k: nat, room: int)
    requires Ahead(p, d, q, stream, c, ro, rd) && stream != []
    requires CanMove(q, k, stream, room, p)
    ensures !q.Write? && 1 <= k <= |stream|
  {
    ReceiverListens(p, d, q, stream, c, ro, rd);
  }

  /** Every move keeps the parties in tune, so half duplex holds and outcomes are settled from the start. */
  lemma MoveKeepsTune(s: Session, capacity: nat, c: seq<Talk>, m: Move, client: Outcome, server: Outcome)
    requires InTune(s, c, client, server) && Enabled(s, capacity, m)
    ensures InTune(Step(s, capacity, m), Rest(s, c, m), client, server)
    ensures 1 <= m.k <= Work(s, c) && Work(Step(s, capacity, m), Rest(s, c, m)) == Work(s, c) - m.k
  {
    if s.down == [] && Ahead(s.client, Up, s.server, s.up, c, client, server) {
      if m.party == Up {
        SenderMoves(s.client, Up, s.server, s.up, c, client, server, m.k, capacity - |s.up|);
      } else if s.up != [] {
        WhoMayMove(s.client, Up, s.server, s.up, c, client, server, m.k, capacity);
        ReceiverReads(s.client, Up, s.server, s.up, c, client, server, m.k, capacity);
      } else {
        Quiet(s, c, client, server);
        SenderMoves(s.server, Down, s.client, s.down, c, server, client, m.k, capacity);
      }
    } else {
      if m.party == Down {
        SenderMoves(s.server, Down, s.client, s.down, c, server, client, m.k, capacity - |s.down|);
      } else if s.down != [] {
        WhoMayMove(s.server, Down, s.client, s.down, c, server, client, m.k, capacity);
        ReceiverReads(s.server, Down, s.client, s.down, c, server, client, m.k, capacity);
      } else {
        Quiet(s, c, client, server);
        SenderMoves(s.client, Up, s.server, s.up, c, client, server, m.k, capacity);
      }
    }
  }

  /** With both streams empty the two views coincide. */
  lemma Quiet(s: Session, c: seq<Talk>, client: Outcome, server: Outcome)
    requires InTune(s, c, client, server) && s.up == [] && s.down == []
    ensures Ahead(s.client, Up, s.server, [], c, client, server)
    ensures Ahead(s.server, Down, s.client, [], c, server, client)
  {
    assert Tag(Up, []) + c == c && Tag(Down, []) + c == c;
  }

  /** Bytes still to be written count twice, bytes under way once. */
  function Work(s: Session, c: seq<Talk>): nat {
    2 * |c| + |s.up| + |s.down|
  }

  /** No deadlock: with room for one byte, some move is enabled unless both parties are done. */
  lemma Progress(s: Session, capacity: nat, c: seq<Talk>, client: Outcome, server: Outcome)
    requires InTune(s, c, client, server) && capacity >= 1
    ensures (exists m :: Enabled(s, capacity, m))
            || (s.client == Done(client) && s.server == Done(server) && s.up == [] && s.down == [] && c == [])
  {
    if s.up != [] {
      ReceiverListens(s.client, Up, s.server, s.up, c, client, server);
      PartialRead(s.server, Down, Tag(Up, s.up) + c);
      assert Enabled(s, capacity, Move(Down, 1));
    } else if s.down != [] {
      ReceiverListens(s.server, Down, s.client, s.down, c, server, client);
      PartialRead(s.client, Up, Tag(Down, s.down) + c);
      assert Enabled(s, capacity, Move(Up, 1));
    } else {
      Quiet(s, c, client, server);
      assert Tag(Up, []) + c == c && Tag(Down, []) + c == c;
      if c == [] {
        assert s.client.Done? && s.server.Done?;
      } else if c[0].dir == Up {
        OwnerWrites(s.client, Up, c);
        assert Enabled(s, capacity, Move(Up, 1));
      } else {
        OwnerWrites(s.server, Down, c);
        assert Enabled(s, capacity, Move(Down, 1));
      }
    }
  }

  lemma PartialRead(p: Program, mine: Direction, c: seq<Talk>)
    requires Play(p, mine, c).Some?
    ensures p.ReadFull? ==> |p.got| + 1 <= p.need
  {
  }

  /** The party whose turn it is to speak is writing. */
  lemma OwnerWrites(p: Program, mine: Direction, c: seq<Talk>)
    requires Play(p, mine, c).Some? && c != [] && c[0].dir == mine
    ensures p.Write? && p.out != []
  {
    if p.ReadFull? || p.ReadLoop? {
      ReadHears(p, mine, c);
    }
  }

  lemma ReadHears(p: Program, mine: Direction, c: seq<Talk>)
    requires (p.ReadFull? || p.ReadLoop?) && Play(p, mine, c).Some?
    ensures c != [] && c[0].dir == Other(mine)
  {
    var k := if p.ReadFull? then p.need - |p.got| else p.expected - p.received;
    assert c[..k][0] == c[0];
  }

  // ----- whole runs -----

  ghost predicate NeverReadsPast(s: Session) {
    && (s.server.ReadLoop? ==> s.server.received + |s.up| <= s.server.expected)
    && (s.client.ReadLoop? ==> s.client.received + |s.down| <= s.client.expected)
  }

  ghost predicate Safe(s: Session) {
    && (s.up == [] || s.down == [])
    && !s.client.Failed? && !s.server.Failed?
    && NeverReadsPast(s)
  }

  lemma InTuneIsSafe(s: Session, c: seq<Talk>, client: Outcome, server: Outcome)
    requires InTune(s, c, client, server)
    ensures Safe(s)
  {
    if s.down == [] && Ahead(s.client, Up, s.server, s.up, c, client, server) {
      if s.server.ReadLoop? {
        NoOverRead(s.server, Down, s.up, c);
      }
    } else if s.client.ReadLoop? {
      NoOverRead(s.client, Up, s.down, c);
    }
  }

  /**
   * Two programs that play one conversation: at every point of every run, for any capacity and any chunking,
   * half duplex, no over-read and no failure; no run is longer than the work in it; and a run that can go no
   * further has finished both parties, with the outcomes of the conversation and nothing left in the streams.
   */
  lemma {:induction false} ConversationRuns(s: Session, capacity: nat, c: seq<Talk>, client: Outcome, server: Outcome, moves: seq<Move>)
    requires InTune(s, c, client, server) && capacity >= 1 && IsRun(s, capacity, moves)
    ensures Safe(After(s, capacity, moves))
    ensures |moves| <= Work(s, c)
    ensures (forall m :: !Enabled(After(s, capacity, moves), capacity, m)) ==>
              After(s, capacity, moves) == Session(Done(client), Done(server), [], [])
    decreases |moves|
  {
    if moves == [] {
      InTuneIsSafe(s, c, client, server);
      Progress(s, capacity, c, client, server);
    } else {
      MoveKeepsTune(s, capacity, c, moves[0], client, server);
      ConversationRuns(Step(s, capacity, moves[0]), capacity, Rest(s, c, moves[0]), client, server, moves[1..]);
    }
  }
}
