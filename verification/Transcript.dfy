/** The very bytes that pass in a run, and what the two tasks deliver. */
module Transcript {
  import opened Bytes
  import opened Exchange
  import opened Tasks
  import opened Wrappers

  /** Everything written in a run, in order. */
  function WrittenTalk(s: Session, capacity: nat, moves: seq<Move>): seq<Talk>
    requires IsRun(s, capacity, moves)
    decreases |moves|
  {
    if moves == [] then []
    else
      var m := moves[0];
      Tag(m.party, Sent(if m.party == Up then s.client else s.server, m.k))
      + WrittenTalk(Step(s, capacity, m), capacity, moves[1..])
  }

  /** Everything one party reads in a run, in order. */
  function TakenBytes(s: Session, capacity: nat, moves: seq<Move>, party: Direction): seq<Byte>
    requires IsRun(s, capacity, moves)
    decreases |moves|
  {
    if moves == [] then []
    else
      TakenNow(s, moves[0], party) + TakenBytes(Step(s, capacity, moves[0]), capacity, moves[1..], party)
  }

  /** What a party reads in one enabled move. */
  function TakenNow(s: Session, m: Move, party: Direction): seq<Byte> {
    var stream := if party == Up then s.down else s.up;
    var k := Taken(if party == Up then s.client else s.server, m.k);
    if m.party == party && k <= |stream| then stream[..k] else []
  }

  /** The bytes of one direction. */
  function SaidBy(c: seq<Talk>, d: Direction): seq<Byte> {
    if c == [] then [] else (if c[0].dir == d then [c[0].byte] else []) + SaidBy(c[1..], d)
  }

  lemma {:induction false} SaidByTag(d: Direction, bytes: seq<Byte>, c: seq<Talk>, e: Direction)
    ensures SaidBy(Tag(d, bytes) + c, e) == (if d == e then bytes else []) + SaidBy(c, e)
    decreases |bytes|
  {
    if bytes == [] {
      assert Tag(d, bytes) + c == c;
    } else {
      SaidByTag(d, bytes[1..], c, e);
      var all := Tag(d, bytes) + c;
      assert all[0] == Talk(d, bytes[0]) && all[1..] == Tag(d, bytes[1..]) + c;
      assert bytes == [bytes[0]] + bytes[1..];
    }
  }

  /** No move is left. */
  ghost predicate Stuck(s: Session, capacity: nat) {
    forall m :: !Enabled(s, capacity, m)
  }

  /** What a write says is what the conversation has next. */
  lemma WriteIsNext(s: Session, capacity: nat, c: seq<Talk>, m: Move, client: Outcome, server: Outcome)
    requires InTune(s, c, client, server) && Enabled(s, capacity, m)
    ensures var p := if m.party == Up then s.client else s.server;
            c == Tag(m.party, Sent(p, m.k)) + Rest(s, c, m)
  {
    var p := if m.party == Up then s.client else s.server;
    if p.Write? {
      Speaks(s, capacity, c, m, client, server);
      WriteKeeps(p, m.party, c, m.k);
    } else {
      assert Tag(m.party, []) + c == c;
    }
  }

  lemma Speaks(s: Session, capacity: nat, c: seq<Talk>, m: Move, client: Outcome, server: Outcome)
    requires InTune(s, c, client, server) && Enabled(s, capacity, m)
    requires (if m.party == Up then s.client else s.server).Write?
    ensures Play(if m.party == Up then s.client else s.server, m.party, c).Some?
  {
    hide Play;
    if s.down == [] && Ahead(s.client, Up, s.server, s.up, c, client, server) {
      if m.party == Down {
        if s.up != [] {
          WhoMayMove(s.client, Up, s.server, s.up, c, client, server, m.k, capacity - |s.down|);
        }
        Quiet(s, c, client, server);
      }
    } else if m.party == Up {
      if s.down != [] {
        WhoMayMove(s.server, Down, s.client, s.down, c, server, client, m.k, capacity - |s.up|);
      }
      Quiet(s, c, client, server);
    }
  }

  /** A run that can go no further has said the whole conversation, word for word. */
  lemma {:induction false} WholeConversation(s: Session, capacity: nat, c: seq<Talk>, client: Outcome, server: Outcome, moves: seq<Move>)
    requires InTune(s, c, client, server) && capacity >= 1 && IsRun(s, capacity, moves)
    requires Stuck(After(s, capacity, moves), capacity)
    ensures WrittenTalk(s, capacity, moves) == c
    decreases |moves|
  {
    if moves == [] {
      assert After(s, capacity, moves) == s;
      Progress(s, capacity, c, client, server);
    } else {
      hide InTune, Stuck;
      MoveKeepsTune(s, capacity, c, moves[0], client, server);
      WriteIsNext(s, capacity, c, moves[0], client, server);
      WholeConversation(Step(s, capacity, moves[0]), capacity, Rest(s, c, moves[0]), client, server, moves[1..]);
    }
  }

  /** Each stream is first in, first out: what was in it and what was written is what was read and what is in it. */
  lemma {:induction false} StreamsKeepOrder(s: Session, capacity: nat, moves: seq<Move>)
    requires IsRun(s, capacity, moves)
    ensures var t, said := After(s, capacity, moves), WrittenTalk(s, capacity, moves);
      && s.up + SaidBy(said, Up) == TakenBytes(s, capacity, moves, Down) + t.up
      && s.down + SaidBy(said, Down) == TakenBytes(s, capacity, moves, Up) + t.down
    decreases |moves|
  {
    if moves != [] {
      var m := moves[0];
      var u := Step(s, capacity, m);
      StreamsKeepOrder(u, capacity, moves[1..]);
      FirstMove(s, capacity, moves);
      hide *;
      var p := if m.party == Up then s.client else s.server;
      var later, t := WrittenTalk(u, capacity, moves[1..]), After(u, capacity, moves[1..]);
      SaidByTag(m.party, Sent(p, m.k), later, Up);
      SaidByTag(m.party, Sent(p, m.k), later, Down);
      StepKeepsOrder(s, capacity, m, SaidBy(later, Up), SaidBy(later, Down));
      Regroup(TakenNow(s, m, Down), TakenBytes(u, capacity, moves[1..], Down), t.up);
      Regroup(TakenNow(s, m, Up), TakenBytes(u, capacity, moves[1..], Up), t.down);
    }
  }

  lemma Regroup(x: seq<Byte>, y: seq<Byte>, z: seq<Byte>)
    ensures x + (y + z) == x + y + z
  {
  }

  lemma FirstMove(s: Session, capacity: nat, moves: seq<Move>)
    requires IsRun(s, capacity, moves) && moves != []
    ensures Enabled(s, capacity, moves[0]) && IsRun(Step(s, capacity, moves[0]), capacity, moves[1..])
    ensures var m := moves[0]; var u := Step(s, capacity, m); var p := if m.party == Up then s.client else s.server;
      && After(s, capacity, moves) == After(u, capacity, moves[1..])
      && WrittenTalk(s, capacity, moves) == Tag(m.party, Sent(p, m.k)) + WrittenTalk(u, capacity, moves[1..])
      && forall d :: TakenBytes(s, capacity, moves, d) == TakenNow(s, m, d) + TakenBytes(u, capacity, moves[1..], d)
  {
    hide Step, Enabled;
  }

  lemma StepKeepsOrder(s: Session, capacity: nat, m: Move, up: seq<Byte>, down: seq<Byte>)
    requires Enabled(s, capacity, m)
    ensures var u := Step(s, capacity, m);
      && s.up + ((if m.party == Up then Sent(s.client, m.k) else []) + up)
         == TakenNow(s, m, Down) + (u.up + up)
      && s.down + ((if m.party == Down then Sent(s.server, m.k) else []) + down)
         == TakenNow(s, m, Up) + (u.down + down)
  {
    hide Moved;
  }

  /** From empty streams, each party of a finished run has read exactly what the conversation has for it. */
  lemma FinishedRunDelivers(s: Session, capacity: nat, c: seq<Talk>, client: Outcome, server: Outcome, moves: seq<Move>)
    requires InTune(s, c, client, server) && capacity >= 1 && IsRun(s, capacity, moves) && s.up == [] && s.down == []
    requires Stuck(After(s, capacity, moves), capacity)
    ensures TakenBytes(s, capacity, moves, Down) == SaidBy(c, Up)
    ensures TakenBytes(s, capacity, moves, Up) == SaidBy(c, Down)
  {
    hide WrittenTalk, TakenBytes, SaidBy;
    WholeConversation(s, capacity, c, client, server, moves);
    StreamsKeepOrder(s, capacity, moves);
    ConversationRuns(s, capacity, c, client, server, moves);
    assert [] + SaidBy(c, Up) == SaidBy(c, Up) && [] + SaidBy(c, Down) == SaidBy(c, Down);
    assert TakenBytes(s, capacity, moves, Down) + [] == TakenBytes(s, capacity, moves, Down);
    assert TakenBytes(s, capacity, moves, Up) + [] == TakenBytes(s, capacity, moves, Up);
  }

  // ----- the two tasks -----

  lemma SaidInUpload(data: seq<Byte>, speed: nat, loss: nat)
    ensures SaidBy(UploadTalk(data, speed, loss), Up) == [1] + BigEndian(|data|, 8) + data + BigEndian(loss, 8)
    ensures SaidBy(UploadTalk(data, speed, loss), Down) == [1, 1] + BigEndian(speed, 8) + [1]
  {
    hide SaidBy, BigEndian;
    forall d ensures SaidBy(UploadTalk(data, speed, loss), d)
                     == (if d == Up then [1] + BigEndian(|data|, 8) + data + BigEndian(loss, 8)
                         else [1, 1] + BigEndian(speed, 8) + [1]) {
      var last := Tag(Down, ACK) + [];
      var report := Tag(Up, Field(loss)) + last;
      var closing := Tag(Down, ACK) + (Tag(Down, Field(speed)) + report);
      var bulk := Tag(Up, data) + closing;
      NothingSaid(d);
      SaidByTag(Down, ACK, [], d);
      SaidByTag(Up, Field(loss), last, d);
      SaidByTag(Down, Field(speed), report, d);
      SaidByTag(Down, ACK, Tag(Down, Field(speed)) + report, d);
      SaidByTag(Up, data, closing, d);
      SaidByTag(Down, ACK, bulk, d);
      SaidByTag(Up, Field(|data|), Tag(Down, ACK) + bulk, d);
      SaidByTag(Up, [TASK_UPLOAD], Tag(Up, Field(|data|)) + (Tag(Down, ACK) + bulk), d);
    }
  }

  lemma NothingSaid(d: Direction)
    ensures SaidBy([], d) == []
  {
  }

  lemma SaidInDownload(size: nat, speed: nat, loss: nat)
    ensures SaidBy(DownloadTalk(size, speed, loss), Up) == [2] + BigEndian(size, 8) + BigEndian(speed, 8) + BigEndian(loss, 8)
    ensures SaidBy(DownloadTalk(size, speed, loss), Down) == BigEndian(size, 8) + Pattern(size) + [1]
  {
    hide SaidBy, BigEndian, Pattern;
    forall d ensures SaidBy(DownloadTalk(size, speed, loss), d)
                     == (if d == Up then [2] + BigEndian(size, 8) + BigEndian(speed, 8) + BigEndian(loss, 8)
                         else BigEndian(size, 8) + Pattern(size) + [1]) {
      var last := Tag(Down, ACK) + [];
      var report := Tag(Up, Field(loss)) + last;
      var closing := Tag(Up, Field(speed)) + report;
      var bulk := Tag(Down, Pattern(size)) + closing;
      NothingSaid(d);
      SaidByTag(Down, ACK, [], d);
      SaidByTag(Up, Field(loss), last, d);
      SaidByTag(Up, Field(speed), report, d);
      SaidByTag(Down, Pattern(size), closing, d);
      SaidByTag(Down, Field(size), bulk, d);
      SaidByTag(Up, Field(size), Tag(Down, Field(size)) + bulk, d);
      SaidByTag(Up, [TASK_DOWNLOAD], Tag(Up, Field(size)) + (Tag(Down, Field(size)) + bulk), d);
    }
  }

  /** A finished upload: the server has read the task type, the size, the client's very data and its loss figure. */
  lemma UploadDelivers(data: seq<Byte>, speed: nat, loss: nat, capacity: nat, moves: seq<Move>)
    requires |data| < WORD && loss < WORD && capacity >= 1
    requires IsRun(Session(ClientUpload(data, loss), ServerProgram(speed), [], []), capacity, moves)
    requires Stuck(After(Session(ClientUpload(data, loss), ServerProgram(speed), [], []), capacity, moves), capacity)
    ensures var s := Session(ClientUpload(data, loss), ServerProgram(speed), [], []);
      && WrittenTalk(s, capacity, moves) == UploadTalk(data, speed, loss)
      && TakenBytes(s, capacity, moves, Down) == [1] + BigEndian(|data|, 8) + data + BigEndian(loss, 8)
      && TakenBytes(s, capacity, moves, Up) == [1, 1] + BigEndian(speed, 8) + [1]
  {
    hide Play, UploadTalk, WrittenTalk, TakenBytes, SaidBy, BigEndian, After, IsRun;
    var s, c := Session(ClientUpload(data, loss), ServerProgram(speed), [], []), UploadTalk(data, speed, loss);
    ClientPlaysUpload(data, speed, loss);
    ServerPlaysUpload(data, speed, loss);
    StartsInTune(ClientUpload(data, loss), ServerProgram(speed), c, Outcome(0, 0), Outcome(|data|, loss));
    WholeConversation(s, capacity, c, Outcome(0, 0), Outcome(|data|, loss), moves);
    FinishedRunDelivers(s, capacity, c, Outcome(0, 0), Outcome(|data|, loss), moves);
    SaidInUpload(data, speed, loss);
  }

  /** A finished download: the client has read the size, then bytes 100, 101, ... modulo 256, then the final acknowledgement. */
  lemma DownloadDelivers(size: nat, serverSpeed: nat, speed: nat, loss: nat, capacity: nat, moves: seq<Move>)
    requires size < WORD && loss < WORD && capacity >= 1
    requires IsRun(Session(ClientDownload(size, speed, loss), ServerProgram(serverSpeed), [], []), capacity, moves)
    requires Stuck(After(Session(ClientDownload(size, speed, loss), ServerProgram(serverSpeed), [], []), capacity, moves), capacity)
    ensures var s := Session(ClientDownload(size, speed, loss), ServerProgram(serverSpeed), [], []);
      && WrittenTalk(s, capacity, moves) == DownloadTalk(size, speed, loss)
      && TakenBytes(s, capacity, moves, Up) == BigEndian(size, 8) + seq(size, i => (i + 100) % 256) + [1]
      && TakenBytes(s, capacity, moves, Down) == [2] + BigEndian(size, 8) + BigEndian(speed, 8) + BigEndian(loss, 8)
  {
    hide Play, DownloadTalk, WrittenTalk, TakenBytes, SaidBy, BigEndian, After, IsRun;
    var s, c := Session(ClientDownload(size, speed, loss), ServerProgram(serverSpeed), [], []), DownloadTalk(size, speed, loss);
    ClientPlaysDownload(size, speed, loss);
    ServerPlaysDownload(size, serverSpeed, speed, loss);
    StartsInTune(ClientDownload(size, speed, loss), ServerProgram(serverSpeed), c, Outcome(size, 0), Outcome(0, loss));
    WholeConversation(s, capacity, c, Outcome(size, 0), Outcome(0, loss), moves);
    FinishedRunDelivers(s, capacity, c, Outcome(size, 0), Outcome(0, loss), moves);
    SaidInDownload(size, speed, loss);
    assert Pattern(size) == seq(size, i => (i + 100) % 256);
  }

  /** The order of the turns: who says what after what. */
  lemma TurnsOfUpload(data: seq<Byte>, speed: nat, loss: nat)
    ensures UploadTalk(data, speed, loss)
            == Tag(Up, [1] + BigEndian(|data|, 8)) + Tag(Down, [1]) + Tag(Up, data)
               + Tag(Down, [1] + BigEndian(speed, 8)) + Tag(Up, BigEndian(loss, 8)) + Tag(Down, [1])
  {
    hide BigEndian;
  }

  lemma TurnsOfDownload(size: nat, speed: nat, loss: nat)
    ensures DownloadTalk(size, speed, loss)
            == Tag(Up, [2] + BigEndian(size, 8)) + Tag(Down, BigEndian(size, 8) + seq(size, i => (i + 100) % 256))
               + Tag(Up, BigEndian(speed, 8) + BigEndian(loss, 8)) + Tag(Down, [1])
  {
    hide BigEndian;
    assert Pattern(size) == seq(size, i => (i + 100) % 256);
  }
}
