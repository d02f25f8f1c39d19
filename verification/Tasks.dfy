/** The upload and download tasks of client and server, as stream programs and as the loops that run them. */
module Tasks {
  import opened Bytes
  import opened Exchange
  import opened Wrappers

  const CHUNK := 64 * 1024
  const TASK_UPLOAD: Byte := 1
  const TASK_DOWNLOAD: Byte := 2
  const ACK: seq<Byte> := [1]

  /** An 8-byte big-endian field. */
  function Field(v: nat): (s: seq<Byte>)
    ensures |s| == 8
  {
    BigEndian(v, 8)
  }

  lemma FieldRoundTrip(v: nat)
    requires v < WORD
    ensures FromBigEndian(Field(v)) == v
  {
    assert Pow256(4) == 0x1_0000_0000;
    assert Pow256(8) == 256 * (256 * (256 * (256 * Pow256(4))));
    BigEndianRoundTrip(v, 8);
  }

  /** The chunked send loop, `sent` bytes in. */
  function SendFrom(data: seq<Byte>, sent: nat, next: Program): Program
    decreases |data| - sent
  {
    if sent < |data| then
      var end := if sent + CHUNK > |data| then |data| else sent + CHUNK;
      Write(data[sent..end], SendFrom(data, end, next))
    else next
  }

  /** Data goes out in writes of 64 KiB, the last one shorter. */
  lemma ChunksMean(data: seq<Byte>, sent: nat, next: Program)
    requires sent <= |data|
    ensures SendFrom(data, sent, next)
            == if |data| - sent > 65536 then Write(data[sent..sent + 65536], SendFrom(data, sent + 65536, next))
               else if sent < |data| then Write(data[sent..], next)
               else next
  {
    assert data[sent..|data|] == data[sent..];
  }

  // ----- the programs -----

  /** The client's upload; `loss` is the figure it computes for its own packets. */
  function ClientUpload(data: seq<Byte>, loss: nat): Program {
    Write([TASK_UPLOAD], Write(Field(|data|), ReadFull(1, [], ready => SendFrom(data, 0, ClientUploaded(loss)))))
  }

  function ClientUploaded(loss: nat): Program {
    ReadFull(1, [], complete => ReadFull(8, [], speed => Write(Field(loss), ReadFull(1, [], final => Done(Outcome(0, 0))))))
  }

  function ClientDownload(size: nat, speed: nat, loss: nat): Program {
    Write([TASK_DOWNLOAD], Write(Field(size), ReadFull(8, [], b => Loop(FromBigEndian(b), 0, (r: nat) => ClientDownloaded(r, speed, loss)))))
  }

  function ClientDownloaded(received: nat, speed: nat, loss: nat): Program {
    Write(Field(speed), Write(Field(loss), ReadFull(1, [], final => Done(Outcome(received, 0)))))
  }

  function ServerProgram(speed: nat): Program {
    ReadFull(1, [], t => ServerTask(t, speed))
  }

  function ServerTask(t: seq<Byte>, speed: nat): Program {
    if t == [TASK_UPLOAD] then ServerUpload(speed)
    else if t == [TASK_DOWNLOAD] then ServerDownload()
    else Failed
  }

  function ServerUpload(speed: nat): Program {
    ReadFull(8, [], b => Write(ACK, Loop(FromBigEndian(b), 0, (r: nat) => ServerUploaded(r, speed))))
  }

  function ServerUploaded(received: nat, speed: nat): Program {
    Write(ACK, Write(Field(speed), ReadFull(8, [], loss => Write(ACK, Done(Outcome(received, FromBigEndian(loss)))))))
  }

  function ServerDownload(): Program {
    ReadFull(8, [], b => ServerSends(FromBigEndian(b)))
  }

  function ServerSends(size: nat): Program {
    Write(Field(size), SendFrom(Pattern(size), 0, ServerSent()))
  }

  function ServerSent(): Program {
    ReadFull(8, [], speed => ReadFull(8, [], loss => Write(ACK, Done(Outcome(0, FromBigEndian(loss))))))
  }

  /** The bytes the server makes up for a download. */
  function Pattern(size: nat): (s: seq<Byte>)
    ensures |s| == size
  {
    seq(size, i requires 0 <= i < size => (i + 100) % 256)
  }

  // ----- the conversations -----

  function UploadTalk(data: seq<Byte>, speed: nat, loss: nat): seq<Talk> {
    Tag(Up, [TASK_UPLOAD]) + (Tag(Up, Field(|data|)) + (Tag(Down, ACK) + (Tag(Up, data) + UploadClosing(speed, loss))))
  }

  function UploadClosing(speed: nat, loss: nat): seq<Talk> {
    Tag(Down, ACK) + (Tag(Down, Field(speed)) + (Tag(Up, Field(loss)) + (Tag(Down, ACK) + [])))
  }

  function DownloadTalk(size: nat, speed: nat, loss: nat): seq<Talk> {
    Tag(Up, [TASK_DOWNLOAD]) + (Tag(Up, Field(size)) + (Tag(Down, Field(size)) + (Tag(Down, Pattern(size)) + DownloadClosing(speed, loss))))
  }

  function DownloadClosing(speed: nat, loss: nat): seq<Talk> {
    Tag(Up, Field(speed)) + (Tag(Up, Field(loss)) + (Tag(Down, ACK) + []))
  }

  lemma PlayWrite(out: seq<Byte>, next: Program, mine: Direction, c: seq<Talk>)
    requires out != []
    ensures Play(Write(out, next), mine, Tag(mine, out) + c) == Play(next, mine, c)
  {
    assert (Tag(mine, out) + c)[..|out|] == Tag(mine, out) && (Tag(mine, out) + c)[|out|..] == c;
  }

  lemma PlayRead(bytes: seq<Byte>, resume: seq<Byte> -> Program, mine: Direction, c: seq<Talk>)
    requires bytes != []
    ensures Play(ReadFull(|bytes|, [], resume), mine, Tag(Other(mine), bytes) + c) == Play(resume(bytes), mine, c)
  {
    var all := Tag(Other(mine), bytes) + c;
    assert all[..|bytes|] == Tag(Other(mine), bytes) && all[|bytes|..] == c;
    assert [] + Untag(all[..|bytes|]) == bytes;
  }

  lemma PlayLoop(bytes: seq<Byte>, leave: nat -> Program, mine: Direction, c: seq<Talk>)
    requires c != [] && c[0].dir == mine
    ensures Play(Loop(|bytes|, 0, leave), mine, Tag(Other(mine), bytes) + c) == Play(leave(|bytes|), mine, c)
  {
    var all := Tag(Other(mine), bytes) + c;
    assert all[..|bytes|] == Tag(Other(mine), bytes) && all[|bytes|..] == c;
    if bytes == [] {
      assert all == c;
    }
  }

  lemma {:induction false} PlaySend(data: seq<Byte>, sent: nat, next: Program, mine: Direction, c: seq<Talk>)
    requires sent <= |data|
    ensures Play(SendFrom(data, sent, next), mine, Tag(mine, data[sent..]) + c) == Play(next, mine, c)
    decreases |data| - sent
  {
    hide Play;
    if sent < |data| {
      var end := if sent + CHUNK > |data| then |data| else sent + CHUNK;
      PlaySend(data, end, next, mine, c);
      assert Tag(mine, data[sent..]) + c == Tag(mine, data[sent..end]) + (Tag(mine, data[end..]) + c);
      PlayWrite(data[sent..end], SendFrom(data, end, next), mine, Tag(mine, data[end..]) + c);
    } else {
      assert Tag(mine, data[sent..]) + c == c;
    }
  }

  // ----- upload -----

  lemma ClientPlaysUpload(data: seq<Byte>, speed: nat, loss: nat)
    ensures Play(ClientUpload(data, loss), Up, UploadTalk(data, speed, loss)) == Some(Outcome(0, 0))
  {
    hide Play;
    var closing := UploadClosing(speed, loss);
    var bulk := Tag(Up, data) + closing;
    var send := (ready: seq<Byte>) => SendFrom(data, 0, ClientUploaded(loss));
    PlayWrite([TASK_UPLOAD], Write(Field(|data|), ReadFull(1, [], send)), Up, Tag(Up, Field(|data|)) + (Tag(Down, ACK) + bulk));
    PlayWrite(Field(|data|), ReadFull(1, [], send), Up, Tag(Down, ACK) + bulk);
    PlayRead(ACK, send, Up, bulk);
    assert data[0..] == data;
    PlaySend(data, 0, ClientUploaded(loss), Up, closing);
    ClientClosesUpload(speed, loss);
  }

  lemma ClientClosesUpload(speed: nat, loss: nat)
    ensures Play(ClientUploaded(loss), Up, UploadClosing(speed, loss)) == Some(Outcome(0, 0))
  {
    var tail := Tag(Up, Field(loss)) + (Tag(Down, ACK) + []);
    var final := (f: seq<Byte>) => Done(Outcome(0, 0));
    var report := (s: seq<Byte>) => Write(Field(loss), ReadFull(1, [], final));
    PlayRead(ACK, complete => ReadFull(8, [], report), Up, Tag(Down, Field(speed)) + tail);
    PlayRead(Field(speed), report, Up, tail);
    PlayWrite(Field(loss), ReadFull(1, [], final), Up, Tag(Down, ACK) + []);
    PlayRead(ACK, final, Up, []);
  }

  lemma ServerPlaysUpload(data: seq<Byte>, speed: nat, loss: nat)
    requires |data| < WORD && loss < WORD
    ensures Play(ServerProgram(speed), Down, UploadTalk(data, speed, loss)) == Some(Outcome(|data|, loss))
  {
    hide Play;
    var closing := UploadClosing(speed, loss);
    var bulk := Tag(Up, data) + closing;
    var leave := (r: nat) => ServerUploaded(r, speed);
    var size := (b: seq<Byte>) => Write(ACK, Loop(FromBigEndian(b), 0, leave));
    FieldRoundTrip(|data|);
    PlayRead([TASK_UPLOAD], t => ServerTask(t, speed), Down, Tag(Up, Field(|data|)) + (Tag(Down, ACK) + bulk));
    PlayRead(Field(|data|), size, Down, Tag(Down, ACK) + bulk);
    PlayWrite(ACK, Loop(|data|, 0, leave), Down, bulk);
    assert closing[0].dir == Down;
    PlayLoop(data, leave, Down, closing);
    ServerClosesUpload(|data|, speed, loss);
  }

  lemma ServerClosesUpload(received: nat, speed: nat, loss: nat)
    requires loss < WORD
    ensures Play(ServerUploaded(received, speed), Down, UploadClosing(speed, loss)) == Some(Outcome(received, loss))
  {
    hide Play;
    var final := (b: seq<Byte>) => Write(ACK, Done(Outcome(received, FromBigEndian(b))));
    FieldRoundTrip(loss);
    PlayWrite(ACK, Write(Field(speed), ReadFull(8, [], final)), Down,
              Tag(Down, Field(speed)) + (Tag(Up, Field(loss)) + (Tag(Down, ACK) + [])));
    PlayWrite(Field(speed), ReadFull(8, [], final), Down, Tag(Up, Field(loss)) + (Tag(Down, ACK) + []));
    PlayRead(Field(loss), final, Down, Tag(Down, ACK) + []);
    PlayWrite(ACK, Done(Outcome(received, loss)), Down, []);
    PlayDone(Outcome(received, loss), Down);
  }

  lemma PlayDone(o: Outcome, mine: Direction)
    ensures Play(Done(o), mine, []) == Some(o)
  {
  }

  // ----- download -----

  lemma ClientPlaysDownload(size: nat, speed: nat, loss: nat)
    requires size < WORD
    ensures Play(ClientDownload(size, speed, loss), Up, DownloadTalk(size, speed, loss)) == Some(Outcome(size, 0))
  {
    hide Play;
    var closing := DownloadClosing(speed, loss);
    var bulk := Tag(Down, Pattern(size)) + closing;
    var leave := (r: nat) => ClientDownloaded(r, speed, loss);
    var start := (b: seq<Byte>) => Loop(FromBigEndian(b), 0, leave);
    FieldRoundTrip(size);
    PlayWrite([TASK_DOWNLOAD], Write(Field(size), ReadFull(8, [], start)), Up, Tag(Up, Field(size)) + (Tag(Down, Field(size)) + bulk));
    PlayWrite(Field(size), ReadFull(8, [], start), Up, Tag(Down, Field(size)) + bulk);
    PlayRead(Field(size), start, Up, bulk);
    assert closing[0].dir == Up;
    PlayLoop(Pattern(size), leave, Up, closing);
    ClientClosesDownload(size, speed, loss);
  }

  lemma ClientClosesDownload(received: nat, speed: nat, loss: nat)
    ensures Play(ClientDownloaded(received, speed, loss), Up, DownloadClosing(speed, loss)) == Some(Outcome(received, 0))
  {
    hide Play;
    var final := (f: seq<Byte>) => Done(Outcome(received, 0));
    PlayWrite(Field(speed), Write(Field(loss), ReadFull(1, [], final)), Up, Tag(Up, Field(loss)) + (Tag(Down, ACK) + []));
    PlayWrite(Field(loss), ReadFull(1, [], final), Up, Tag(Down, ACK) + []);
    PlayRead(ACK, final, Up, []);
    PlayDone(Outcome(received, 0), Up);
  }

  lemma ServerPlaysDownload(size: nat, serverSpeed: nat, speed: nat, loss: nat)
    requires size < WORD && loss < WORD
    ensures Play(ServerProgram(serverSpeed), Down, DownloadTalk(size, speed, loss)) == Some(Outcome(0, loss))
  {
    hide Play;
    var closing := DownloadClosing(speed, loss);
    var bulk := Tag(Down, Pattern(size)) + closing;
    FieldRoundTrip(size);
    PlayRead([TASK_DOWNLOAD], t => ServerTask(t, serverSpeed), Down, Tag(Up, Field(size)) + (Tag(Down, Field(size)) + bulk));
    PlayRead(Field(size), b => ServerSends(FromBigEndian(b)), Down, Tag(Down, Field(size)) + bulk);
    PlayWrite(Field(size), SendFrom(Pattern(size), 0, ServerSent()), Down, bulk);
    assert Pattern(size)[0..] == Pattern(size);
    PlaySend(Pattern(size), 0, ServerSent(), Down, closing);
    ServerClosesDownload(speed, loss);
  }

  lemma ServerClosesDownload(speed: nat, loss: nat)
    requires loss < WORD
    ensures Play(ServerSent(), Down, DownloadClosing(speed, loss)) == Some(Outcome(0, loss))
  {
    hide Play;
    var final := (b: seq<Byte>) => Write(ACK, Done(Outcome(0, FromBigEndian(b))));
    FieldRoundTrip(loss);
    PlayRead(Field(speed), s => ReadFull(8, [], final), Down, Tag(Up, Field(loss)) + (Tag(Down, ACK) + []));
    PlayRead(Field(loss), final, Down, Tag(Down, ACK) + []);
    PlayWrite(ACK, Done(Outcome(0, loss)), Down, []);
    PlayDone(Outcome(0, loss), Down);
  }

  // ----- the exchanges -----

  lemma StartsInTune(client: Program, server: Program, c: seq<Talk>, rc: Outcome, rs: Outcome)
    requires Play(client, Up, c) == Some(rc) && Play(server, Down, c) == Some(rs)
    ensures InTune(Session(client, server, [], []), c, rc, rs)
  {
    assert Tag(Up, []) + c == c;
  }

  /**
   * Upload: at every point of every run, for any stream capacity of at least one byte and any chunking, at most
   * one direction holds bytes, no loop can read past its size and nobody fails; runs are bounded; and a run that
   * can go no further leaves the server with exactly the announced bytes and the client's loss figure.
   */
  lemma UploadRuns(data: seq<Byte>, speed: nat, loss: nat, capacity: nat, moves: seq<Move>)
    requires |data| < WORD && loss < WORD && capacity >= 1
    requires IsRun(Session(ClientUpload(data, loss), ServerProgram(speed), [], []), capacity, moves)
    ensures var s := After(Session(ClientUpload(data, loss), ServerProgram(speed), [], []), capacity, moves);
      && Safe(s)
      && |moves| <= 2 * |data| + 56
      && ((forall m :: !Enabled(s, capacity, m)) ==> s == Session(Done(Outcome(0, 0)), Done(Outcome(|data|, loss)), [], []))
  {
    var c := UploadTalk(data, speed, loss);
    ClientPlaysUpload(data, speed, loss);
    ServerPlaysUpload(data, speed, loss);
    StartsInTune(ClientUpload(data, loss), ServerProgram(speed), c, Outcome(0, 0), Outcome(|data|, loss));
    ConversationRuns(Session(ClientUpload(data, loss), ServerProgram(speed), [], []), capacity, c, Outcome(0, 0), Outcome(|data|, loss), moves);
  }

  /** Download: the same, and the client ends with exactly the bytes it asked for. */
  lemma DownloadRuns(size: nat, serverSpeed: nat, speed: nat, loss: nat, capacity: nat, moves: seq<Move>)
    requires size < WORD && loss < WORD && capacity >= 1
    requires IsRun(Session(ClientDownload(size, speed, loss), ServerProgram(serverSpeed), [], []), capacity, moves)
    ensures var s := After(Session(ClientDownload(size, speed, loss), ServerProgram(serverSpeed), [], []), capacity, moves);
      && Safe(s)
      && |moves| <= 2 * size + 68
      && ((forall m :: !Enabled(s, capacity, m)) ==> s == Session(Done(Outcome(size, 0)), Done(Outcome(0, loss)), [], []))
  {
    var c := DownloadTalk(size, speed, loss);
    ClientPlaysDownload(size, speed, loss);
    ServerPlaysDownload(size, serverSpeed, speed, loss);
    StartsInTune(ClientDownload(size, speed, loss), ServerProgram(serverSpeed), c, Outcome(size, 0), Outcome(0, loss));
    ConversationRuns(Session(ClientDownload(size, speed, loss), ServerProgram(serverSpeed), [], []), capacity, c, Outcome(size, 0), Outcome(0, loss), moves);
  }
}
