/** The four task routines as loops over a stream, proved against the stream programs of Tasks. */
module TaskLoops {
  import opened Bytes
  import opened Exchange
  import opened Tasks
  import opened Wrappers

  /**
   * One party's end of a stream pair whose peer keeps to a conversation. `rest` is what is still to pass; the peer
   * says nothing beyond its turn until it is answered. `chunk` decides how much each read returns. `program` is
   * the point the party has reached: every operation must be the one it names, and moves it on.
   */
  class Stream {
    const mine: Direction
    const chunk: nat -> nat
    var rest: seq<Talk>
    ghost var program: Program
    ghost const outcome: Outcome

    ghost predicate Valid()
      reads this
    {
      Play(program, mine, rest) == Some(outcome)
    }

    constructor (d: Direction, choice: nat -> nat, conversation: seq<Talk>, ghost p: Program, ghost o: Outcome)
      requires Play(p, d, conversation) == Some(o)
      ensures Valid() && mine == d && program == p && outcome == o && rest == conversation && chunk == choice
    {
      mine, chunk, rest, program, outcome := d, choice, conversation, p, o;
    }

    /** Any nonempty part of what the peer has said, up to the buffer's size. */
    method Available(limit: nat) returns (bytes: seq<Byte>)
      requires limit > 0 && rest != [] && rest[0].dir == Other(mine)
      modifies this`rest
      ensures 1 <= |bytes| <= limit && |bytes| <= |old(rest)|
      ensures Says(old(rest)[..|bytes|], Other(mine)) && bytes == Untag(old(rest)[..|bytes|])
      ensures rest == old(rest)[|bytes|..]
    {
      var want := 1 + chunk(|rest|) % limit;
      var k := 1;
      while k < want && k < |rest| && rest[k].dir == Other(mine)
        invariant 1 <= k <= want && k <= |rest|
        invariant Says(rest[..k], Other(mine))
      {
        k := k + 1;
      }
      bytes := Untag(rest[..k]);
      rest := rest[k..];
    }

    method Write(out: seq<Byte>)
      requires Valid() && program.Write? && program.out == out
      modifies this
      ensures Valid() && program == old(program).next
    {
      rest := rest[|out|..];
      program := program.next;
    }

    /** The peer's next n bytes come before anything it has to be asked for. */
    ghost predicate Hears(n: nat)
      reads this
    {
      0 < n <= |rest| && Says(rest[..n], Other(mine))
    }

    /** `io.ReadFull`: read until n bytes are there, and no more; what it resumes may have no place in a conversation. */
    method ReadFull(n: nat) returns (bytes: seq<Byte>)
      requires program.ReadFull? && program.need == n && program.got == []
      requires Valid() || Hears(n)
      modifies this
      ensures |bytes| == n <= |old(rest)| && bytes == Untag(old(rest)[..n])
      ensures rest == old(rest)[n..] && program == old(program).resume(bytes)
      ensures old(Valid()) ==> Valid()
    {
      ghost var before, next := rest, program.resume;
      assert Hears(n);
      assert forall i :: 0 <= i < n ==> before[..n][i] == before[i];
      bytes := [];
      while |bytes| < n
        invariant |bytes| <= n && bytes == Untag(before[..|bytes|]) && rest == before[|bytes|..]
        invariant program == if |bytes| == n then next(bytes) else Program.ReadFull(n, bytes, next)
      {
        ghost var had := |bytes|;
        var part := Available(n - |bytes|);
        assert before[had..][..|part|] == before[had..had + |part|];
        bytes := bytes + part;
        program := if |bytes| == n then next(bytes) else Program.ReadFull(n, bytes, next);
      }
      assert [] + bytes == bytes;
    }

    /** One `Read` of a bulk loop; never more than the loop still expects. */
    method Read(limit: nat) returns (bytes: seq<Byte>)
      requires Valid() && program.ReadLoop? && limit > 0
      modifies this
      ensures 1 <= |bytes| <= limit && old(program).received + |bytes| <= old(program).expected
      ensures Valid() && program == Loop(old(program).expected, old(program).received + |bytes|, old(program).leave)
    {
      ReadHears(program, mine, rest);
      ghost var before := rest;
      bytes := Available(limit);
      WithinBulk(program, mine, before, |bytes|);
      LoopReadKeeps(program.expected, program.received, program.leave, mine, before, |bytes|);
      program := Loop(program.expected, program.received + |bytes|, program.leave);
    }
  }

  lemma WithinBulk(p: Program, mine: Direction, c: seq<Talk>, k: nat)
    requires p.ReadLoop? && Play(p, mine, c).Some?
    requires k <= |c| && Says(c[..k], Other(mine))
    ensures p.received + k <= p.expected
  {
    assert forall i :: 0 <= i < k ==> c[..k][i] == c[i];
  }

  /** The bulk receive loop of both sides. */
  method ReceiveBulk(stream: Stream, expectedSize: nat, ghost leave: nat -> Program) returns (received: nat)
    requires stream.Valid() && stream.program == Loop(expectedSize, 0, leave)
    modifies stream
    ensures received == expectedSize
    ensures stream.Valid() && stream.program == leave(received)
  {
    received := 0;
    while received < expectedSize
      invariant received <= expectedSize
      invariant stream.Valid() && stream.program == Loop(expectedSize, received, leave)
    {
      var buf := stream.Read(READ_BUFFER);
      if |buf| == 0 {
        break;
      }
      received := received + |buf|;
    }
  }

  /** The chunked send loop of both sides. */
  method SendBulk(stream: Stream, data: seq<Byte>, ghost next: Program)
    requires stream.Valid() && stream.program == SendFrom(data, 0, next)
    modifies stream
    ensures stream.Valid() && stream.program == next
  {
    var sent := 0;
    while sent < |data|
      invariant sent <= |data|
      invariant stream.Valid() && stream.program == SendFrom(data, sent, next)
    {
      var end := sent + CHUNK;
      if end > |data| {
        end := |data|;
      }
      stream.Write(data[sent..end]);
      sent := end;
    }
  }

  method RunUploadServer(stream: Stream, speed: nat) returns (received: nat, clientLoss: nat)
    requires stream.Valid() && stream.program == ServerUpload(speed)
    modifies stream
    ensures stream.Valid() && stream.program == Done(Outcome(received, clientLoss))
  {
    hide Play, FromBigEndian, BigEndian;
    var sizeBuf := stream.ReadFull(8);
    var expectedSize := FromBigEndian(sizeBuf);
    stream.Write(ACK);
    received := ReceiveBulk(stream, expectedSize, (r: nat) => ServerUploaded(r, speed));
    stream.Write(ACK);
    stream.Write(Field(speed));
    sizeBuf := stream.ReadFull(8);
    clientLoss := FromBigEndian(sizeBuf);
    stream.Write(ACK);
  }

  method RunDownloadServer(stream: Stream) returns (clientLoss: nat)
    requires stream.Valid() && stream.program == ServerDownload()
    modifies stream
    ensures stream.Valid() && stream.program == Done(Outcome(0, clientLoss))
  {
    hide Play, FromBigEndian, BigEndian;
    var sizeBuf := stream.ReadFull(8);
    var sendSize := FromBigEndian(sizeBuf);
    stream.Write(Field(sendSize));
    SendBulk(stream, Pattern(sendSize), ServerSent());
    sizeBuf := stream.ReadFull(8);
    sizeBuf := stream.ReadFull(8);
    clientLoss := FromBigEndian(sizeBuf);
    stream.Write(ACK);
  }

  /** Two task types are carried out to their end; any other byte is an error, and nothing after it is read. */
  method HandleSingleTask(stream: Stream, speed: nat) returns (ok: bool, received: nat, clientLoss: nat)
    requires stream.program == ServerProgram(speed) && stream.Hears(1)
    requires stream.rest[0].byte in {1, 2} ==> stream.Valid()
    modifies stream
    ensures ok <==> old(stream.rest)[0].byte in {1, 2}
    ensures ok ==> stream.Valid() && stream.program == Done(Outcome(received, clientLoss))
    ensures !ok ==> stream.program == Failed && stream.rest == old(stream.rest)[1..]
  {
    var taskType := stream.ReadFull(1);
    ok, received, clientLoss := true, 0, 0;
    if taskType[0] == TASK_UPLOAD {
      assert taskType == [TASK_UPLOAD];
      received, clientLoss := RunUploadServer(stream, speed);
    } else if taskType[0] == TASK_DOWNLOAD {
      assert taskType == [TASK_DOWNLOAD];
      clientLoss := RunDownloadServer(stream);
    } else {
      ok := false;
    }
  }

  method RunUploadClient(stream: Stream, data: seq<Byte>, loss: nat)
    requires stream.Valid() && stream.program == ClientUpload(data, loss)
    modifies stream
    ensures stream.Valid() && stream.program == Done(Outcome(0, 0))
  {
    hide Play, FromBigEndian, BigEndian;
    stream.Write([TASK_UPLOAD]);
    stream.Write(Field(|data|));
    var ackBuf := stream.ReadFull(1);
    SendBulk(stream, data, ClientUploaded(loss));
    ackBuf := stream.ReadFull(1);
    var sizeBuf := stream.ReadFull(8);
    stream.Write(Field(loss));
    ackBuf := stream.ReadFull(1);
  }

  method RunDownloadClient(stream: Stream, size: nat, speed: nat, loss: nat) returns (received: nat)
    requires stream.Valid() && stream.program == ClientDownload(size, speed, loss)
    modifies stream
    ensures stream.Valid() && stream.program == Done(Outcome(received, 0))
  {
    hide Play, FromBigEndian, BigEndian;
    stream.Write([TASK_DOWNLOAD]);
    stream.Write(Field(size));
    var sizeBuf := stream.ReadFull(8);
    var expectedSize := FromBigEndian(sizeBuf);
    received := ReceiveBulk(stream, expectedSize, (r: nat) => ClientDownloaded(r, speed, loss));
    stream.Write(Field(speed));
    stream.Write(Field(loss));
    var ackBuf := stream.ReadFull(1);
  }
}
