/** The client's estimate of how far the server's clock will have run when a packet arrives. */
module Calibration {
  import opened HopClock

  const FALLBACK := 10 * NS_PER_MS
  const MAX_ATTEMPTS := 3

  /**
   * One probe as it happens, in nanoseconds: the client's clock when it fills in the payload, sends, receives
   * and afterwards makes its next prediction, and the server's clock when the probe arrives.
   */
  datatype Attempt = Attempt(lost: bool, nowFill: int, tSend: int, tRecv: int, serverClock: int, nowAfter: int)

  /** The server answers 0 when the time stamp is its own clock, and its clock otherwise. */
  function ServerReply(clientStamp: int, serverClock: int): int {
    if clientStamp == serverClock then 0 else serverClock
  }

  lemma ReplyMeans(clientStamp: int, serverClock: int)
    requires serverClock > 0
    ensures ServerReply(clientStamp, serverClock) == 0 <==> clientStamp == serverClock
    ensures ServerReply(clientStamp, serverClock) in {0, serverClock}
  {
  }

  predicate Physical(a: Attempt) {
    a.serverClock > 0 && a.tSend <= a.tRecv
  }

  /** Server receive clock minus client send clock: what a prediction has to add. */
  function Forward(a: Attempt): int {
    a.serverClock - a.tSend
  }

  function Rtt(a: Attempt): int {
    a.tRecv - a.tSend
  }

  /** The measured clock difference: server clock minus the midpoint of the round trip. */
  function Delta(a: Attempt): int {
    a.serverClock - (a.tSend + GoDiv(Rtt(a), 2))
  }

  /** Whatever the asymmetry of the path, half the round trip put back gives the forward difference. */
  lemma DeltaPlusHalf(a: Attempt)
    ensures Delta(a) + GoDiv(Rtt(a), 2) == Forward(a) == a.serverClock - a.tSend
  {
  }

  /** The prediction of the server's clock made after attempt i - 1; negative before any. */
  function Prediction(attempts: seq<Attempt>, i: nat): int
    requires i <= |attempts|
  {
    if i == 0 then -1 else attempts[i - 1].nowAfter + Forward(attempts[i - 1])
  }

  /** The client clock reading that attempt i's stamp extrapolates from. */
  function Origin(attempts: seq<Attempt>, i: nat): int
    requires i < |attempts|
  {
    if Prediction(attempts, i) < 0 then attempts[i].nowFill else attempts[i - 1].nowAfter
  }

  function Stamp(attempts: seq<Attempt>, i: nat): int
    requires i < |attempts|
  {
    var predicted := Prediction(attempts, i);
    if predicted < 0 then attempts[i].nowFill else predicted
  }

  /** The attempt came back with a clock that differs from the stamp. */
  predicate Measured(attempts: seq<Attempt>, i: nat)
    requires i < |attempts|
  {
    !attempts[i].lost && Stamp(attempts, i) != attempts[i].serverClock
  }

  /** How many attempts are measured before one is lost or aligned. */
  function MeasuredBefore(attempts: seq<Attempt>, i: nat): (m: nat)
    requires i <= |attempts|
    ensures m <= i
    ensures forall j :: 0 <= j < m ==> Measured(attempts, j)
    ensures m < i ==> !Measured(attempts, m)
  {
    if i == 0 then 0
    else
      var m := MeasuredBefore(attempts, i - 1);
      if m == i - 1 && Measured(attempts, m) then i else m
  }

  function ForwardSum(attempts: seq<Attempt>, i: nat): int
    requires i <= |attempts|
  {
    if i == 0 then 0 else ForwardSum(attempts, i - 1) + Forward(attempts[i - 1])
  }

  /**
   * What the returned estimate is: nothing measured gives the fixed answers; a loss or an alignment after a
   * measurement gives that last forward difference exactly; three measurements give their mean to within 2 ns.
   */
  ghost predicate Estimate(attempts: seq<Attempt>, latency: int)
    requires |attempts| == MAX_ATTEMPTS
  {
    var m := MeasuredBefore(attempts, MAX_ATTEMPTS);
    if m == MAX_ATTEMPTS then -6 < MAX_ATTEMPTS * latency - ForwardSum(attempts, MAX_ATTEMPTS) < 6
    else if m > 0 then latency == Forward(attempts[m - 1])
    else latency == if attempts[0].lost then FALLBACK else 0
  }

  lemma TruncatedMean(d: int, r0: int, r1: int, r2: int)
    requires r0 >= 0 && r1 >= 0 && r2 >= 0
    ensures -6 < 3 * (GoDiv(d, 3) + GoDiv(GoDiv(r0 + r1 + r2, 3), 2)) - (d + GoDiv(r0, 2) + GoDiv(r1, 2) + GoDiv(r2, 2)) < 6
  {
  }

  /** The answer on each path. */
  ghost predicate Answer(a: Attempt, b: Attempt, c: Attempt, latency: int) {
    var stampB := a.nowAfter + a.serverClock - a.tSend;
    var stampC := b.nowAfter + b.serverClock - b.tSend;
    if a.lost then latency == 10_000_000
    else if a.nowFill == a.serverClock then latency == 0
    else if b.lost || (if stampB < 0 then b.nowFill else stampB) == b.serverClock then latency == a.serverClock - a.tSend
    else if c.lost || (if stampC < 0 then c.nowFill else stampC) == c.serverClock then latency == b.serverClock - b.tSend
    else
      var rtts := (a.tRecv - a.tSend) + (b.tRecv - b.tSend) + (c.tRecv - c.tSend);
      var deltas := (a.serverClock - (a.tSend + (a.tRecv - a.tSend) / 2)) + (b.serverClock - (b.tSend + (b.tRecv - b.tSend) / 2))
                    + (c.serverClock - (c.tSend + (c.tRecv - c.tSend) / 2));
      latency == (if deltas >= 0 then deltas / 3 else -(-deltas / 3)) + rtts / 3 / 2
  }

  /**
   * Path by path: nothing back at first is 10 ms and an immediate agreement 0; a loss or an agreement later is the last
   * forward difference; without either, each mean is truncated toward zero on its own.
   */
  lemma AnswerByPath(a: Attempt, b: Attempt, c: Attempt, latency: int)
    requires Physical(a) && Physical(b) && Physical(c) && Answer(a, b, c, latency)
    ensures a.lost ==> latency == 10_000_000
    ensures !a.lost && a.nowFill == a.serverClock ==> latency == 0
    ensures !a.lost && a.nowFill != a.serverClock && b.lost ==> latency == a.serverClock - a.tSend
    ensures var stamp := a.nowAfter + (a.serverClock - a.tSend); var sent := if stamp < 0 then b.nowFill else stamp;
            !a.lost && a.nowFill != a.serverClock && !b.lost ==>
              if sent == b.serverClock then latency == a.serverClock - a.tSend
              else
                var stamp' := b.nowAfter + (b.serverClock - b.tSend); var sent' := if stamp' < 0 then c.nowFill else stamp';
                if c.lost || sent' == c.serverClock then latency == b.serverClock - b.tSend
                else latency == GoDiv(Delta(a) + Delta(b) + Delta(c), 3) + GoDiv(GoDiv(Rtt(a) + Rtt(b) + Rtt(c), 3), 2)
  {
  }

  method SyncWithServer(attempts: seq<Attempt>) returns (latency: int)
    requires |attempts| == MAX_ATTEMPTS
    requires forall i :: 0 <= i < MAX_ATTEMPTS ==> Physical(attempts[i])
    ensures Estimate(attempts, latency)
    ensures Answer(attempts[0], attempts[1], attempts[2], latency)
  {
    hide Estimate, Answer, MeasuredBefore;
    var predictedServerNs := -1;
    var lastDelta, lastRtt, sumDelta, sumRtt, count := 0, 0, 0, 0, 0;
    for i := 0 to MAX_ATTEMPTS
      invariant count == i
      invariant forall j: nat :: j < i ==> Measured(attempts, j)
      invariant predictedServerNs == Prediction(attempts, i)
      invariant i > 0 ==> lastDelta == Delta(attempts[i - 1]) && lastRtt == Rtt(attempts[i - 1])
      invariant sumDelta == SumOfDeltas(attempts, i) && sumRtt == SumOfRtts(attempts, i)
    {
      var a := attempts[i];
      var toSend := if predictedServerNs < 0 then a.nowFill else predictedServerNs;
      var srvNs := ServerReply(toSend, a.serverClock);
      if a.lost || srvNs == 0 {
        assert !Measured(attempts, i);
        if i > 0 {
          DeltaPlusHalf(attempts[i - 1]);
        }
      }
      if a.lost {
        latency := if count > 0 then lastDelta + GoDiv(lastRtt, 2) else FALLBACK;
        StoppedAnswer(attempts, i, latency);
        return;
      }
      if srvNs == 0 {
        latency := if i == 0 then 0 else lastDelta + GoDiv(lastRtt, 2);
        StoppedAnswer(attempts, i, latency);
        return;
      }
      var rtt := a.tRecv - a.tSend;
      var delta := srvNs - (a.tSend + GoDiv(rtt, 2));
      lastDelta, lastRtt := delta, rtt;
      sumDelta, sumRtt := sumDelta + delta, sumRtt + rtt;
      count := count + 1;
      DeltaPlusHalf(a);
      predictedServerNs := a.nowAfter + delta + GoDiv(rtt, 2);
    }
    var avgDelta := GoDiv(sumDelta, count);
    var avgRtt := GoDiv(sumRtt, count);
    latency := avgDelta + GoDiv(avgRtt, 2);
    MeanAnswer(attempts, latency);
  }

  /** The run that ends with attempt i. */
  lemma StoppedAnswer(attempts: seq<Attempt>, i: nat, latency: int)
    requires |attempts| == MAX_ATTEMPTS && i < MAX_ATTEMPTS
    requires (forall j: nat :: j < i ==> Measured(attempts, j)) && !Measured(attempts, i)
    requires latency == if i > 0 then Forward(attempts[i - 1]) else if attempts[0].lost then FALLBACK else 0
    ensures Estimate(attempts, latency) && Answer(attempts[0], attempts[1], attempts[2], latency)
  {
    AllMeasured(attempts, i);
    StopsAt(attempts, i, MAX_ATTEMPTS);
    PathsInFields(attempts);
    hide MeasuredBefore, Measured;
  }

  /** The run in which all three are measured. */
  lemma MeanAnswer(attempts: seq<Attempt>, latency: int)
    requires |attempts| == MAX_ATTEMPTS
    requires forall i :: 0 <= i < MAX_ATTEMPTS ==> Physical(attempts[i])
    requires forall j: nat :: j < MAX_ATTEMPTS ==> Measured(attempts, j)
    requires latency == GoDiv(SumOfDeltas(attempts, 3), 3) + GoDiv(GoDiv(SumOfRtts(attempts, 3), 3), 2)
    ensures Estimate(attempts, latency) && Answer(attempts[0], attempts[1], attempts[2], latency)
  {
    AllMeasured(attempts, MAX_ATTEMPTS);
    PathsInFields(attempts);
    assert Measured(attempts, 0) && Measured(attempts, 1) && Measured(attempts, 2);
    ThreeSums(attempts);
    hide MeasuredBefore, Measured, SumOfDeltas, SumOfRtts;
    TruncatedMean(SumOfDeltas(attempts, 3), Rtt(attempts[0]), Rtt(attempts[1]), Rtt(attempts[2]));
  }

  lemma {:induction false} AllMeasured(attempts: seq<Attempt>, i: nat)
    requires i <= |attempts| && forall j: nat :: j < i ==> Measured(attempts, j)
    ensures MeasuredBefore(attempts, i) == i
  {
    if i > 0 {
      AllMeasured(attempts, i - 1);
    }
  }

  lemma PathsInFields(attempts: seq<Attempt>)
    requires |attempts| == 3
    ensures Measured(attempts, 0) <==> !attempts[0].lost && attempts[0].nowFill != attempts[0].serverClock
    ensures forall i :: 1 <= i <= 2 ==>
              var stamp := attempts[i - 1].nowAfter + attempts[i - 1].serverClock - attempts[i - 1].tSend;
              (Measured(attempts, i) <==>
                 !attempts[i].lost && (if stamp < 0 then attempts[i].nowFill else stamp) != attempts[i].serverClock)
  {
  }

  function SumOfDeltas(attempts: seq<Attempt>, i: nat): int
    requires i <= |attempts|
  {
    if i == 0 then 0 else SumOfDeltas(attempts, i - 1) + Delta(attempts[i - 1])
  }

  function SumOfRtts(attempts: seq<Attempt>, i: nat): int
    requires i <= |attempts|
  {
    if i == 0 then 0 else SumOfRtts(attempts, i - 1) + Rtt(attempts[i - 1])
  }

  lemma ThreeSums(attempts: seq<Attempt>)
    requires |attempts| == 3
    ensures SumOfRtts(attempts, 3) == Rtt(attempts[0]) + Rtt(attempts[1]) + Rtt(attempts[2])
    ensures SumOfDeltas(attempts, 3) == Delta(attempts[0]) + Delta(attempts[1]) + Delta(attempts[2])
    ensures ForwardSum(attempts, 3) == SumOfDeltas(attempts, 3) + GoDiv(Rtt(attempts[0]), 2)
                                       + GoDiv(Rtt(attempts[1]), 2) + GoDiv(Rtt(attempts[2]), 2)
  {
    assert SumOfRtts(attempts, 1) == Rtt(attempts[0]);
    assert SumOfDeltas(attempts, 1) == Delta(attempts[0]);
    assert ForwardSum(attempts, 1) == Forward(attempts[0]);
  }

  lemma {:induction false} StopsAt(attempts: seq<Attempt>, m: nat, i: nat)
    requires m < i <= |attempts| && MeasuredBefore(attempts, m) == m && !Measured(attempts, m)
    ensures MeasuredBefore(attempts, i) == m
    decreases i
  {
    if i > m + 1 {
      StopsAt(attempts, m, i - 1);
    }
  }

  /**
   * When the server confirms a stamp, the estimate returned is the exact forward difference of that very
   * probe, counted from the clock reading the stamp was made from; unless a negative prediction made the
   * client send its own clock instead, in which case only an estimate of 0 is.
   */
  lemma AlignedIsExact(attempts: seq<Attempt>, latency: int)
    requires |attempts| == MAX_ATTEMPTS && Estimate(attempts, latency)
    requires MeasuredBefore(attempts, MAX_ATTEMPTS) < MAX_ATTEMPTS
    requires !attempts[MeasuredBefore(attempts, MAX_ATTEMPTS)].lost
    ensures var m := MeasuredBefore(attempts, MAX_ATTEMPTS);
            latency == attempts[m].serverClock - Origin(attempts, m) <==> m == 0 || Prediction(attempts, m) >= 0 || latency == 0
  {
  }

  /** An estimate from measurements is at most 1 ns further from a packet's forward difference than the samples are. */
  lemma EstimateError(attempts: seq<Attempt>, latency: int, forward: int, jitter: nat)
    requires |attempts| == MAX_ATTEMPTS && Estimate(attempts, latency)
    requires MeasuredBefore(attempts, MAX_ATTEMPTS) > 0
    requires forall i :: 0 <= i < MeasuredBefore(attempts, MAX_ATTEMPTS) ==> forward - jitter <= Forward(attempts[i]) <= forward + jitter
    ensures forward - (jitter + 1) <= latency <= forward + jitter + 1
  {
    if MeasuredBefore(attempts, MAX_ATTEMPTS) == MAX_ATTEMPTS {
      ThreeForwards(attempts);
    }
  }

  lemma ThreeForwards(attempts: seq<Attempt>)
    requires |attempts| == MAX_ATTEMPTS
    ensures ForwardSum(attempts, MAX_ATTEMPTS) == Forward(attempts[0]) + Forward(attempts[1]) + Forward(attempts[2])
  {
    assert ForwardSum(attempts, 1) == Forward(attempts[0]);
  }
}
