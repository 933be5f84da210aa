// The retransmission timer over whole runs of calls. Every call
// stamps the clock, but only dcp_run subtracts what has passed since the last stamp: the
// timer follows the time measured by timer calls, not the time that passes.

module DcpLinkTimer {
  import opened Options
  import opened DcpFrame
  import opened DcpClock
  import opened DcpLink
  import opened DcpLinkRuns

  // A link with a frame outstanding, in its buffer.
  ghost predicate Busy(l: Link) {
    Valid(l) && l.state == LinkUp && CanSend(l) == DCP_BUSY && l.xpkt.pktlen != 0
  }

  predicate NoReception(ins: seq<Input>) { forall i <- ins :: !i.RcvIn? }

  // The milliseconds one call takes off the timer.
  function Measures(l: Link, i: Input): nat {
    if i.RunIn? && i.now.Some? && Millis(l.time, i.now.value) >= 0 then Millis(l.time, i.now.value) else 0
  }

  // What the timer calls of a run measured together.
  function TotalMeasured(l: Link, ins: seq<Input>): nat
    requires Valid(l)
  {
    if ins == [] then 0
    else
      var front := ins[..|ins| - 1];
      TotalMeasured(l, front) + Measures(After(l, front), ins[|ins| - 1])
  }

  // How many I-frames a run writes.
  function Writes(l: Link, ins: seq<Input>): nat
    requires Valid(l)
  {
    if ins == [] then 0
    else
      var front := ins[..|ins| - 1];
      Writes(l, front) + if WroteIframe(Do(After(l, front), ins[|ins| - 1])) then 1 else 0
  }

  ghost predicate WritesSome(l: Link, ins: seq<Input>)
    requires Valid(l)
  {
    exists k :: 0 <= k < |ins| && WroteIframe(Call(l, ins, k))
  }

  lemma {:induction false} WritesCounted(l: Link, ins: seq<Input>)
    requires Valid(l)
    ensures WritesSome(l, ins) <==> Writes(l, ins) > 0
  {
    hide Do, Valid, WroteIframe, After;
    if ins != [] {
      var n := |ins| - 1;
      var front := ins[..n];
      WritesCounted(l, front);
      CallIs(l, ins, n);
      forall k | 0 <= k < n ensures Call(l, ins, k) == Call(l, front, k) {
        CallIs(l, ins, k);
        CallIs(l, front, k);
        assert front[..k] == ins[..k];
      }
      if WritesSome(l, front) {
        var k :| 0 <= k < n && WroteIframe(Call(l, front, k));
        assert WroteIframe(Call(l, ins, k));
      }
    }
  }

  // One call that receives nothing leaves a busy link busy; it writes an I-frame exactly
  // when it is a timer call that measures what is left of the timer.
  lemma BusyStep(l: Link, i: Input)
    requires Busy(l) && l.retransmit > 0 && !i.RcvIn?
    ensures var s := Do(l, i);
            && Busy(s.link)
            && (WroteIframe(s) <==> l.retransmit <= Measures(l, i))
            && s.link.retransmit == if WroteIframe(s) then IFRAME_RETRANSMIT else l.retransmit - Measures(l, i)
  {
    hide Rcv, Xmt, Run, Address, Millis;
    TimerExactly(l, i);
    match i
    case XmtIn(now, cr, data, wres) => XmtFacts(l, cr, data, now, wres);
    case RunIn(now, wres) => RunFacts(l, now, wres);
  }

  // After any run without reception the timer holds what is left of its first period, or
  // has been restarted once for every 300 ms measured beyond it.
  lemma {:induction false} TimerState(l: Link, ins: seq<Input>)
    requires Busy(l) && l.retransmit > 0 && NoReception(ins)
    ensures var last, writes, measured := After(l, ins), Writes(l, ins), TotalMeasured(l, ins);
            && Busy(last) && last.retransmit > 0
            && if writes == 0 then last.retransmit == l.retransmit - measured
               else IFRAME_RETRANSMIT * writes - last.retransmit <= measured - l.retransmit && measured >= l.retransmit
                    && last.retransmit <= IFRAME_RETRANSMIT
  {
    hide Valid, Do, Measures, WroteIframe;
    if ins != [] {
      var front := ins[..|ins| - 1];
      TimerState(l, front);
      BusyStep(After(l, front), ins[|ins| - 1]);
    }
  }

  // The timer law: in a run of any submissions and timer calls without a reception, a busy
  // link writes an I-frame if and only if the timer calls together measured at least what
  // the timer held, and once for every 300 ms beyond that at most.
  lemma WrittenExactly(l: Link, ins: seq<Input>)
    requires Busy(l) && l.retransmit > 0 && NoReception(ins)
    ensures WritesSome(l, ins) <==> TotalMeasured(l, ins) >= l.retransmit
    ensures WritesSome(l, ins) ==>
      IFRAME_RETRANSMIT * Writes(l, ins) <= TotalMeasured(l, ins) - l.retransmit + IFRAME_RETRANSMIT
    ensures l.retransmit >= IFRAME_RETRANSMIT ==> IFRAME_RETRANSMIT * Writes(l, ins) <= TotalMeasured(l, ins)
  {
    hide Valid, Writes, TotalMeasured, After, WritesSome;
    TimerState(l, ins);
    WritesCounted(l, ins);
  }

  // ---- starvation ----

  // Every timer call comes less than a millisecond after a submission.
  predicate Polled(ins: seq<Input>) {
    forall k :: 0 <= k < |ins| && ins[k].RunIn? ==>
      && 0 < k && ins[k - 1].XmtIn? && ins[k - 1].data != []
      && ins[k - 1].now.Some? && ins[k].now.Some?
      && Millis(ins[k - 1].now.value, ins[k].now.value) <= 0
  }

  // Submissions that are refused as busy still stamp the clock, so a caller that submits
  // before every timer call keeps the outstanding frame from ever being sent again, however
  // much time passes.
  lemma {:induction false} Starved(l: Link, ins: seq<Input>)
    requires Busy(l) && l.retransmit > 0 && NoReception(ins) && Polled(ins)
    ensures TotalMeasured(l, ins) == 0 && !WritesSome(l, ins) && After(l, ins).retransmit == l.retransmit
  {
    hide Do, WritesSome, Writes, Valid, After, Millis;
    NothingMeasured(l, ins);
    WrittenExactly(l, ins);
    WritesCounted(l, ins);
    TimerState(l, ins);
  }

  lemma {:induction false} NothingMeasured(l: Link, ins: seq<Input>)
    requires Valid(l) && Polled(ins)
    ensures TotalMeasured(l, ins) == 0
  {
    hide Do, Valid, Millis;
    if ins != [] {
      var n := |ins| - 1;
      var front := ins[..n];
      NothingMeasured(l, front);
      if ins[n].RunIn? {
        assert front[..n - 1] == ins[..n - 1] && front[n - 1] == ins[n - 1];
        ClockStamp(After(l, front[..n - 1]), ins[n - 1]);
      }
    }
  }

  // A caller that finds the link busy at each of these times and runs the timer then.
  function Polls(ts: seq<Timespec>, data: seq<Octet>): seq<Input> {
    seq(2 * |ts|, k requires 0 <= k < 2 * |ts| =>
      if k % 2 == 0 then XmtIn(Some(ts[k / 2]), true, data, 0) else RunIn(Some(ts[k / 2]), 0))
  }

  lemma StarvedByPolling(l: Link, ts: seq<Timespec>, data: seq<Octet>)
    requires Busy(l) && l.retransmit > 0 && data != []
    ensures !WritesSome(l, Polls(ts, data)) && After(l, Polls(ts, data)).retransmit == l.retransmit
  {
    hide WritesSome, After, Valid;
    var ins := Polls(ts, data);
    forall k | 0 <= k < |ins| && ins[k].RunIn?
      ensures 0 < k && ins[k - 1] == XmtIn(ins[k].now, true, data, 0) && Millis(ins[k].now.value, ins[k].now.value) == 0
    {
      assert (k - 1) / 2 == k / 2;
    }
    Starved(l, ins);
  }

  // ---- timer calls alone ----

  // The clock values a run of timer calls reads, from the last stamp on.
  function Clocks(l: Link, ins: seq<Input>): seq<Timespec>
    requires forall i <- ins :: i.RunIn? && i.now.Some?
  {
    [l.time] + seq(|ins|, k requires 0 <= k < |ins| => assert ins[k] in ins; ins[k].now.value)
  }

  lemma {:induction false} MeasuredIsTotal(l: Link, ins: seq<Input>)
    requires Valid(l) && (forall i <- ins :: i.RunIn? && i.now.Some?) && Monotone(Clocks(l, ins))
    ensures TotalMeasured(l, ins) == TotalMillis(Clocks(l, ins))
    ensures After(l, ins).time == Clocks(l, ins)[|ins|]
  {
    hide Do, Valid, Millis;
    if ins != [] {
      var n := |ins| - 1;
      var front, ts := ins[..n], Clocks(l, ins);
      assert ins[n] in ins;
      assert forall i <- front :: i in ins;
      assert ts[..n + 1] == Clocks(l, front);
      assert forall k :: 0 <= k <= n ==> Clocks(l, front)[k] == ts[k];
      MeasuredIsTotal(l, front);
      MillisAccurate(ts[n], ts[n + 1]);
      ClockStamp(After(l, front), ins[n]);
    }
  }

  // With timer calls alone the timer follows the clock: n calls retransmit by the time the
  // timer and n milliseconds have passed, and not before the timer less n milliseconds.
  lemma ElapsedBound(l: Link, ins: seq<Input>)
    requires Busy(l) && l.retransmit > 0 && ins != []
    requires (forall i <- ins :: i.RunIn? && i.now.Some?) && Monotone(Clocks(l, ins))
    ensures var n := |ins|;
            var elapsed := Clocks(l, ins)[n].Nanos() - l.time.Nanos();
            && (elapsed >= (l.retransmit + n) * 1_000_000 ==> WritesSome(l, ins))
            && (elapsed <= (l.retransmit - n) * 1_000_000 ==> !WritesSome(l, ins))
  {
    hide WritesSome, TotalMeasured, TotalMillis, After;
    MeasuredIsTotal(l, ins);
    TotalAccurate(Clocks(l, ins));
    WrittenExactly(l, ins);
  }

  // ---- with receptions ----

  predicate Takes(l: Link, i: Input, iframe: bool) {
    && i.RcvIn? && i.read.Got? && PacketLength(l.hdlc, |i.read.octets|) >= 2
    && if iframe then IsIFrame(i.read.octets[1]) else IsRr(i.read.octets[1])
  }

  // The timer's period: the long one from the last I-frame received on.
  function Period(l: Link, ins: seq<Input>): int
    requires Valid(l)
  {
    if ins == [] then l.retransmit
    else
      var front := ins[..|ins| - 1];
      if Takes(After(l, front), ins[|ins| - 1], true) then KEEPALIVE_RETRANSMIT else Period(l, front)
  }

  // What timer calls measured since the last I-frame received.
  function Since(l: Link, ins: seq<Input>): nat
    requires Valid(l)
  {
    if ins == [] then 0
    else
      var front, i := ins[..|ins| - 1], ins[|ins| - 1];
      if Takes(After(l, front), i, true) then 0 else Since(l, front) + Measures(After(l, front), i)
  }

  // The frame is not acknowledged and the link not restarted.
  ghost predicate StaysBusy(l: Link, ins: seq<Input>)
    requires Valid(l)
  {
    forall k :: 0 <= k <= |ins| ==> Busy(After(l, ins[..k]))
  }

  // The last call of a run is an RR that does not acknowledge, or the period is over.
  ghost predicate Due(l: Link, ins: seq<Input>)
    requires Valid(l)
  {
    ins != [] && (Takes(After(l, ins[..|ins| - 1]), ins[|ins| - 1], false) || Since(l, ins) >= Period(l, ins))
  }

  // One call that leaves a busy link busy, receptions included.
  lemma TrafficStep(l: Link, i: Input)
    requires Busy(l) && l.retransmit > 0 && Busy(Do(l, i).link)
    ensures var s := Do(l, i);
            && (WroteIframe(s) <==> Takes(l, i, false) || l.retransmit <= Measures(l, i))
            && (!WroteIframe(s) ==>
                  s.link.retransmit ==
                  if Takes(l, i, true) then KEEPALIVE_RETRANSMIT else l.retransmit - Measures(l, i))
  {
    hide Rcv, Xmt, Run, Address, Millis, RrPacket;
    if i.RcvIn? {
      TimerExactly(l, i);
      ReadFacts(l, i.now, i.read, i.wantData, i.wres);
    } else {
      BusyStep(l, i);
    }
  }

  lemma {:induction false} QuietTimer(l: Link, ins: seq<Input>)
    requires Busy(l) && l.retransmit > 0 && StaysBusy(l, ins) && Writes(l, ins) == 0
    ensures After(l, ins).retransmit == Period(l, ins) - Since(l, ins) > 0
  {
    hide Valid, Do, Measures, WroteIframe, Takes, CanSend;
    if ins != [] {
      var n := |ins| - 1;
      var front := ins[..n];
      BusyFront(l, ins, n);
      QuietTimer(l, front);
      assert ins[..|ins|] == ins;
      TrafficStep(After(l, front), ins[n]);
    }
  }

  lemma BusyFront(l: Link, ins: seq<Input>, n: nat)
    requires Valid(l) && n <= |ins| && StaysBusy(l, ins)
    ensures StaysBusy(l, ins[..n]) && Busy(After(l, ins[..n]))
  {
    hide Busy, After, Valid;
    forall k | 0 <= k <= n ensures Busy(After(l, ins[..n][..k])) {
      assert ins[..n][..k] == ins[..k];
    }
  }

  lemma {:induction false} WritesAtMost(l: Link, ins: seq<Input>, n: nat)
    requires Valid(l) && n <= |ins|
    ensures Writes(l, ins[..n]) <= Writes(l, ins)
    decreases |ins|
  {
    hide Do, Valid, WroteIframe;
    if n < |ins| {
      WritesAtMost(l, ins[..|ins| - 1], n);
      assert ins[..|ins| - 1][..n] == ins[..n];
    } else {
      assert ins[..n] == ins;
    }
  }

  lemma DueWrites(l: Link, ins: seq<Input>)
    requires Busy(l) && l.retransmit > 0 && StaysBusy(l, ins) && Due(l, ins)
    ensures Writes(l, ins) > 0
  {
    hide Valid, Do, Measures, WroteIframe, Takes, CanSend, After, Since, Period;
    var n := |ins| - 1;
    var front := ins[..n];
    if Writes(l, ins) == 0 {
      QuietTimer(l, ins);
      WritesAtMost(l, ins, n);
      BusyFront(l, ins, n);
      QuietTimer(l, front);
      BusyFront(l, ins, |ins|);
      assert ins[..|ins|] == ins;
      LastCall(l, ins);
      TrafficStep(After(l, front), ins[n]);
    }
  }

  lemma LastCall(l: Link, ins: seq<Input>)
    requires Valid(l) && ins != []
    ensures After(l, ins) == Do(After(l, ins[..|ins| - 1]), ins[|ins| - 1]).link
  {
    hide Do, Valid;
  }

  // A run that writes has a prefix at whose end a write was due.
  lemma {:induction false} FirstDue(l: Link, ins: seq<Input>) returns (k: nat)
    requires Busy(l) && l.retransmit > 0 && StaysBusy(l, ins) && Writes(l, ins) > 0
    ensures k <= |ins| && Due(l, ins[..k])
    decreases |ins|
  {
    hide Valid, Do, Measures, WroteIframe, Takes, CanSend, After;
    var n := |ins| - 1;
    var front := ins[..n];
    BusyFront(l, ins, n);
    if Writes(l, front) > 0 {
      k := FirstDue(l, front);
      assert front[..k] == ins[..k];
    } else {
      QuietTimer(l, front);
      BusyFront(l, ins, |ins|);
      assert ins[..|ins|] == ins;
      LastCall(l, ins);
      TrafficStep(After(l, front), ins[n]);
      RunTakesNothing(After(l, front), ins[n]);
      k := |ins|;
    }
  }

  lemma RunTakesNothing(l: Link, i: Input)
    ensures Measures(l, i) > 0 ==> !Takes(l, i, true)
  {}

  // The timer law with receptions: as long as the frame stays unacknowledged, an I-frame is
  // written in a run of any calls if and only if an RR is read, or timer calls measure a
  // whole period without an I-frame received in between. I-frames received put the
  // retransmission off, although they acknowledge nothing.
  lemma WrittenWithTraffic(l: Link, ins: seq<Input>)
    requires Busy(l) && l.retransmit > 0 && StaysBusy(l, ins)
    ensures WritesSome(l, ins) <==> exists k :: 0 <= k <= |ins| && Due(l, ins[..k])
  {
    hide Valid, Due, Writes, WritesSome, After, CanSend;
    WritesCounted(l, ins);
    if Writes(l, ins) > 0 {
      var k := FirstDue(l, ins);
    }
    forall k | 0 <= k <= |ins| && Due(l, ins[..k]) ensures Writes(l, ins) > 0 {
      BusyFront(l, ins, k);
      DueWrites(l, ins[..k]);
      WritesAtMost(l, ins, k);
    }
  }

  // The times of one reception and of the timer call after it.
  datatype Round = Round(received: Timespec, ticked: Timespec)

  function Traffic(rounds: seq<Round>, octets: seq<Octet>): seq<Input> {
    if rounds == [] then []
    else
      var r := rounds[|rounds| - 1];
      Traffic(rounds[..|rounds| - 1], octets)
        + [RcvIn(Some(r.received), Got(octets), true, 0)] + [RunIn(Some(r.ticked), 0)]
  }

  // A terminal that keeps sending I-frames with a stale N(R) starves the retransmission
  // too, as long as no timer call measures 1010 ms: its frames may come at any times, for
  // as long as it likes.
  lemma {:induction false} StarvedByTraffic(l: Link, rounds: seq<Round>, octets: seq<Octet>)
    requires Busy(l) && l.retransmit > 0
    requires PacketLength(l.hdlc, |octets|) >= 2 && IsIFrame(octets[1]) && GetNr(octets[1]) != Succ(l.localNs)
    requires forall r <- rounds :: Millis(r.received, r.ticked) < KEEPALIVE_RETRANSMIT
    ensures Writes(l, Traffic(rounds, octets)) == 0 && !WritesSome(l, Traffic(rounds, octets))
    ensures var last := After(l, Traffic(rounds, octets));
            Busy(last) && last.retransmit > 0 && last.localNs == l.localNs && last.hdlc == l.hdlc
  {
    hide Valid, Millis;
    var ins := Traffic(rounds, octets);
    if rounds != [] {
      var n := |rounds| - 1;
      var front, r := rounds[..n], rounds[n];
      var a, b := RcvIn(Some(r.received), Got(octets), true, 0), RunIn(Some(r.ticked), 0);
      StarvedByTraffic(l, front, octets);
      assert r in rounds;
      var before := Traffic(front, octets);
      var m := After(l, before);
      TrafficRound(m, r, octets);
      hide Do, WroteIframe, Busy;
      assert (before + [a])[..|before|] == before && ins[..|before| + 1] == before + [a];
      assert ins[|before| + 1] == b && |ins| == |before| + 2;
    }
    WritesCounted(l, ins);
  }

  lemma TrafficRound(l: Link, r: Round, octets: seq<Octet>)
    requires Busy(l) && l.retransmit > 0
    requires PacketLength(l.hdlc, |octets|) >= 2 && IsIFrame(octets[1]) && GetNr(octets[1]) != Succ(l.localNs)
    requires Millis(r.received, r.ticked) < KEEPALIVE_RETRANSMIT
    ensures var s := Do(l, RcvIn(Some(r.received), Got(octets), true, 0));
            var t := Do(s.link, RunIn(Some(r.ticked), 0));
            && !WroteIframe(s) && !WroteIframe(t) && Busy(t.link) && t.link.retransmit > 0
            && t.link.localNs == l.localNs && t.link.hdlc == l.hdlc
  {
    hide Rcv, Run, Millis, Address;
    var i, j := RcvIn(Some(r.received), Got(octets), true, 0), RunIn(Some(r.ticked), 0);
    ReadFacts(l, i.now, i.read, true, 0);
    TimerExactly(l, i);
    ClockStamp(l, i);
    var m := Do(l, i).link;
    BusyStep(m, j);
    RunFacts(m, j.now, 0);
  }
}
