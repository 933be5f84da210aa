// Terminals that count: how many more DMs they have sent than SABMs taken when they send
// another. One that sends a DM only when it has taken a SABM for every DM before keeps
// handshakes from overlapping.

module DcpWorldPatience {
  import opened DcpFrame
  import opened DcpLink
  import opened DcpLinkRuns
  import opened DcpWorld
  import opened DcpWorldTheorems

  // DMs sent minus SABMs taken, after one more event. The terminal knows both numbers.
  function Unanswered(w: World, e: Event, n: int): int
    requires Enabled(w, e)
  {
    if e.TermDm? then n + 1
    else if e.TermRead? && w.fwd[0].pkt.control == FRAME_SABM then n - 1
    else n
  }

  // A run, starting with n DMs unanswered, in which the terminal never sends a DM with more
  // than k of them unanswered.
  ghost predicate Patient(w: World, es: seq<Event>, n: int, k: int)
    requires Valid(w.sw) && Legal(w, es)
    decreases |es|
  {
    es == [] ||
    ((es[0].TermDm? ==> n <= k) && Patient(Next(w, es[0]), es[1..], Unanswered(w, es[0], n), k))
  }

  lemma {:induction false} CountNone(q: seq<Flight>, control: Octet)
    ensures Frames(q, Only(control)) == 0 ==> forall f <- q :: f.pkt.control != control
  {
    if q != [] {
      CountNone(q[..|q| - 1], control);
      assert forall f <- q :: f in q[..|q| - 1] || f == q[|q| - 1];
    }
  }

  // The handshake packets on the line.
  function Handshakes(w: World): nat { Frames(w.rev, Only(FRAME_DM)) + Frames(w.fwd, Only(FRAME_SABM)) }

  // Only a DM makes the switch send a SABM, and it takes that DM off the line.
  lemma DeliverCount(w: World, e: Event)
    requires Valid(w.sw) && Enabled(w, e) && e.Deliver?
    ensures Handshakes(Next(w, e)) <= Handshakes(w)
  {
    hide Rcv, Frames, Valid, Note, Octets, WroteBuffer, SameFrame, RrPacket;
    var s := SwitchReads(w, e.now, e.wres).step;
    ReadFacts(w.sw, e.now, Got(Octets(w.sw.hdlc, w.rev[0].pkt)), true, e.wres);
    SecondOctet(w.sw.hdlc, w.rev[0].pkt);
    SabmOnlyOnDm(w.sw, RcvIn(e.now, Got(Octets(w.sw.hdlc, w.rev[0].pkt)), true, e.wres));
    PutFlight(w.fwd, s.wrote, e.onWire, Next(w, e).slog, Only(FRAME_SABM));
    FramesTake(w.rev, 0, Only(FRAME_DM));
    assert Without(w.rev, 0) == w.rev[1..];
  }

  lemma SabmOnlyOnDm(l: Link, i: Input)
    requires Valid(l)
    ensures WroteSabm(Do(l, i)) ==> IsDm(l, i)
  {
    hide Do;
    StepInvariant(l, i);
  }

  lemma CallCount(w: World, e: Event)
    requires Valid(w.sw) && Enabled(w, e) && (e.Submit? || e.Tick? || e.Misread?)
    ensures Handshakes(Next(w, e)) <= Handshakes(w)
  {
    hide Xmt, Run, Rcv, Frames, Valid, Note, Expires;
    match e
    case Submit(cr, data, now, wres, onWire) =>
      SabmOnlyOnDm(w.sw, XmtIn(now, cr, data, wres));
      PutFlight(w.fwd, CallOf(w, e).wrote, onWire, Next(w, e).slog, Only(FRAME_SABM));
    case Tick(now, wres, onWire) =>
      SabmOnlyOnDm(w.sw, RunIn(now, wres));
      PutFlight(w.fwd, CallOf(w, e).wrote, onWire, Next(w, e).slog, Only(FRAME_SABM));
    case Misread(now, failed) => ReadFacts(w.sw, now, if failed then Failed else Got([]), true, 0);
  }

  lemma TermCount(w: World)
    requires w.fwd != []
    ensures Handshakes(TermReads(w)) <= Handshakes(w) - if w.fwd[0].pkt.control == FRAME_SABM then 1 else 0
  {
    hide Frames, Address;
    FramesTake(w.fwd, 0, Only(FRAME_SABM));
    assert Without(w.fwd, 0) == w.fwd[1..];
    var w' := TermReads(w);
    if |w'.rev| > |w.rev| {
      FramesPut(w.rev, w'.rev[|w.rev|], Only(FRAME_DM));
    }
  }

  lemma UnansweredStep(w: World, e: Event, n: int)
    requires Valid(w.sw) && Enabled(w, e) && Handshakes(w) <= n
    ensures Handshakes(Next(w, e)) <= Unanswered(w, e, n)
  {
    hide Xmt, Run, Rcv, Frames, Valid, Address, TermReads, TermRr, Note;
    match e
    case Submit(_, _, _, _, _) => CallCount(w, e);
    case Tick(_, _, _) => CallCount(w, e);
    case Deliver(_, _, _) => DeliverCount(w, e);
    case Misread(_, _) => CallCount(w, e);
    case LoseFwd(i) => FramesTake(w.fwd, i, Only(FRAME_SABM));
    case LoseRev(i) => FramesTake(w.rev, i, Only(FRAME_DM));
    case TermRead => TermCount(w);
    case TermSubmit(payload) => FramesPut(w.rev, Next(w, e).rev[|w.rev|], Only(FRAME_DM));
    case TermRepeat => FramesPut(w.rev, Next(w, e).rev[|w.rev|], Only(FRAME_DM));
    case TermDm => FramesPut(w.rev, Next(w, e).rev[|w.rev|], Only(FRAME_DM));
    case TermDrop =>
  }

  lemma IdleWhenAnswered(w: World)
    requires Handshakes(w) == 0
    ensures Idle(w)
  {
    CountNone(w.rev, FRAME_DM);
    CountNone(w.fwd, FRAME_SABM);
  }

  lemma {:induction false} PatientRun(w: World, es: seq<Event>, n: int, k: int)
    requires Valid(w.sw) && Legal(w, es) && w.clean && Handshakes(w) <= n && k <= 0 && Patient(w, es, n, k)
    ensures Exec(w, es).clean
    decreases |es|
  {
    hide Next, Enabled, Valid, Handshakes, Unanswered, Idle;
    if es != [] {
      UnansweredStep(w, es[0], n);
      if es[0].TermDm? { IdleWhenAnswered(w); }
      CleanAfter(w, es[0]);
      PatientRun(Next(w, es[0]), es[1..], Unanswered(w, es[0], n), k);
    }
  }

  // With no DM unanswered when another is sent handshakes never overlap, whatever is lost
  // and whatever the switch does: delivery, reception, progress and the rest hold.
  lemma PatientTerminal(hdlc: bool, lcn: Octet, es: seq<Event>, k: int)
    requires Legal(InitialWorld(hdlc, lcn), es) && k <= 0 && Patient(InitialWorld(hdlc, lcn), es, 0, k)
    ensures Reached(Exec(InitialWorld(hdlc, lcn), es))
  {
    hide Legal, Exec, Patient;
    PatientRun(InitialWorld(hdlc, lcn), es, 0, k);
  }
}
