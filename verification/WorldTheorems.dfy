// What the invariant says about every run of the composed system.

module DcpWorldTheorems {
  import opened Options
  import opened DcpFrame
  import opened DcpClock
  import opened DcpLink
  import opened DcpLinkRuns
  import opened DcpWorld
  import opened DcpWorldSafety

  lemma InitialInv(hdlc: bool, lcn: Octet)
    ensures Inv(InitialWorld(hdlc, lcn))
  {
    assert Waiting(InitialWorld(hdlc, lcn));
  }

  lemma {:induction false} RunInv(w: World, es: seq<Event>)
    requires Valid(w.sw) && Inv(w) && Legal(w, es) && Exec(w, es).clean
    ensures Inv(Exec(w, es))
    decreases |es|
  {
    hide Inv, Enabled, Idle, Valid, Next;
    if es != [] {
      StepInv(w, es[0]);
      CleanAfter(w, es[0]);
      RunInv(Next(w, es[0]), es[1..]);
    }
  }

  lemma CleanAfter(w: World, e: Event)
    requires Valid(w.sw) && Enabled(w, e)
    ensures Next(w, e).clean == (w.clean && (e.TermDm? ==> Idle(w)))
  {
    hide Xmt, Run, Rcv, Note, Put, Expires, TermIframe, TermRr, Address, Idle, Valid;
  }

  // A state some run reaches without overlapping handshakes.
  ghost predicate Reached(w: World) {
    exists hdlc: bool, lcn: Octet, es: seq<Event> ::
      Legal(InitialWorld(hdlc, lcn), es) && w == Exec(InitialWorld(hdlc, lcn), es) && w.clean
  }

  lemma ReachedInv(w: World)
    requires Reached(w)
    ensures Valid(w.sw) && Inv(w)
  {
    var hdlc: bool, lcn: Octet, es: seq<Event> :|
      Legal(InitialWorld(hdlc, lcn), es) && w == Exec(InitialWorld(hdlc, lcn), es) && w.clean;
    InitialInv(hdlc, lcn);
    hide Inv, Legal, Exec, InitialWorld;
    RunInv(InitialWorld(hdlc, lcn), es);
  }

  lemma UpIsJoined(w: World)
    requires Inv(w) && w.sw.state == LinkUp
    ensures Joined(w)
  {}

  // Forward delivery: while the link is up, what the terminal accepted is a prefix of
  // what was admitted for sending and at most one behind; the switch may send again
  // exactly when everything admitted is acknowledged, and then nothing is behind.
  lemma ForwardDelivery(w: World)
    requires Reached(w) && w.sw.state == LinkUp
    ensures w.tlog.accepted <= w.slog.admitted
    ensures |w.slog.admitted| <= |w.tlog.accepted| + 1
    ensures CanSend(w.sw) == DCP_OK <==> w.slog.acked == |w.slog.admitted|
    ensures CanSend(w.sw) == DCP_OK ==> w.tlog.accepted == w.slog.admitted
  {
    hide TermOk, FwdOk, RevOk, Ordered, Dedup, NonEmpty, DmLast, Loaded, Reached, Waiting, Valid;
    ReachedInv(w);
    UpIsJoined(w);
  }

  // Reception, for the LCNs an address can name: the payloads handed to the caller while
  // the link is up, with repeats of the same frame collapsed, are in order the terminal's
  // non-empty payloads, up to at most the newest one; every payload the terminal takes as
  // acknowledged is there. For any other LCN frames are acknowledged and nothing is handed up.
  lemma Reception(w: World)
    requires Reached(w) && w.sw.state == LinkUp
    ensures |w.tlog.sent| - 1 <= w.tlog.acked <= |w.tlog.sent|
    ensures w.sw.lcn < 16 ==>
      && Dedup(w.slog.handed) <= NonEmpty(w.tlog.sent, |w.tlog.sent|)
      && NonEmpty(w.tlog.sent, w.tlog.acked) <= Dedup(w.slog.handed)
    ensures w.sw.lcn >= 16 ==> w.slog.handed == []
  {
    ReachedInv(w);
    UpIsJoined(w);
    hide TermOk, FwdOk, RevOk, Ordered, Dedup, NonEmpty, DmLast;
    NonEmptyMonotone(w.tlog.sent, w.slog.seen, |w.tlog.sent|);
    NonEmptyMonotone(w.tlog.sent, w.tlog.acked, w.slog.seen);
  }

  // The switch call behind an event.
  function CallOf(w: World, e: Event): Step
    requires Valid(w.sw) && Enabled(w, e)
  {
    match e
    case Submit(cr, data, now, wres, _) => Xmt(w.sw, cr, data, now, wres)
    case Tick(now, wres, _) => Run(w.sw, now, wres)
    case Deliver(now, wres, _) => SwitchReads(w, now, wres).step
    case _ => Step(w.sw, DCP_OK, [])
  }

  // No frame of an earlier link is ever sent again: every I-frame written carries the
  // newest payload admitted on the current link, under that payload's number.
  lemma NoStaleFrame(w: World, e: Event)
    requires Reached(w) && Valid(w.sw) && Enabled(w, e) && WroteIframe(CallOf(w, e))
    ensures var admitted := Next(w, e).slog.admitted;
            && w.sw.state == LinkUp && admitted != []
            && CallOf(w, e).wrote[0].data == admitted[|admitted| - 1]
            && GetNs(CallOf(w, e).wrote[0].control) == (|admitted| - 1) % 8
  {
    hide Xmt, Run, Rcv, Joined, Waiting, Valid, Admitted, Octets, Acknowledged, Reached, IsRr;
    ReachedInv(w);
    var s := CallOf(w, e);
    match e
    case Submit(cr, data, now, wres, _) =>
      XmtFacts(w.sw, cr, data, now, wres);
      if Admits(w.sw, data) { AdmittedFrame(w, cr, Truncate(data), s); }
    case Tick(now, wres, _) =>
      RunFacts(w.sw, now, wres);
      if CanSend(w.sw) == DCP_OK {
        AdmittedFrame(w, true, [], s);
      } else {
        Outstanding(w);
        ResentFrame(w, s);
      }
    case Deliver(now, wres, _) =>
      PadOk(w);
      ReadsPacket(w.sw.hdlc, w.rev[0].pkt);
      ReadFacts(w.sw, now, Got(Octets(w.sw.hdlc, w.rev[0].pkt)), true, wres);
      DeliveredFrame(w, now, wres);
  }

  // A link that is up and may not send has a frame outstanding.
  lemma Outstanding(w: World)
    requires Inv(w) && w.sw.state == LinkUp && CanSend(w.sw) != DCP_OK
    ensures w.slog.admitted != [] && w.sw.xpkt.pktlen != 0
    ensures w.slog.acked == |w.slog.admitted| - 1
  {
    hide TermOk, FwdOk, RevOk, Ordered, Dedup, NonEmpty, DmLast;
  }

  lemma AdmittedFrame(w: World, cr: bool, data: seq<Octet>, s: Step)
    requires Inv(w) && CanSend(w.sw) == DCP_OK && Admitted(w.sw, cr, data, s)
    ensures w.sw.state == LinkUp && s.wrote[0].data == data
    ensures GetNs(s.wrote[0].control) == |w.slog.admitted| % 8
  {
    hide Joined, Waiting;
  }

  lemma ResentFrame(w: World, s: Step)
    requires Inv(w) && w.slog.admitted != [] && Resent(w.sw, s)
    ensures w.sw.state == LinkUp
    ensures s.wrote[0].data == w.slog.admitted[|w.slog.admitted| - 1]
    ensures GetNs(s.wrote[0].control) == (|w.slog.admitted| - 1) % 8
  {
    hide Joined, Waiting;
  }

  lemma DeliveredFrame(w: World, now: Option<Timespec>, wres: int)
    requires Valid(w.sw) && Inv(w) && w.rev != [] && WroteIframe(SwitchReads(w, now, wres).step)
    ensures var s := SwitchReads(w, now, wres).step;
            var admitted := Note(w.sw, w.slog, w.rev[0], SwitchReads(w, now, wres).data).admitted;
            && w.sw.state == LinkUp && admitted != []
            && s.wrote[0].data == admitted[|admitted| - 1]
            && GetNs(s.wrote[0].control) == (|admitted| - 1) % 8
  {
    hide Rcv, Valid, Octets, Waiting, Ordered, TermOk, FwdOk, DmLast, Dedup, NonEmpty, Address, RrPacket;
    var f, s := w.rev[0], SwitchReads(w, now, wres).step;
    PadOk(w);
    ReadsPacket(w.sw.hdlc, f.pkt);
    ReadFacts(w.sw, now, Got(Octets(w.sw.hdlc, f.pkt)), true, wres);
    assert w.sw.state == LinkUp && IsRr(f.pkt.control) && Resent(w.sw, s);
    UpIsJoined(w);
    PopRev(w);
    assert w.slog.admitted != [];
    ResentFrame(w, s);
  }

  // Once the switch may send, it stays so until a new frame is admitted or a DM
  // restarts the link.
  lemma ReadyPersists(w: World, e: Event)
    requires Reached(w) && Valid(w.sw) && Enabled(w, e) && CanSend(w.sw) == DCP_OK
    ensures var w' := Next(w, e);
            || CanSend(w'.sw) == DCP_OK
            || ((e.Submit? || e.Tick?) && |w'.slog.admitted| == |w.slog.admitted| + 1)
            || (e.Deliver? && w.rev[0].pkt.control == FRAME_DM)
  {
    hide Reached, Xmt, Run, Rcv, Octets, Inv, Valid, WroteBuffer, SameFrame, Address, RrPacket, Note;
    ReachedInv(w);
    match e
    case Submit(cr, data, now, wres, _) => XmtFacts(w.sw, cr, data, now, wres);
    case Tick(now, wres, _) => RunFacts(w.sw, now, wres);
    case Deliver(_, _, _) => ReadyDeliver(w, e);
    case Misread(now, failed) => ReadFacts(w.sw, now, if failed then Failed else Got([]), true, 0);
    case _ =>
  }

  lemma ReadyDeliver(w: World, e: Event)
    requires Inv(w) && Valid(w.sw) && Enabled(w, e) && CanSend(w.sw) == DCP_OK && e.Deliver?
    ensures CanSend(Next(w, e).sw) == DCP_OK || w.rev[0].pkt.control == FRAME_DM
  {
    hide Rcv, Octets, Waiting, Ordered, TermOk, FwdOk, DmLast, HandedOk, Address, RrPacket, Valid, Loaded,
         SameFrame, WroteBuffer;
    UpIsJoined(w);
    PopRev(w);
    ReadsPacket(w.sw.hdlc, w.rev[0].pkt);
    ReadFacts(w.sw, e.now, Got(Octets(w.sw.hdlc, w.rev[0].pkt)), true, e.wres);
  }

  // ---- frames in flight ----

  datatype Sort = Iframes | Rrs | Only(control: Octet)

  predicate Counted(f: Flight, sort: Sort) {
    match sort
    case Iframes => IsIFrame(f.pkt.control)
    case Rrs => IsRr(f.pkt.control)
    case Only(control) => f.pkt.control == control
  }

  // The number of packets of one sort in a queue.
  function Frames(q: seq<Flight>, sort: Sort): nat {
    if q == [] then 0 else Frames(q[..|q| - 1], sort) + if Counted(q[|q| - 1], sort) then 1 else 0
  }

  lemma FramesPut(q: seq<Flight>, f: Flight, sort: Sort)
    ensures Frames(q + [f], sort) == Frames(q, sort) + if Counted(f, sort) then 1 else 0
  {
    assert (q + [f])[..|q|] == q;
  }

  lemma {:induction false} FramesTake(q: seq<Flight>, i: nat, sort: Sort)
    requires i < |q|
    ensures Frames(q, sort) == Frames(Without(q, i), sort) + if Counted(q[i], sort) then 1 else 0
  {
    var n := |q| - 1;
    if i < n {
      FramesTake(q[..n], i, sort);
      assert Without(q, i) == Without(q[..n], i) + [q[n]];
      FramesPut(Without(q[..n], i), q[n], sort);
    } else {
      assert Without(q, i) == q[..n];
    }
  }

  function InFlight(w: World): nat { Frames(w.fwd, Iframes) + Frames(w.rev, Rrs) }

  // What one event does to the number of frames in flight and to the credits.
  lemma FlightStep(w: World, e: Event)
    requires Valid(w.sw) && Enabled(w, e) && InFlight(w) <= w.credits
    ensures InFlight(Next(w, e)) <= Next(w, e).credits
  {
    hide Xmt, Run, Rcv, Frames, Valid, Admitted, Note, Octets, TermIframe, Address, TermReads;
    match e
    case Submit(cr, data, now, wres, onWire) =>
      XmtFacts(w.sw, cr, data, now, wres);
      PutFlight(w.fwd, CallOf(w, e).wrote, onWire, Next(w, e).slog, Iframes);
    case Tick(now, wres, onWire) =>
      RunFacts(w.sw, now, wres);
      PutFlight(w.fwd, CallOf(w, e).wrote, onWire, Next(w, e).slog, Iframes);
    case Deliver(now, wres, onWire) => DeliverFlight(w, e);
    case Misread(now, failed) => ReadFacts(w.sw, now, if failed then Failed else Got([]), true, 0);
    case LoseFwd(i) => FramesTake(w.fwd, i, Iframes);
    case LoseRev(i) => FramesTake(w.rev, i, Rrs);
    case TermRead => TermFlight(w);
    case TermSubmit(payload) => OwnIframe(w.term); FramesPut(w.rev, Next(w, e).rev[|w.rev|], Rrs);
    case TermRepeat => OwnIframe(w.term); FramesPut(w.rev, Next(w, e).rev[|w.rev|], Rrs);
    case TermDm => FramesPut(w.rev, Next(w, e).rev[|w.rev|], Rrs);
    case TermDrop =>
  }

  lemma OwnIframe(t: Terminal)
    ensures !IsRr(TermIframe(t))
  {}

  lemma PutFlight(fwd: seq<Flight>, wrote: seq<Packet>, onWire: bool, log: SwitchLog, sort: Sort)
    ensures Frames(Put(fwd, wrote, onWire, log), sort) <=
            Frames(fwd, sort) + if wrote != [] && Counted(Flight(wrote[0], 0, 0), sort) then 1 else 0
  {
    if onWire && wrote != [] {
      FramesPut(fwd, Flight(wrote[0], |log.admitted| - 1, log.seen), sort);
    }
  }

  // Only an RR makes the switch write an I-frame, and it takes that RR off the line.
  lemma DeliverFlight(w: World, e: Event)
    requires Valid(w.sw) && Enabled(w, e) && e.Deliver?
    ensures InFlight(Next(w, e)) <= InFlight(w) && Next(w, e).credits == w.credits
  {
    hide Rcv, Frames, Valid, Note, Octets, WroteBuffer, SameFrame;
    var s := SwitchReads(w, e.now, e.wres).step;
    var o := Octets(w.sw.hdlc, w.rev[0].pkt);
    ReadFacts(w.sw, e.now, Got(o), true, e.wres);
    SecondOctet(w.sw.hdlc, w.rev[0].pkt);
    PutFlight(w.fwd, s.wrote, e.onWire, Next(w, e).slog, Iframes);
    FramesTake(w.rev, 0, Rrs);
    assert Without(w.rev, 0) == w.rev[1..];
  }

  lemma SecondOctet(hdlc: bool, p: Packet)
    ensures var o := Octets(hdlc, p); |o| >= 2 && o[1] == p.control
  {}

  // The terminal answers an I-frame with one RR, and nothing else with an RR.
  lemma TermFlight(w: World)
    requires w.fwd != []
    ensures InFlight(TermReads(w)) <= InFlight(w) && TermReads(w).credits == w.credits
  {
    hide Frames, Address;
    FramesTake(w.fwd, 0, Iframes);
    assert Without(w.fwd, 0) == w.fwd[1..];
    var w' := TermReads(w);
    if |w'.rev| > |w.rev| {
      FramesPut(w.rev, w'.rev[|w.rev|], Rrs);
    }
  }

  // Conservation, on every run, overlapping handshakes included: I-frames to the
  // terminal plus RRs from it never outnumber accepted submissions plus timer expiries.
  lemma {:induction false} Conservation(w: World, es: seq<Event>)
    requires Valid(w.sw) && Legal(w, es) && InFlight(w) <= w.credits
    ensures InFlight(Exec(w, es)) <= Exec(w, es).credits
    decreases |es|
  {
    hide InFlight, Next, Enabled, Valid;
    if es != [] {
      FlightStep(w, es[0]);
      Conservation(Next(w, es[0]), es[1..]);
    }
  }
}
