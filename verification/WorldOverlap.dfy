// Why handshakes must not overlap: a terminal that repeats its DM before the first one
// was answered, and then restarts, makes a stale UA open the link too early.

module DcpWorldOverlap {
  import opened Options
  import opened DcpFrame
  import opened DcpLink
  import opened DcpLinkRuns
  import opened DcpWorld
  import opened DcpWorldSafety
  import opened DcpWorldTheorems
  import opened DcpWorldProgress

  const READ := Deliver(None, 2, true)

  // The effect of delivering each kind of packet with a write that succeeds.
  lemma DeliverCases(w: World)
    requires Valid(w.sw) && w.rev != [] && |w.rev[0].pkt.pad| == 2
    ensures var w', control := Next(w, READ), w.rev[0].pkt.control;
            && w'.rev == w.rev[1..] && w'.term == w.term && w'.tlog == w.tlog
            && (control == FRAME_DM ==>
                  && w'.sw.state == ExpectUa && w'.slog == EMPTY_SWITCH_LOG && w'.sw.xpkt == w.sw.xpkt
                  && w'.fwd == w.fwd + [Flight(SabmPacket(w.sw.lcn), -1, 0)])
            && (control == FRAME_UA && w.sw.state == ExpectUa ==>
                  && w'.sw.state == LinkUp && w'.sw.localNs == 7 && w'.sw.remoteNr == 0
                  && w'.slog == w.slog && w'.fwd == w.fwd && w'.sw.xpkt == w.sw.xpkt)
            && (IsRr(control) && w.sw.state == LinkUp ==>
                  && w'.sw.state == LinkUp && w'.sw.localNs == w.sw.localNs
                  && w'.sw.remoteNr == GetNr(control) && w'.slog == w.slog.(acked := w.rev[0].ack)
                  && (GetNr(control) != Succ(w.sw.localNs) && w.sw.xpkt.pktlen != 0 ==>
                        WroteIframe(CallOf(w, READ)) && Resent(w.sw, CallOf(w, READ))))
  {
    hide Rcv, Octets, WroteBuffer, SameFrame, Acknowledged, Address, RrPacket;
    var o := Octets(w.sw.hdlc, w.rev[0].pkt);
    ReadsPacket(w.sw.hdlc, w.rev[0].pkt);
    ReadFacts(w.sw, None, Got(o), true, 2);
    if IsRr(w.rev[0].pkt.control) && Resent(w.sw, CallOf(w, READ)) { ResentIsIframe(w.sw, CallOf(w, READ)); }
  }

  lemma ResentIsIframe(l: Link, s: Step)
    requires Resent(l, s)
    ensures WroteIframe(s)
  {}

  lemma SubmitOne(w: World, x: Octet)
    requires Valid(w.sw) && CanSend(w.sw) == DCP_OK
    ensures var w' := Next(w, Submit(true, [x], None, 3, true));
            && w'.sw.state == LinkUp && w'.sw.localNs == Succ(w.sw.localNs) == w'.sw.remoteNr
            && w'.slog == Admit(w.slog, [x]) && w'.term == w.term && w'.tlog == w.tlog && w'.rev == w.rev
            && Loaded(w'.sw.xpkt, [x])
            && |w'.fwd| == |w.fwd| + 1 && w'.fwd[..|w.fwd|] == w.fwd
            && var p := w'.fwd[|w.fwd|].pkt;
               IsIFrame(p.control) && GetNs(p.control) == w'.sw.localNs && p.data == [x]
  {
    hide Xmt;
    XmtFacts(w.sw, true, [x], None, 3);
    assert Truncate([x]) == [x];
  }

  lemma DmCase(w: World)
    requires Valid(w.sw) && !w.term.up
    ensures var w' := Next(w, TermDm);
            && w'.sw == w.sw && w'.term == w.term && w'.slog == w.slog && w'.tlog == w.tlog && w'.fwd == w.fwd
            && |w'.rev| == |w.rev| + 1 && w'.rev[..|w.rev|] == w.rev
            && var p := w'.rev[|w.rev|].pkt; p.control == FRAME_DM && |p.pad| == 2
  {}

  lemma SabmCase(w: World)
    requires Valid(w.sw) && w.fwd != [] && w.fwd[0].pkt.control == FRAME_SABM
    ensures var w' := Next(w, TermRead);
            && w'.sw == w.sw && w'.term == Terminal(true, 0, 0, None)
            && w'.slog == w.slog && w'.tlog == EMPTY_TERM_LOG && w'.fwd == w.fwd[1..]
            && |w'.rev| == |w.rev| + 1 && w'.rev[..|w.rev|] == w.rev
            && var p := w'.rev[|w.rev|].pkt; p.control == FRAME_UA && |p.pad| == 2
  {}

  lemma AcceptCase(w: World)
    requires Valid(w.sw) && w.fwd != [] && w.term.up && w.tlog == EMPTY_TERM_LOG && w.term.vr == 0
    requires IsIFrame(w.fwd[0].pkt.control) && GetNs(w.fwd[0].pkt.control) == 0
    ensures var w' := Next(w, TermRead);
            && w'.sw == w.sw && w'.slog == w.slog && w'.tlog.accepted == [w.fwd[0].pkt.data] && w'.fwd == w.fwd[1..]
            && |w'.rev| == |w.rev| + 1 && w'.rev[..|w.rev|] == w.rev
            && var f := w'.rev[|w.rev|];
               IsRr(f.pkt.control) && GetNr(f.pkt.control) == 1 && f.ack == 1 && |f.pkt.pad| == 2
  {
    hide Address;
  }

  lemma DropCase(w: World)
    requires Valid(w.sw) && w.term.up
    ensures Next(w, TermDrop) == w.(term := w.term.(up := false))
  {}

  lemma LoseCase(w: World)
    requires Valid(w.sw) && w.rev != []
    ensures Next(w, LoseRev(0)) == w.(rev := w.rev[1..])
  {
    assert w.rev[..0] + w.rev[1..] == w.rev[1..];
  }

  // The control octets on the line.
  ghost predicate Line(w: World, fwd: seq<Octet>, rev: seq<Octet>) {
    && |w.fwd| == |fwd| && (forall i :: 0 <= i < |fwd| ==> w.fwd[i].pkt.control == fwd[i])
    && |w.rev| == |rev| && (forall i :: 0 <= i < |rev| ==> w.rev[i].pkt.control == rev[i] && |w.rev[i].pkt.pad| == 2)
  }

  const TWO_DMS := [TermDm, TermDm, READ, READ]
  const RESTART := [TermRead, TermDrop, TermDm, TermRead]
  const FIRST := [READ, Submit(true, [1], None, 3, true), TermRead]
  const REOPEN := [READ, READ]

  // Two DMs are answered by two SABMs.
  lemma TwoDms(lcn: Octet) returns (w: World)
    ensures Legal(InitialWorld(false, lcn), TWO_DMS) && w == Exec(InitialWorld(false, lcn), TWO_DMS)
    ensures w.sw.state == ExpectUa && w.slog == EMPTY_SWITCH_LOG && !w.term.up
    ensures Line(w, [FRAME_SABM, FRAME_SABM], [])
  {
    hide Next, Valid, Address, Resent, CallOf;
    var w0 := InitialWorld(false, lcn);
    DmCase(w0);
    var w1 := Next(w0, TermDm);
    DmCase(w1);
    var w2 := Next(w1, TermDm);
    DeliverCases(w2);
    var w3 := Next(w2, READ);
    DeliverCases(w3);
    w := Next(w3, READ);
    ChainRun(w0, TWO_DMS, [w0, w1, w2, w3, w]);
  }

  // The terminal takes the first SABM, restarts and asks again, then takes the second.
  lemma Restarts(w0: World) returns (w: World)
    requires Valid(w0.sw) && w0.sw.state == ExpectUa && w0.slog == EMPTY_SWITCH_LOG
    requires Line(w0, [FRAME_SABM, FRAME_SABM], [])
    ensures Legal(w0, RESTART) && w == Exec(w0, RESTART)
    ensures w.sw == w0.sw && w.slog == EMPTY_SWITCH_LOG
    ensures w.term == Terminal(true, 0, 0, None) && w.tlog == EMPTY_TERM_LOG
    ensures Line(w, [], [FRAME_UA, FRAME_DM, FRAME_UA])
  {
    hide Next, Valid, Address;
    SabmCase(w0);
    var w1 := Next(w0, TermRead);
    DropCase(w1);
    var w2 := Next(w1, TermDrop);
    DmCase(w2);
    var w3 := Next(w2, TermDm);
    SabmCase(w3);
    w := Next(w3, TermRead);
    ChainRun(w0, RESTART, [w0, w1, w2, w3, w]);
  }

  // The first UA opens the link; a payload is sent and accepted.
  lemma FirstFrame(w0: World) returns (w: World)
    requires Valid(w0.sw) && w0.sw.state == ExpectUa && w0.slog == EMPTY_SWITCH_LOG
    requires w0.term == Terminal(true, 0, 0, None) && w0.tlog == EMPTY_TERM_LOG
    requires Line(w0, [], [FRAME_UA, FRAME_DM, FRAME_UA])
    ensures Legal(w0, FIRST) && w == Exec(w0, FIRST)
    ensures w.sw.state == LinkUp && Loaded(w.sw.xpkt, [1]) && w.tlog.accepted == [[1]]
    ensures |w.rev| == 3 && w.rev[2].ack == 1
    ensures Line(w, [], [FRAME_DM, FRAME_UA, w.rev[2].pkt.control])
    ensures IsRr(w.rev[2].pkt.control) && GetNr(w.rev[2].pkt.control) == 1
  {
    hide Next, CallOf, Resent, Valid, Address;
    DeliverCases(w0);
    var w1 := Next(w0, READ);
    SubmitOne(w1, 1);
    var w2 := Next(w1, FIRST[1]);
    AcceptCase(w2);
    w := Next(w2, TermRead);
    ChainRun(w0, FIRST, [w0, w1, w2, w]);
  }

  // The queued DM restarts the link and the stale second UA opens it again.
  lemma Reopens(w0: World) returns (w: World)
    requires Valid(w0.sw) && w0.sw.state == LinkUp && Loaded(w0.sw.xpkt, [1])
    requires |w0.rev| == 3 && Line(w0, [], [FRAME_DM, FRAME_UA, w0.rev[2].pkt.control])
    ensures Legal(w0, REOPEN) && w == Exec(w0, REOPEN)
    ensures w.sw.state == LinkUp && w.sw.localNs == 7 && w.sw.remoteNr == 0 && w.slog == EMPTY_SWITCH_LOG
    ensures Loaded(w.sw.xpkt, [1]) && w.tlog == w0.tlog && w.rev == [w0.rev[2]] && |w.rev[0].pkt.pad| == 2
  {
    hide Next, CallOf, Resent, Valid, Address;
    DeliverCases(w0);
    var w1 := Next(w0, READ);
    DeliverCases(w1);
    w := Next(w1, READ);
    ChainRun(w0, REOPEN, [w0, w1, w]);
  }

  const PREFIX := TWO_DMS + RESTART + FIRST + REOPEN

  lemma PrefixRun(lcn: Octet) returns (w: World)
    ensures Legal(InitialWorld(false, lcn), PREFIX) && w == Exec(InitialWorld(false, lcn), PREFIX)
    ensures w.sw.state == LinkUp && w.sw.localNs == 7 && w.sw.remoteNr == 0 && w.slog == EMPTY_SWITCH_LOG
    ensures Loaded(w.sw.xpkt, [1]) && w.tlog.accepted == [[1]]
    ensures |w.rev| == 1 && IsRr(w.rev[0].pkt.control) && GetNr(w.rev[0].pkt.control) == 1
    ensures w.rev[0].ack == 1 && |w.rev[0].pkt.pad| == 2
  {
    hide Exec, Legal, Next, Valid, Loaded, Address;
    var w0 := InitialWorld(false, lcn);
    var a := TwoDms(lcn);
    var b := Restarts(a);
    var c := FirstFrame(b);
    w := Reopens(c);
    ExecAppend(w0, TWO_DMS, RESTART);
    ExecAppend(w0, TWO_DMS + RESTART, FIRST);
    ExecAppend(w0, TWO_DMS + RESTART + FIRST, REOPEN);
  }

  // The same frame again: with no frame admitted on the new link, the stale RR makes the
  // switch write the payload of the earlier one.
  lemma StaleFrameSent(lcn: Octet) returns (w: World)
    ensures Legal(InitialWorld(false, lcn), PREFIX) && w == Exec(InitialWorld(false, lcn), PREFIX)
    ensures Enabled(w, READ) && WroteIframe(CallOf(w, READ)) && CallOf(w, READ).wrote[0].data == [1]
    ensures w.slog.admitted == []
  {
    hide Exec, Legal, Next, Valid;
    w := PrefixRun(lcn);
    DeliverCases(w);
  }

  const FALSE_ACK := [Submit(true, [2], None, 3, true), READ]

  // And a lost payload: a new payload is admitted, the stale RR is taken for its
  // acknowledgement, and the switch is ready although the terminal accepted something else.
  lemma FalseAcknowledgement(lcn: Octet) returns (es: seq<Event>)
    ensures Legal(InitialWorld(false, lcn), es) && es == PREFIX + FALSE_ACK
    ensures var w := Exec(InitialWorld(false, lcn), es);
            && w.sw.state == LinkUp && CanSend(w.sw) == DCP_OK
            && w.slog.admitted == [[2]] && w.tlog.accepted == [[1]] && !w.clean
  {
    hide Exec, Legal, Valid, Rcv, Xmt, Octets, Resent;
    var w0 := InitialWorld(false, lcn);
    var w := PrefixRun(lcn);
    var last := FALSE_ACK;
    SubmitOne(w, 2);
    var w1 := Next(w, last[0]);
    DeliverCases(w1);
    var w2 := Next(w1, READ);
    ChainRun(w, last, [w, w1, w2]);
    ExecAppend(w0, PREFIX, last);
    es := PREFIX + last;
    assert w2.slog.admitted[0][0] == 2 && w2.tlog.accepted[0][0] == 1;
    OverlapFlagged(lcn, es, w2);
  }

  lemma OverlapFlagged(lcn: Octet, es: seq<Event>, w: World)
    requires Legal(InitialWorld(false, lcn), es) && w == Exec(InitialWorld(false, lcn), es)
    requires CanSend(w.sw) == DCP_OK && w.slog.admitted != w.tlog.accepted
    ensures !w.clean
  {
    hide Exec, Legal, Next, Valid;
    if w.clean {
      assert Reached(w);
      ForwardDelivery(w);
    }
  }

  // A list of worlds, each the successor of the one before, is a run.
  lemma {:induction false} ChainRun(w0: World, es: seq<Event>, ws: seq<World>)
    requires |ws| == |es| + 1 && ws[0] == w0
    requires forall i :: 0 <= i < |ws| ==> Valid(ws[i].sw)
    requires forall i :: 0 <= i < |es| ==> Enabled(ws[i], es[i]) && ws[i + 1] == Next(ws[i], es[i])
    ensures Legal(w0, es) && Exec(w0, es) == ws[|es|]
    decreases |es|
  {
    hide Next, Enabled, Valid;
    if es != [] {
      ChainRun(ws[1], es[1..], ws[1..]);
    }
  }
}
