// The invariant of the composed system and what it says about every reachable state.

module DcpWorldSafety {
  import opened Options
  import opened DcpFrame
  import opened DcpClock
  import opened DcpLink
  import opened DcpLinkRuns
  import opened DcpWorld

  // ---- repeats collapsed ----

  // Received payloads with immediate repeats of the same frame removed.
  ghost function Dedup(h: seq<Handed>): seq<Handed> {
    if h == [] then []
    else
      var front := h[..|h| - 1];
      if front != [] && front[|front| - 1] == h[|h| - 1] then Dedup(front) else Dedup(front) + [h[|h| - 1]]
  }

  // The non-empty payloads among the first n of a stream, each with its frame number.
  ghost function NonEmpty(stream: seq<seq<Octet>>, n: int): seq<Handed>
    requires n <= |stream|
    decreases n
  {
    if n <= 0 then []
    else NonEmpty(stream, n - 1) + if stream[n - 1] != [] then [Handed(n - 1, stream[n - 1])] else []
  }

  lemma {:induction false} NonEmptyExtends(a: seq<seq<Octet>>, b: seq<seq<Octet>>, n: int)
    requires n <= |a| && a <= b
    ensures NonEmpty(a, n) == NonEmpty(b, n)
    decreases n
  {
    if n > 0 { NonEmptyExtends(a, b, n - 1); }
  }

  lemma {:induction false} NonEmptyMonotone(s: seq<seq<Octet>>, m: int, n: int)
    requires m <= n <= |s|
    ensures NonEmpty(s, m) <= NonEmpty(s, n)
    decreases n
  {
    if m < n && n > 0 { NonEmptyMonotone(s, m, n - 1); }
  }

  lemma {:induction false} NonEmptyNumbers(s: seq<seq<Octet>>, n: int)
    requires n <= |s|
    ensures forall h <- NonEmpty(s, n) :: 0 <= h.idx < n
    decreases n
  {
    if n > 0 { NonEmptyNumbers(s, n - 1); }
  }

  lemma {:induction false} DedupLast(h: seq<Handed>)
    requires h != []
    ensures Dedup(h) != [] && Dedup(h)[|Dedup(h)| - 1] == h[|h| - 1]
  {
    var front := h[..|h| - 1];
    if front != [] { DedupLast(front); }
  }

  // ---- the invariant ----

  ghost predicate Ordered(q: seq<Flight>) {
    forall i, j :: 0 <= i < j < |q| ==> q[i].idx <= q[j].idx && q[i].ack <= q[j].ack
  }

  // A packet on its way to the terminal carries an unambiguous number and the payload
  // that belongs to it.
  ghost predicate FwdOk(s: SwitchLog, t: TermLog, f: Flight) {
    && |s.admitted| - 2 <= f.idx < |s.admitted|
    && (|t.accepted| == |s.admitted| ==> f.idx == |s.admitted| - 1)
    && t.acked <= f.ack <= s.seen
    && f.pkt.control != FRAME_SABM
    && (IsIFrame(f.pkt.control) ==>
          f.idx >= 0 && GetNs(f.pkt.control) == f.idx % 8 && f.pkt.data == s.admitted[f.idx])
    && (IsRr(f.pkt.control) ==> GetNr(f.pkt.control) == f.ack % 8)
  }

  ghost predicate RevOk(s: SwitchLog, t: TermLog, lcn: Octet, f: Flight) {
    && |t.sent| - 2 <= f.idx < |t.sent|
    && (s.seen == |t.sent| ==> f.idx == |t.sent| - 1)
    && s.acked <= f.ack <= |t.accepted|
    && |f.pkt.pad| == 2 && GetLcn(f.pkt.addr) == lcn % 16
    && (IsIFrame(f.pkt.control) ==>
          && f.idx >= 0 && GetNs(f.pkt.control) == f.idx % 8 && f.pkt.data == t.sent[f.idx]
          && GetNr(f.pkt.control) == f.ack % 8)
    && (IsRr(f.pkt.control) ==> GetNr(f.pkt.control) == f.ack % 8)
  }

  ghost predicate Counts(s: SwitchLog, t: TermLog) {
    && 0 <= s.acked <= |t.accepted| <= |s.admitted| <= s.acked + 1
    && 0 <= t.acked <= s.seen <= |t.sent| <= t.acked + 1
    && t.accepted <= s.admitted
  }

  // An address octet has four bits for the LCN, so only frames for LCNs below 16 are
  // recognised and handed up.
  ghost predicate HandedOk(lcn: Octet, s: SwitchLog, t: TermLog) {
    && s.seen <= |t.sent|
    && if lcn < 16 then Dedup(s.handed) == NonEmpty(t.sent, s.seen) else s.handed == []
  }

  function Recognised(lcn: Octet, data: seq<Octet>): seq<Octet> { if lcn < 16 then data else [] }

  // The mod-8 fields and the buffer of the switch are the image of its history.
  ghost predicate SwitchOk(l: Link, s: SwitchLog) {
    && Valid(l)
    && l.localNs == (|s.admitted| - 1) % 8 && l.remoteNr == s.acked % 8
    && (s.admitted != [] ==> Loaded(l.xpkt, s.admitted[|s.admitted| - 1]))
    && (l.state != LinkUp ==> s == EMPTY_SWITCH_LOG)
  }

  ghost predicate Loaded(b: Buffer, payload: seq<Octet>) {
    && b.pktlen == |payload| + 2 && |payload| <= |b.data| && b.data[..|payload|] == payload
  }

  ghost predicate TermOk(t: Terminal, g: TermLog) {
    t.up ==>
      && t.vr == |g.accepted| % 8 && t.vs == g.acked % 8
      && 0 <= g.acked <= |g.sent|
      && t.out == if g.acked == |g.sent| then None else Some(g.sent[|g.sent| - 1])
  }

  // A DM can only be the newest frame on the line, from a terminal that is down.
  ghost predicate DmLast(w: World) {
    forall i :: 0 <= i < |w.rev| && w.rev[i].pkt.control == FRAME_DM ==> i == |w.rev| - 1 && !w.term.up
  }

  // Both sides agree on the current link, or will once the UA arrives.
  ghost predicate Joined(w: World) {
    && Counts(w.slog, w.tlog) && HandedOk(w.sw.lcn, w.slog, w.tlog) && TermOk(w.term, w.tlog)
    && Ordered(w.fwd) && Ordered(w.rev) && DmLast(w)
    && (forall f <- w.fwd :: FwdOk(w.slog, w.tlog, f))
    && (forall f <- w.rev :: RevOk(w.slog, w.tlog, w.sw.lcn, f))
    && (w.sw.state != LinkUp ==> w.fwd == [] && w.tlog.accepted == [])
  }

  // The terminal is down and the old link is gone: only a DM or the SABM answering it
  // can be under way, with nothing behind it.
  ghost predicate Waiting(w: World) {
    && w.sw.state != LinkUp && !w.term.up
    && |w.rev| <= 1 && (forall f <- w.rev :: f.pkt.control == FRAME_DM && |f.pkt.pad| == 2)
    && (forall i :: 0 <= i < |w.fwd| && w.fwd[i].pkt.control == FRAME_SABM ==> i == |w.fwd| - 1 && w.rev == [])
  }

  ghost predicate Inv(w: World) {
    SwitchOk(w.sw, w.slog) && (Joined(w) || Waiting(w))
  }

  // ---- one switch call ----

  // Whatever is written for the current link, with the tags of the moment, keeps it joined.
  lemma WriteStep(w: World, s: Step, onWire: bool)
    requires Joined(w) && w.sw.state == LinkUp
    requires SwitchOk(s.link, w.slog) && s.link.state == LinkUp && s.link.lcn == w.sw.lcn && |s.wrote| <= 1
    requires s.wrote != [] ==> FwdOk(w.slog, w.tlog, Flight(s.wrote[0], |w.slog.admitted| - 1, w.slog.seen))
    ensures Inv(SwitchCall(w, s, onWire, w.slog)) && Joined(SwitchCall(w, s, onWire, w.slog))
  {
    hide Counts, TermOk, Loaded, Valid, FwdOk, RevOk;
    var w' := SwitchCall(w, s, onWire, w.slog);
    assert Ordered(w'.fwd) by { FwdBounds(w); }
  }

  lemma FwdBounds(w: World)
    requires forall f <- w.fwd :: FwdOk(w.slog, w.tlog, f)
    ensures forall i :: 0 <= i < |w.fwd| ==> w.fwd[i].idx <= |w.slog.admitted| - 1 && w.fwd[i].ack <= w.slog.seen
  {
    forall i | 0 <= i < |w.fwd| ensures w.fwd[i].idx <= |w.slog.admitted| - 1 && w.fwd[i].ack <= w.slog.seen {
      assert FwdOk(w.slog, w.tlog, w.fwd[i]);
    }
  }

  // A buffer that holds the newest admitted payload goes out as the newest frame.
  lemma BufferFlight(l: Link, s: Step, g: SwitchLog, t: TermLog)
    requires WroteBuffer(s) && SwitchOk(s.link, g) && g.admitted != [] && Counts(g, t)
    ensures FwdOk(g, t, Flight(s.wrote[0], |g.admitted| - 1, g.seen))
  {}

  lemma ResendStep(w: World, s: Step, onWire: bool)
    requires Joined(w) && w.sw.state == LinkUp && w.slog.admitted != []
    requires SwitchOk(w.sw.(remoteNr := s.link.remoteNr), w.slog) && Resent(w.sw, s)
    requires Keeps(w.sw, s)
    ensures Inv(SwitchCall(w, s, onWire, w.slog)) && Joined(SwitchCall(w, s, onWire, w.slog))
  {
    BufferFlight(w.sw, s, w.slog, w.tlog);
    WriteStep(w, s, onWire);
  }

  // A call that only moves the clock or the timer.
  lemma QuietStep(w: World, s: Step, onWire: bool)
    requires Inv(w) && Quiet(w.sw, s) && Keeps(w.sw, s)
    requires s.link.remoteNr == w.sw.remoteNr && s.link.state == w.sw.state
    ensures Inv(SwitchCall(w, s, onWire, w.slog))
  {
    hide Counts, TermOk, Loaded, Valid, FwdOk, RevOk, Ordered;
    var w' := SwitchCall(w, s, onWire, w.slog);
    assert w'.fwd == w.fwd && w'.rev == w.rev;
  }

  // A frame can be admitted only when everything admitted before was accepted, so
  // nothing older than its predecessor is still under way.
  lemma AdmitStep(w: World, cr: bool, payload: seq<Octet>, s: Step, onWire: bool)
    requires Inv(w) && CanSend(w.sw) == DCP_OK
    requires Admitted(w.sw, cr, payload, s) && Keeps(w.sw, s)
    ensures Inv(SwitchCall(w, s, onWire, Admit(w.slog, payload)))
    ensures w.slog.admitted == w.tlog.accepted
  {
    hide TermOk, Dedup, NonEmpty;
    var n := |w.slog.admitted|;
    assert w.slog.acked == n;
    var log := Admit(w.slog, payload);
    var w1 := w.(slog := log);
    forall f <- w.fwd ensures FwdOk(log, w.tlog, f) { assert FwdOk(w.slog, w.tlog, f); }
    forall f <- w.rev ensures RevOk(log, w.tlog, w.sw.lcn, f) { assert RevOk(w.slog, w.tlog, w.sw.lcn, f); }
    assert Joined(w1);
    assert Loaded(s.link.xpkt, payload);
    assert SwitchOk(s.link, log);
    BufferFlight(w.sw, s, log, w.tlog);
    WriteStep(w1, s, onWire);
  }

  lemma SubmitInv(w: World, e: Event)
    requires Inv(w) && e.Submit?
    ensures Inv(Next(w, e))
  {
    hide Xmt, Joined, Waiting, Admitted, SwitchOk;
    ValidSwitch(w);
    var s := Xmt(w.sw, e.cr, e.data, e.now, e.wres);
    XmtFacts(w.sw, e.cr, e.data, e.now, e.wres);
    if Admits(w.sw, e.data) {
      AdmitStep(w, e.cr, Truncate(e.data), s, e.onWire);
      var w1 := SwitchCall(w, s, e.onWire, Admit(w.slog, Truncate(e.data)));
      CreditsAside(w1, w.credits + 1);
    } else {
      QuietStep(w, s, e.onWire);
    }
  }

  lemma ValidSwitch(w: World)
    requires Inv(w)
    ensures Valid(w.sw)
  {}

  lemma CreditsAside(w: World, c: nat)
    requires Inv(w)
    ensures Inv(w.(credits := c))
  {
    hide Counts, TermOk, FwdOk, RevOk, Ordered, SwitchOk;
  }

  lemma TickInv(w: World, e: Event)
    requires Inv(w) && e.Tick?
    ensures Inv(Next(w, e))
  {
    hide Run, Admitted, Resent, Ordered, FwdOk, RevOk, TermOk;
    var s := Run(w.sw, e.now, e.wres);
    RunFacts(w.sw, e.now, e.wres);
    if !Expires(w.sw, e.now) {
      QuietStep(w, s, e.onWire);
    } else if CanSend(w.sw) == DCP_OK {
      AdmitStep(w, true, [], s, e.onWire);
      CreditsAside(SwitchCall(w, s, e.onWire, Admit(w.slog, [])), w.credits + 1);
    } else {
      assert w.slog.admitted != [];
      ResendStep(w, s, e.onWire);
      CreditsAside(SwitchCall(w, s, e.onWire, w.slog), w.credits + 1);
    }
  }

  // ---- the switch takes a packet from the terminal ----

  // A packet with its two trailing octets reads back over either transport.
  lemma ReadsPacket(hdlc: bool, p: Packet)
    requires |p.pad| == 2
    ensures var o := Octets(hdlc, p);
            && |o| >= 2 && PacketLength(hdlc, |o|) == |p.data| + 2
            && o[0] == p.addr && o[1] == p.control && o[2..|p.data| + 2] == p.data
  {}

  lemma PopRev(w: World)
    requires Joined(w) && w.rev != []
    ensures Joined(w.(rev := w.rev[1..]))
    ensures RevOk(w.slog, w.tlog, w.sw.lcn, w.rev[0])
  {
    hide Counts, TermOk, FwdOk, RevOk;
    assert w.rev[0] in w.rev;
    assert forall f <- w.rev[1..] :: f in w.rev;
  }

  // One more receipt in the history: a new frame extends the collapsed stream, a repeat
  // of the last one leaves it as it is.
  lemma HandedStep(g: SwitchLog, t: TermLog, k: int, data: seq<Octet>)
    requires Counts(g, t) && Dedup(g.handed) == NonEmpty(t.sent, g.seen)
    requires 0 <= k < |t.sent| && data == t.sent[k] && g.seen - 1 <= k <= g.seen
    ensures var h := g.handed + if data != [] then [Handed(k, data)] else [];
            Dedup(h) == NonEmpty(t.sent, if k < g.seen then g.seen else k + 1)
  {
    var x := Handed(k, data);
    var h := g.handed + [x];
    assert h[..|h| - 1] == g.handed;
    if data == [] {
      assert g.handed + [] == g.handed;
    } else if g.handed != [] {
      DedupLast(g.handed);
      NonEmptyNumbers(t.sent, g.seen);
      var d := Dedup(g.handed);
      assert d[|d| - 1] in d;
      if k < g.seen {
        assert d[|d| - 1] == x;
      }
    }
  }

  lemma TakeIframe(w: World)
    requires Joined(w) && w.rev != [] && w.sw.state == LinkUp && IsIFrame(w.rev[0].pkt.control)
    ensures var log := Note(w.sw, w.slog, w.rev[0], Recognised(w.sw.lcn, w.rev[0].pkt.data));
            Joined(w.(rev := w.rev[1..], slog := log))
  {
    hide TermOk, Dedup, NonEmpty, Ordered, GetNs, GetNr;
    PopRev(w);
    var f := w.rev[0];
    var log := Note(w.sw, w.slog, f, Recognised(w.sw.lcn, f.pkt.data));
    if w.sw.lcn < 16 {
      HandedStep(w.slog, w.tlog, f.idx, f.pkt.data);
    }
    forall g <- w.fwd ensures FwdOk(log, w.tlog, g) { assert FwdOk(w.slog, w.tlog, g); }
    forall g <- w.rev[1..] ensures RevOk(log, w.tlog, w.sw.lcn, g) { LaterFlight(w, g); }
  }

  lemma TakeRr(w: World)
    requires Joined(w) && w.rev != []
    ensures Joined(w.(rev := w.rev[1..], slog := w.slog.(acked := w.rev[0].ack)))
  {
    PopRev(w);
    hide TermOk, Dedup, NonEmpty, GetNs, GetNr;
    var log := w.slog.(acked := w.rev[0].ack);
    forall g <- w.fwd ensures FwdOk(log, w.tlog, g) { assert FwdOk(w.slog, w.tlog, g); }
    forall g <- w.rev[1..] ensures RevOk(log, w.tlog, w.sw.lcn, g) { LaterFlight(w, g); }
  }

  lemma LaterFlight(w: World, g: Flight)
    requires Joined(w) && w.rev != [] && g in w.rev[1..]
    ensures RevOk(w.slog, w.tlog, w.sw.lcn, g)
    ensures w.rev[0].idx <= g.idx && w.rev[0].ack <= g.ack
  {
    hide Counts, TermOk, FwdOk, RevOk;
    var i :| 1 <= i < |w.rev| && w.rev[i] == g;
  }

  lemma DeliverRestart(w: World, s: Step, wres: int, onWire: bool)
    requires Inv(w) && w.rev != [] && w.rev[0].pkt.control == FRAME_DM
    requires Restarted(w.sw, s, wres) && Keeps(w.sw, s)
    ensures Inv(SwitchCall(w, s, onWire, EMPTY_SWITCH_LOG).(rev := w.rev[1..]))
  {
    hide Counts, TermOk, RevOk, Ordered;
    var w' := SwitchCall(w, s, onWire, EMPTY_SWITCH_LOG).(rev := w.rev[1..]);
    assert w.rev[1..] == [];
    assert !w.term.up;
    forall i | 0 <= i < |w.fwd| ensures w.fwd[i].pkt.control != FRAME_SABM {
      if Joined(w) { assert FwdOk(w.slog, w.tlog, w.fwd[i]); }
    }
    assert Waiting(w');
  }

  lemma DeliverIframe(w: World, s: Step, onWire: bool)
    requires Joined(w) && SwitchOk(w.sw, w.slog) && w.rev != [] && w.sw.state == LinkUp
    requires IsIFrame(w.rev[0].pkt.control)
    requires Acknowledged(w.sw, s) && Keeps(w.sw, s)
    requires s.link.remoteNr == GetNr(w.rev[0].pkt.control) && s.link.remoteNs == GetNs(w.rev[0].pkt.control)
    ensures var log := Note(w.sw, w.slog, w.rev[0], Recognised(w.sw.lcn, w.rev[0].pkt.data));
            Inv(SwitchCall(w, s, onWire, log).(rev := w.rev[1..]))
  {
    hide Counts, TermOk, Ordered, DmLast, IsIFrame, IsRr, GetNs;
    TakeIframe(w);
    PopRev(w);
    var f := w.rev[0];
    var log := Note(w.sw, w.slog, f, Recognised(w.sw.lcn, f.pkt.data));
    var w1 := w.(rev := w.rev[1..], slog := log);
    SeenAfter(w);
    assert FwdOk(log, w.tlog, Flight(s.wrote[0], |log.admitted| - 1, log.seen));
    WriteStep(w1, s, onWire);
    assert SwitchCall(w1, s, onWire, log) == SwitchCall(w, s, onWire, log).(rev := w.rev[1..]);
  }

  // The RR that answers a frame carries the new receive count.
  lemma SeenAfter(w: World)
    requires Joined(w) && w.rev != [] && w.sw.state == LinkUp && IsIFrame(w.rev[0].pkt.control)
    ensures var log := Note(w.sw, w.slog, w.rev[0], Recognised(w.sw.lcn, w.rev[0].pkt.data));
            && (GetNs(w.rev[0].pkt.control) + 1) % 8 == log.seen % 8
            && w.tlog.acked <= log.seen && -1 <= |log.admitted| - 1
            && log.admitted == w.slog.admitted && log.acked == w.rev[0].ack
  {
    hide TermOk, Ordered, DmLast, FwdOk, Dedup, NonEmpty;
    PopRev(w);
  }

  lemma DeliverRr(w: World, s: Step, onWire: bool)
    requires Joined(w) && SwitchOk(w.sw, w.slog) && w.rev != [] && w.sw.state == LinkUp
    requires var control := w.rev[0].pkt.control;
             && IsRr(control) && Keeps(w.sw, s) && s.link.remoteNr == GetNr(control)
             && if GetNr(control) != Succ(w.sw.localNs) && w.sw.xpkt.pktlen != 0 then Resent(w.sw, s)
                else Quiet(w.sw, s) && s.link.state == LinkUp
    ensures Inv(SwitchCall(w, s, onWire, w.slog.(acked := w.rev[0].ack)).(rev := w.rev[1..]))
  {
    hide TermOk, Ordered, DmLast, IsIFrame, IsRr, GetNs, Resent, Loaded, Dedup, NonEmpty;
    TakeRr(w);
    PopRev(w);
    var log := w.slog.(acked := w.rev[0].ack);
    var w1 := w.(rev := w.rev[1..], slog := log);
    if GetNr(w.rev[0].pkt.control) != Succ(w.sw.localNs) {
      assert w.slog.admitted != [];
      assert Loaded(w.sw.xpkt, log.admitted[|log.admitted| - 1]);
      BufferLoaded(w.sw, log);
      ResendStep(w1, s, onWire);
    } else {
      WriteStep(w1, s, onWire);
    }
    assert SwitchCall(w1, s, onWire, log) == SwitchCall(w, s, onWire, log).(rev := w.rev[1..]);
  }

  lemma BufferLoaded(l: Link, g: SwitchLog)
    requires g.admitted != [] && Loaded(l.xpkt, g.admitted[|g.admitted| - 1])
    ensures l.xpkt.pktlen != 0
  {}

  // Any other packet is disregarded, except that a UA completes a restart.
  lemma DeliverOther(w: World, s: Step, onWire: bool)
    requires Joined(w) && SwitchOk(w.sw, w.slog) && w.rev != []
    requires Quiet(w.sw, s) && Keeps(w.sw, s) && s.link.remoteNr == w.sw.remoteNr
    ensures Inv(SwitchCall(w, s, onWire, w.slog).(rev := w.rev[1..]))
  {
    hide Counts, TermOk, Ordered, FwdOk, RevOk;
    PopRev(w);
    assert Joined(SwitchCall(w, s, onWire, w.slog).(rev := w.rev[1..]));
  }

  lemma DeliverInv(w: World, e: Event)
    requires Inv(w) && Enabled(w, e) && e.Deliver?
    ensures Inv(Next(w, e))
  {
    hide Rcv, Counts, TermOk, Ordered, FwdOk, Waiting, Valid, Quiet, Resent, Acknowledged, Restarted, DmLast, Inv,
         IsIFrame, IsRr, GetNr, GetNs, Octets;
    InvSwitch(w);
    var f := w.rev[0];
    var r := SwitchReads(w, e.now, e.wres);
    var s := r.step;
    PadOk(w);
    ReadsPacket(w.sw.hdlc, f.pkt);
    ReadFacts(w.sw, e.now, Got(Octets(w.sw.hdlc, f.pkt)), true, e.wres);
    var control := f.pkt.control;
    if control == FRAME_DM {
      DeliverRestart(w, s, e.wres, e.onWire);
    } else {
      NotDm(w);
      if w.sw.state == LinkUp && IsIFrame(control) {
        HandsUp(w, e.now, e.wres);
        DeliverIframe(w, s, e.onWire);
      } else if w.sw.state == LinkUp && IsRr(control) {
        DeliverRr(w, s, e.onWire);
      } else {
        DeliverOther(w, s, e.onWire);
      }
    }
  }

  lemma InvSwitch(w: World)
    requires Inv(w)
    ensures Valid(w.sw) && SwitchOk(w.sw, w.slog)
  {}

  // A terminal's I-frame is handed up with exactly its payload, if its LCN is recognised.
  lemma HandsUp(w: World, now: Option<Timespec>, wres: int)
    requires Inv(w) && Joined(w) && w.rev != [] && IsIFrame(w.rev[0].pkt.control)
    ensures Valid(w.sw) && SwitchReads(w, now, wres).data == Recognised(w.sw.lcn, w.rev[0].pkt.data)
  {
    hide Rcv, Octets, Counts, TermOk, Ordered, FwdOk, DmLast, Valid, HandedOk;
    InvSwitch(w);
    var p := w.rev[0].pkt;
    PopRev(w);
    ReadsPacket(w.sw.hdlc, p);
    ReceiveResult(w.sw, now, Got(Octets(w.sw.hdlc, p)), true, wres);
  }

  lemma PadOk(w: World)
    requires Inv(w) && w.rev != []
    ensures |w.rev[0].pkt.pad| == 2
  {
    hide Counts, TermOk, FwdOk, Ordered, DmLast;
    assert w.rev[0] in w.rev;
  }

  lemma NotDm(w: World)
    requires Inv(w) && w.rev != [] && w.rev[0].pkt.control != FRAME_DM
    ensures Joined(w)
  {
    hide Counts, TermOk, FwdOk, RevOk, Ordered, DmLast;
    assert w.rev[0] in w.rev;
  }

  // ---- losses ----

  lemma SubQueue(q: seq<Flight>, i: nat)
    requires i < |q|
    ensures |Without(q, i)| == |q| - 1
    ensures forall f <- Without(q, i) :: f in q
    ensures Ordered(q) ==> Ordered(Without(q, i))
    ensures forall j :: 0 <= j < |q| - 1 ==> Without(q, i)[j] == q[if j < i then j else j + 1]
  {}

  lemma LoseInv(w: World, e: Event)
    requires Inv(w) && Enabled(w, e) && (e.LoseFwd? || e.LoseRev?)
    ensures Inv(Next(w, e))
  {
    hide Counts, TermOk, FwdOk, RevOk, Ordered, SwitchOk, Without;
    InvSwitch(w);
    SubQueue(if e.LoseFwd? then w.fwd else w.rev, e.i);
  }

  lemma MisreadInv(w: World, e: Event)
    requires Inv(w) && e.Misread?
    ensures Inv(Next(w, e))
  {
    hide Rcv, Joined, Waiting, SwitchOk;
    InvSwitch(w);
    var read := if e.failed then Failed else Got([]);
    ReadFacts(w.sw, e.now, read, true, 0);
    QuietStep(w, Rcv(w.sw, e.now, read, true, 0).step, false);
  }

  // ---- the terminal ----

  lemma PopFwd(w: World)
    requires Joined(w) && w.fwd != []
    ensures Joined(w.(fwd := w.fwd[1..]))
    ensures FwdOk(w.slog, w.tlog, w.fwd[0])
    ensures forall f <- w.fwd[1..] :: FwdOk(w.slog, w.tlog, f) && w.fwd[0].idx <= f.idx && w.fwd[0].ack <= f.ack
  {
    hide Counts, TermOk, FwdOk, RevOk;
    assert w.fwd[0] in w.fwd;
    forall f <- w.fwd[1..]
      ensures f in w.fwd && w.fwd[0].idx <= f.idx && w.fwd[0].ack <= f.ack
    {
      var i :| 1 <= i < |w.fwd| && w.fwd[i] == f;
    }
  }

  // What a terminal that is up sends carries the counts of the moment.
  lemma TermPutJoined(w: World, control: Octet, data: seq<Octet>)
    requires Joined(w) && control != FRAME_DM && w.term.up
    requires RevOk(w.slog, w.tlog, w.sw.lcn,
                   Flight(TermPacket(w, control, data), |w.tlog.sent| - 1, |w.tlog.accepted|))
    ensures Joined(TermPut(w, control, data))
  {
    hide Counts, TermOk, FwdOk, RevOk;
    forall i | 0 <= i < |w.rev|
      ensures w.rev[i].idx <= |w.tlog.sent| - 1 && w.rev[i].ack <= |w.tlog.accepted|
    {
      RevBounds(w, w.rev[i]);
    }
  }

  lemma RevBounds(w: World, f: Flight)
    requires Joined(w) && f in w.rev
    ensures f.idx <= |w.tlog.sent| - 1 && f.ack <= |w.tlog.accepted|
  {
    hide Counts, TermOk, FwdOk, Ordered, DmLast;
  }

  // The terminal accepts exactly the one frame that is new to it.
  lemma TakeNew(w: World)
    requires Joined(w) && w.fwd != [] && w.term.up && w.sw.state == LinkUp
    requires IsIFrame(w.fwd[0].pkt.control) && GetNs(w.fwd[0].pkt.control) == w.term.vr
    ensures Joined(w.(fwd := w.fwd[1..], term := w.term.(vr := Succ(w.term.vr)),
                      tlog := w.tlog.(accepted := w.tlog.accepted + [w.fwd[0].pkt.data])))
  {
    hide Dedup, NonEmpty, Ordered, IsIFrame, IsRr, GetNs, GetNr;
    PopFwd(w);
    var f := w.fwd[0];
    assert f.idx == |w.tlog.accepted| == |w.slog.admitted| - 1;
    var log := w.tlog.(accepted := w.tlog.accepted + [f.pkt.data]);
    forall g <- w.fwd[1..] ensures FwdOk(w.slog, log, g) { assert FwdOk(w.slog, w.tlog, g); }
    forall g <- w.rev ensures RevOk(w.slog, log, w.sw.lcn, g) { assert RevOk(w.slog, w.tlog, w.sw.lcn, g); }
  }

  // An RR that names the outstanding frame's successor acknowledges a frame the switch has.
  lemma TakeAck(w: World)
    requires Joined(w) && w.fwd != [] && w.term.up && w.term.out.Some?
    requires IsRr(w.fwd[0].pkt.control) && GetNr(w.fwd[0].pkt.control) == Succ(w.term.vs)
    ensures Joined(w.(fwd := w.fwd[1..], term := w.term.(vs := Succ(w.term.vs), out := None),
                      tlog := w.tlog.(acked := w.tlog.acked + 1)))
  {
    hide Dedup, NonEmpty, Ordered, IsIFrame, IsRr, GetNs, GetNr;
    PopFwd(w);
    var log := w.tlog.(acked := w.tlog.acked + 1);
    forall g <- w.fwd[1..] ensures FwdOk(w.slog, log, g) { assert FwdOk(w.slog, w.tlog, g); }
    forall g <- w.rev ensures RevOk(w.slog, log, w.sw.lcn, g) { assert RevOk(w.slog, w.tlog, w.sw.lcn, g); }
  }

  lemma RrFlight(w: World, control: Octet)
    requires TermOk(w.term, w.tlog) && w.term.up && Counts(w.slog, w.tlog)
    ensures TermRr(w.term, control) != FRAME_DM
    ensures RevOk(w.slog, w.tlog, w.sw.lcn,
                  Flight(TermPacket(w, TermRr(w.term, control), []), |w.tlog.sent| - 1, |w.tlog.accepted|))
  {
    hide Dedup, NonEmpty;
  }

  lemma IframeFlight(w: World)
    requires TermOk(w.term, w.tlog) && w.term.up && w.term.out.Some? && Counts(w.slog, w.tlog)
    ensures TermIframe(w.term) != FRAME_DM
    ensures RevOk(w.slog, w.tlog, w.sw.lcn,
                  Flight(TermPacket(w, TermIframe(w.term), w.term.out.value), |w.tlog.sent| - 1, |w.tlog.accepted|))
  {
    hide Dedup, NonEmpty;
  }

  // The SABM that reaches a waiting terminal finds both queues empty behind it.
  lemma TakeSabm(w: World)
    requires Inv(w) && w.fwd != [] && w.fwd[0].pkt.control == FRAME_SABM
    ensures Inv(TermReads(w))
  {
    if Joined(w) {
      PopFwd(w);
      assert false;
    } else {
      assert w.fwd[1..] == [] && w.rev == [];
      assert Dedup([]) == [] && NonEmpty([], 0) == [];
      var w' := TermReads(w);
      assert Joined(w');
    }
  }

  lemma TermReadInv(w: World)
    requires Inv(w) && w.fwd != []
    ensures Inv(TermReads(w))
  {
    hide Counts, TermOk, FwdOk, RevOk, Ordered, DmLast, IsIFrame, IsRr, GetNs, GetNr, Address, TermRr;
    var f, w1 := w.fwd[0], w.(fwd := w.fwd[1..]);
    if f.pkt.control == FRAME_SABM {
      TakeSabm(w);
    } else if Joined(w) {
      PopFwd(w);
      if w.term.up && IsIFrame(f.pkt.control) {
        var w2 := w1;
        if GetNs(f.pkt.control) == w.term.vr {
          TakeNew(w);
          w2 := w1.(term := w.term.(vr := Succ(w.term.vr)),
                    tlog := w.tlog.(accepted := w.tlog.accepted + [f.pkt.data]));
        }
        assert Joined(w2) && w2.term.up;
        RrFlight(w2, f.pkt.control);
        TermPutJoined(w2, TermRr(w2.term, f.pkt.control), []);
      } else if w.term.up && IsRr(f.pkt.control) && w.term.out.Some? && GetNr(f.pkt.control) == Succ(w.term.vs) {
        TakeAck(w);
      }
    }
  }

  lemma TermSubmitInv(w: World, e: Event)
    requires Inv(w) && Enabled(w, e) && e.TermSubmit?
    ensures Inv(Next(w, e))
  {
    hide Ordered, DmLast, IsIFrame, IsRr, GetNs, GetNr, Address, TermIframe, Dedup, Valid;
    InvSwitch(w);
    var log := w.tlog.(sent := w.tlog.sent + [e.payload]);
    var w1 := w.(term := w.term.(out := Some(e.payload)), tlog := log);
    NonEmptyExtends(w.tlog.sent, log.sent, w.slog.seen);
    forall g <- w.fwd ensures FwdOk(w.slog, log, g) { assert FwdOk(w.slog, w.tlog, g); }
    forall g <- w.rev ensures RevOk(w.slog, log, w.sw.lcn, g) { assert RevOk(w.slog, w.tlog, w.sw.lcn, g); }
    assert DmLast(w1) by { DmFrame(w, w1); }
    assert Joined(w1);
    IframeFlight(w1);
    assert TermIframe(w1.term) == TermIframe(w.term) by { IframeSame(w.term, w1.term); }
    TermPutJoined(w1, TermIframe(w1.term), e.payload);
  }

  lemma DmFrame(w: World, w': World)
    requires DmLast(w) && w'.rev == w.rev && w'.term.up == w.term.up
    ensures DmLast(w')
  {}

  lemma IframeSame(t: Terminal, t': Terminal)
    requires t.vs == t'.vs && t.vr == t'.vr
    ensures TermIframe(t) == TermIframe(t')
  {}

  lemma TermRepeatInv(w: World)
    requires Inv(w) && Enabled(w, TermRepeat)
    ensures Inv(Next(w, TermRepeat))
  {
    hide Ordered, FwdOk, RevOk, Counts, TermOk, Valid, DmLast, TermIframe, Address;
    InvSwitch(w);
    IframeFlight(w);
    TermPutJoined(w, TermIframe(w.term), w.term.out.value);
  }

  lemma TermDmInv(w: World)
    requires Inv(w) && Enabled(w, TermDm) && Idle(w)
    ensures Inv(Next(w, TermDm))
  {
    hide Counts, TermOk, FwdOk, RevOk, Valid, Address;
    InvSwitch(w);
    var w' := Next(w, TermDm);
    if Joined(w) {
      forall i | 0 <= i < |w.rev|
        ensures w.rev[i].idx <= |w.tlog.sent| - 1 && w.rev[i].ack <= |w.tlog.accepted|
      {
        RevBounds(w, w.rev[i]);
      }
      DmFlight(w);
      assert Joined(w');
    } else {
      if w.rev != [] {
        BusyLine(w);
        assert false;
      }
    }
  }

  lemma BusyLine(w: World)
    requires Waiting(w) && w.rev != []
    ensures !Idle(w)
  {
    assert w.rev[0] in w.rev;
  }

  lemma DmFlight(w: World)
    requires Joined(w)
    ensures RevOk(w.slog, w.tlog, w.sw.lcn,
                  Flight(TermPacket(w, FRAME_DM, []), |w.tlog.sent| - 1, |w.tlog.accepted|))
  {
    hide Dedup, NonEmpty, Ordered;
  }

  lemma TermDropInv(w: World)
    requires Inv(w) && Enabled(w, TermDrop)
    ensures Inv(Next(w, TermDrop))
  {
    hide Counts, FwdOk, RevOk, Ordered, SwitchOk;
    InvSwitch(w);
  }

  // ---- every step, every run ----

  // As long as handshakes do not overlap, every step keeps the invariant.
  lemma StepInv(w: World, e: Event)
    requires Inv(w) && Enabled(w, e)
    ensures Valid(w.sw) && (e.TermDm? ==> Idle(w)) ==> Inv(Next(w, e))
  {
    hide Inv, Next, Idle;
    InvSwitch(w);
    match e
    case Submit(_, _, _, _, _) => SubmitInv(w, e);
    case Tick(_, _, _) => TickInv(w, e);
    case Deliver(_, _, _) => DeliverInv(w, e);
    case Misread(_, _) => MisreadInv(w, e);
    case LoseFwd(_) => LoseInv(w, e);
    case LoseRev(_) => LoseInv(w, e);
    case TermRead => TermReadEvent(w);
    case TermSubmit(_) => TermSubmitInv(w, e);
    case TermRepeat => TermRepeatInv(w);
    case TermDm => if Idle(w) { TermDmInv(w); }
    case TermDrop => TermDropInv(w);
  }

  lemma TermReadEvent(w: World)
    requires Inv(w) && Enabled(w, TermRead)
    ensures Valid(w.sw) && Inv(Next(w, TermRead))
  {
    hide Inv, TermReads, Valid;
    InvSwitch(w);
    TermReadInv(w);
  }
}
