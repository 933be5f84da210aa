// Exactly which handshakes are harmless: for the rule a terminal follows, and for every
// single DM.

module DcpWorldExact {
  import opened Options
  import opened DcpFrame
  import opened DcpLink
  import opened DcpLinkRuns
  import opened DcpWorld
  import opened DcpWorldSafety
  import opened DcpWorldTheorems
  import opened DcpWorldProgress
  import opened DcpWorldOverlap
  import opened DcpWorldPatience

  // ---- what is promised of a link that is up ----

  ghost predicate Delivered(w: World) {
    w.sw.state == LinkUp ==>
      && w.tlog.accepted <= w.slog.admitted && |w.slog.admitted| <= |w.tlog.accepted| + 1
      && (CanSend(w.sw) == DCP_OK ==> w.tlog.accepted == w.slog.admitted)
  }

  ghost predicate Received(w: World) {
    w.sw.state == LinkUp && w.sw.lcn < 16 ==>
      && Dedup(w.slog.handed) <= NonEmpty(w.tlog.sent, |w.tlog.sent|)
      && w.tlog.acked <= |w.tlog.sent| && NonEmpty(w.tlog.sent, w.tlog.acked) <= Dedup(w.slog.handed)
  }

  ghost predicate Fresh(w: World, e: Event)
    requires Valid(w.sw) && Enabled(w, e)
  {
    WroteIframe(CallOf(w, e)) ==>
      var admitted := Next(w, e).slog.admitted;
      && w.sw.state == LinkUp && admitted != []
      && CallOf(w, e).wrote[0].data == admitted[|admitted| - 1]
      && GetNs(CallOf(w, e).wrote[0].control) == (|admitted| - 1) % 8
  }

  lemma ReachedKeeps(w: World)
    requires Reached(w)
    ensures Valid(w.sw) && Delivered(w) && Received(w)
    ensures forall e: Event | Enabled(w, e) :: Fresh(w, e)
  {
    hide Reached, Next, Valid, CallOf, WroteIframe, Enabled;
    ReachedInv(w);
    if w.sw.state == LinkUp {
      ForwardDelivery(w);
      Reception(w);
    }
    forall e: Event | Enabled(w, e) ensures Fresh(w, e) {
      if WroteIframe(CallOf(w, e)) { NoStaleFrame(w, e); }
    }
  }

  // ---- one DM ----

  predicate NoDm(es: seq<Event>) { forall e <- es :: !e.TermDm? }

  lemma {:induction false} ReachedRun(w: World, es: seq<Event>)
    requires Reached(w) && Valid(w.sw) && Legal(w, es) && NoDm(es)
    ensures Reached(Exec(w, es))
    decreases |es|
  {
    hide Reached, Next, Enabled, Valid, Idle;
    if es != [] {
      ReachedStep(w, es[0]);
      ReachedRun(Next(w, es[0]), es[1..]);
    }
  }

  // A run in which this DM is the last one.
  ghost predicate LastDm(w: World, es: seq<Event>)
    requires Valid(w.sw)
  {
    Legal(w, [TermDm] + es) && NoDm(es)
  }

  // A DM that meets an idle line does no harm.
  lemma IdleIsSafe(w: World, es: seq<Event>)
    requires Reached(w) && Valid(w.sw) && Idle(w) && LastDm(w, es)
    ensures Reached(Exec(w, [TermDm] + es))
  {
    hide Reached, Next, Valid, Idle;
    assert ([TermDm] + es)[0] == TermDm && ([TermDm] + es)[1..] == es;
    ReachedStep(w, TermDm);
    ReachedRun(Next(w, TermDm), es);
  }

  // ---- a DM on a busy line ----

  function LoseFwds(n: nat): seq<Event> { if n == 0 then [] else [LoseFwd(0)] + LoseFwds(n - 1) }
  function LoseRevs(n: nat): seq<Event> { if n == 0 then [] else [LoseRev(0)] + LoseRevs(n - 1) }

  lemma {:induction false} DropFwd(w: World, n: nat)
    requires Valid(w.sw) && n <= |w.fwd|
    ensures Legal(w, LoseFwds(n)) && Exec(w, LoseFwds(n)) == w.(fwd := w.fwd[n..]) && NoDm(LoseFwds(n))
    decreases n
  {
    if n > 0 {
      LoseFwdCase(w);
      hide Next, Valid;
      assert LoseFwds(n)[1..] == LoseFwds(n - 1) && w.fwd[1..][n - 1..] == w.fwd[n..];
      DropFwd(Next(w, LoseFwd(0)), n - 1);
    } else {
      assert w.(fwd := w.fwd[0..]) == w;
    }
  }

  lemma LoseFwdCase(w: World)
    requires Valid(w.sw) && w.fwd != []
    ensures Next(w, LoseFwd(0)) == w.(fwd := w.fwd[1..])
  {
    assert w.fwd[..0] + w.fwd[1..] == w.fwd[1..];
  }

  lemma {:induction false} DropRev(w: World, n: nat)
    requires Valid(w.sw) && n <= |w.rev|
    ensures Legal(w, LoseRevs(n)) && Exec(w, LoseRevs(n)) == w.(rev := w.rev[n..]) && NoDm(LoseRevs(n))
    decreases n
  {
    if n > 0 {
      LoseCase(w);
      hide Next, Valid;
      assert LoseRevs(n)[1..] == LoseRevs(n - 1) && w.rev[1..][n - 1..] == w.rev[n..];
      DropRev(Next(w, LoseRev(0)), n - 1);
    } else {
      assert w.(rev := w.rev[0..]) == w;
    }
  }

  // The terminal submits its first payload.
  lemma FirstPayload(w: World)
    requires Valid(w.sw) && w.term == Terminal(true, 0, 0, None) && w.tlog == EMPTY_TERM_LOG && w.rev == []
    ensures Enabled(w, TermSubmit([1]))
    ensures var w' := Next(w, TermSubmit([1]));
            && w'.sw == w.sw && w'.slog == w.slog && w'.fwd == w.fwd && |w'.rev| == 1
            && var f := w'.rev[0];
               && IsIFrame(f.pkt.control) && f.pkt.data == [1] && f.idx == 0
               && |f.pkt.pad| == 2 && GetLcn(f.pkt.addr) == w.sw.lcn % 16
  {}

  // The switch takes a frame up.
  lemma TakenUp(w: World)
    requires Valid(w.sw) && w.sw.state == LinkUp && w.rev != []
    requires var p := w.rev[0].pkt;
             IsIFrame(p.control) && p.data != [] && |p.pad| == 2 && GetLcn(p.addr) == w.sw.lcn
    ensures var w' := Next(w, READ);
            && w'.sw.state == LinkUp && w.fwd <= w'.fwd
            && w'.slog.handed == w.slog.handed + [Handed(w.rev[0].idx, w.rev[0].pkt.data)]
  {
    hide Rcv, Octets, Valid, Address, RrPacket;
    var o := Octets(w.sw.hdlc, w.rev[0].pkt);
    ReadsPacket(w.sw.hdlc, w.rev[0].pkt);
    ReadFacts(w.sw, None, Got(o), true, 2);
    ReceiveResult(w.sw, None, Got(o), true, 2);
  }

  const STALE_UA := [READ, READ, TermSubmit([1]), READ, TermRead]

  // A DM in front of the UA that answers an earlier SABM: the UA opens the link while the
  // SABM for this DM is still on its way to the terminal. What the switch hands up in
  // between belongs to no stream once the terminal has taken that SABM.
  lemma StaleUa(w: World)
    requires Valid(w.sw) && w.sw.lcn < 16 && w.fwd == [] && |w.rev| == 2
    requires w.term == Terminal(true, 0, 0, None) && w.tlog == EMPTY_TERM_LOG
    requires w.rev[0].pkt.control == FRAME_DM && |w.rev[0].pkt.pad| == 2
    requires w.rev[1].pkt.control == FRAME_UA && |w.rev[1].pkt.pad| == 2
    ensures Legal(w, STALE_UA) && !Received(Exec(w, STALE_UA))
  {
    hide Next, Valid, Address, Resent, CallOf;
    DeliverCases(w);
    var w1 := Next(w, READ);
    DeliverCases(w1);
    var w2 := Next(w1, READ);
    FirstPayload(w2);
    var w3 := Next(w2, TermSubmit([1]));
    TakenUp(w3);
    var w4 := Next(w3, READ);
    assert w4.fwd[0].pkt.control == FRAME_SABM;
    SabmCase(w4);
    var w5 := Next(w4, TermRead);
    ChainRun(w, STALE_UA, [w, w1, w2, w3, w4, w5]);
    HandedNotSent(w5);
  }

  lemma HandedNotSent(w: World)
    requires w.sw.state == LinkUp && w.sw.lcn < 16 && w.slog.handed == [Handed(0, [1])] && w.tlog == EMPTY_TERM_LOG
    ensures !Received(w)
  {
    DedupLast(w.slog.handed);
  }

  // A terminal that just took a SABM, with its UA behind a DM and nothing on the way to it.
  ghost predicate UaBehindDm(w: World) {
    && w.term == Terminal(true, 0, 0, None) && w.tlog == EMPTY_TERM_LOG && w.fwd == [] && |w.rev| == 2
    && w.rev[0].pkt.control == FRAME_DM && |w.rev[0].pkt.pad| == 2
    && w.rev[1].pkt.control == FRAME_UA && |w.rev[1].pkt.pad| == 2
  }

  // What a busy line of a terminal that is down looks like: a DM last on the way to the
  // switch, or none and a SABM last on the way to the terminal.
  lemma BusyShape(w: World)
    requires Inv(w) && !w.term.up && !Idle(w)
    ensures if w.rev != [] then var f := w.rev[|w.rev| - 1]; f.pkt.control == FRAME_DM && |f.pkt.pad| == 2
            else w.fwd != [] && w.fwd[|w.fwd| - 1].pkt.control == FRAME_SABM
  {
    hide Counts, HandedOk, TermOk, Ordered, SwitchOk;
    if Joined(w) {
      assert forall f <- w.fwd :: FwdOk(w.slog, w.tlog, f);
      var f :| f in w.rev && f.pkt.control == FRAME_DM;
      assert RevOk(w.slog, w.tlog, w.sw.lcn, f);
    }
  }

  lemma NextDm(w: World, es: seq<Event>)
    requires Valid(w.sw) && !w.term.up && Legal(Next(w, TermDm), es)
    ensures Enabled(w, TermDm) && Legal(w, [TermDm] + es)
    ensures Exec(w, [TermDm] + es) == Exec(Next(w, TermDm), es)
  {
    hide Next, Valid;
    assert ([TermDm] + es)[0] == TermDm && ([TermDm] + es)[1..] == es;
  }

  const TAKEN := [READ, TermRead]

  // Behind another DM: everything else is lost, the switch answers the first DM and the
  // terminal takes that SABM.
  lemma BehindDm(w: World) returns (es: seq<Event>)
    requires Valid(w.sw) && w.fwd == [] && |w.rev| >= 2
    requires forall i :: |w.rev| - 2 <= i < |w.rev| ==>
               w.rev[i].pkt.control == FRAME_DM && |w.rev[i].pkt.pad| == 2
    ensures Legal(w, es) && NoDm(es) && UaBehindDm(Exec(w, es)) && Exec(w, es).sw.lcn == w.sw.lcn
  {
    hide Next, Valid, Address, Resent, CallOf, Exec, Legal;
    var n := |w.rev| - 2;
    DropRev(w, n);
    var w1 := Exec(w, LoseRevs(n));
    DeliverCases(w1);
    var w2 := Next(w1, READ);
    SabmCase(w2);
    var w3 := Next(w2, TermRead);
    ChainRun(w1, TAKEN, [w1, w2, w3]);
    ExecAppend(w, LoseRevs(n), TAKEN);
    es := LoseRevs(n) + TAKEN;
  }

  // Behind a SABM: the terminal takes it after asking again.
  lemma BehindSabm(w: World) returns (es: seq<Event>)
    requires Valid(w.sw) && w.fwd != [] && w.fwd[|w.fwd| - 1].pkt.control == FRAME_SABM
    requires |w.rev| == 1 && w.rev[0].pkt.control == FRAME_DM && |w.rev[0].pkt.pad| == 2
    ensures Legal(w, es) && NoDm(es) && UaBehindDm(Exec(w, es)) && Exec(w, es).sw.lcn == w.sw.lcn
  {
    hide Next, Valid, Address, Exec, Legal;
    var n := |w.fwd| - 1;
    DropFwd(w, n);
    var w1 := Exec(w, LoseFwds(n));
    SabmCase(w1);
    ExecOne(w1, TermRead);
    ExecAppend(w, LoseFwds(n), [TermRead]);
    es := LoseFwds(n) + [TermRead];
  }

  // A DM on a busy line makes a run possible, with no DM after it, in which reception fails.
  lemma BusyFails(w: World) returns (es: seq<Event>)
    requires Reached(w) && Valid(w.sw) && !w.term.up && w.sw.lcn < 16 && !Idle(w)
    ensures LastDm(w, es) && !Received(Exec(w, [TermDm] + es))
  {
    hide Reached, Next, Valid, Exec, Legal, Idle, Inv, Received;
    ReachedInv(w);
    BusyShape(w);
    DmCase(w);
    var w1 := Next(w, TermDm);
    var a, b := [], [];
    if w.rev != [] {
      assert w1.rev[|w.rev| - 1] == w1.rev[..|w.rev|][|w.rev| - 1] == w.rev[|w.rev| - 1];
      a := LoseFwds(|w1.fwd|);
      DropFwd(w1, |w1.fwd|);
      b := BehindDm(Exec(w1, a));
    } else {
      NothingDone(w1);
      b := BehindSabm(w1);
    }
    ExecAppend(w1, a, b);
    var w2 := Exec(w1, a + b);
    StaleUa(w2);
    ExecAppend(w1, a + b, STALE_UA);
    es := a + b + STALE_UA;
    NextDm(w, es);
  }

  lemma NothingDone(w: World)
    requires Valid(w.sw)
    ensures Legal(w, []) && Exec(w, []) == w
  {}

  // The exact condition for one DM: reception is safe in every run in which it is the last
  // DM if and only if it meets an idle line; everything else proved of reachable states
  // then holds too.
  lemma OneDmExactly(w: World)
    requires Reached(w) && Valid(w.sw) && !w.term.up && w.sw.lcn < 16
    ensures Idle(w) <==> forall es | LastDm(w, es) :: Received(Exec(w, [TermDm] + es))
    ensures Idle(w) ==> forall es | LastDm(w, es) :: Reached(Exec(w, [TermDm] + es))
  {
    hide Reached, Next, Valid, Exec, Idle, Received, Legal, NoDm;
    if Idle(w) {
      forall es | LastDm(w, es)
        ensures Reached(Exec(w, [TermDm] + es)) && Received(Exec(w, [TermDm] + es))
      {
        IdleIsSafe(w, es);
        ReachedKeeps(Exec(w, [TermDm] + es));
      }
    } else {
      var es := BusyFails(w);
    }
  }

  // ---- the rule a terminal follows ----

  // A run from the start in which a DM is sent only with at most k of them unanswered.
  ghost predicate UpTo(hdlc: bool, lcn: Octet, es: seq<Event>, k: int) {
    Legal(InitialWorld(hdlc, lcn), es) && Patient(InitialWorld(hdlc, lcn), es, 0, k)
  }

  // The number of DMs unanswered after a run.
  ghost function Balance(w: World, es: seq<Event>, n: int): int
    requires Valid(w.sw) && Legal(w, es)
    decreases |es|
  {
    if es == [] then n else Balance(Next(w, es[0]), es[1..], Unanswered(w, es[0], n))
  }

  lemma BalanceNothing(w: World, n: int)
    requires Valid(w.sw) && Legal(w, [])
    ensures Balance(w, [], n) == n
  {}

  lemma PatientStep(w: World, es: seq<Event>, n: int, k: int)
    requires Valid(w.sw) && Legal(w, es) && es != []
    ensures Enabled(w, es[0]) && Legal(Next(w, es[0]), es[1..])
    ensures Exec(w, es) == Exec(Next(w, es[0]), es[1..])
    ensures Patient(w, es, n, k) <==>
            (es[0].TermDm? ==> n <= k) && Patient(Next(w, es[0]), es[1..], Unanswered(w, es[0], n), k)
    ensures Balance(w, es, n) == Balance(Next(w, es[0]), es[1..], Unanswered(w, es[0], n))
  {
    hide Next, Enabled, Valid, Unanswered;
  }

  lemma {:induction false} PatientAppend(w: World, a: seq<Event>, b: seq<Event>, n: int, k: int)
    requires Valid(w.sw) && Legal(w, a) && Legal(Exec(w, a), b)
    requires Patient(w, a, n, k) && Patient(Exec(w, a), b, Balance(w, a, n), k)
    ensures Legal(w, a + b) && Patient(w, a + b, n, k)
    decreases |a|
  {
    hide Next, Enabled, Valid, Unanswered, Patient, Legal, Exec, Balance;
    ExecAppend(w, a, b);
    if a == [] {
      NothingDone(w);
      BalanceNothing(w, n);
      assert a + b == b;
    } else {
      PatientStep(w, a, n, k);
      PatientAppend(Next(w, a[0]), a[1..], b, Unanswered(w, a[0], n), k);
      PatientStep(w, a + b, n, k);
      assert (a + b)[0] == a[0] && (a + b)[1..] == a[1..] + b;
    }
  }

  lemma {:induction false} NoDmPatient(w: World, es: seq<Event>, n: int, k: int)
    requires Valid(w.sw) && Legal(w, es) && NoDm(es)
    ensures Patient(w, es, n, k)
    decreases |es|
  {
    hide Next, Enabled, Valid, Unanswered;
    if es != [] {
      NoDmPatient(Next(w, es[0]), es[1..], Unanswered(w, es[0], n), k);
    }
  }

  // A laxer rule allows more runs.
  lemma {:induction false} LaxerPatient(w: World, es: seq<Event>, n: int, j: int, k: int)
    requires Valid(w.sw) && Legal(w, es) && j <= k && Patient(w, es, n, j)
    ensures Patient(w, es, n, k)
    decreases |es|
  {
    hide Next, Enabled, Valid, Unanswered;
    if es != [] {
      LaxerPatient(Next(w, es[0]), es[1..], Unanswered(w, es[0], n), j, k);
    }
  }

  // A DM first, with at most k unanswered, and then a run that starts with one more.
  lemma PatientDm(w: World, es: seq<Event>, n: int, k: int)
    requires Valid(w.sw) && !w.term.up && n <= k && Legal(Next(w, TermDm), es) && Patient(Next(w, TermDm), es, n + 1, k)
    ensures Legal(w, [TermDm] + es) && Patient(w, [TermDm] + es, n, k)
    ensures Balance(w, [TermDm] + es, n) == Balance(Next(w, TermDm), es, n + 1)
  {
    hide Next, Valid, Legal;
    NextDm(w, es);
    assert ([TermDm] + es)[0] == TermDm && ([TermDm] + es)[1..] == es;
  }

  lemma {:induction false} NoTake(w: World, es: seq<Event>, n: int)
    requires Valid(w.sw) && Legal(w, es) && forall e <- es :: e.Deliver?
    ensures Balance(w, es, n) == n
    decreases |es|
  {
    hide Next, Enabled, Valid;
    if es != [] {
      assert es[0] in es;
      NoTake(Next(w, es[0]), es[1..], n);
    }
  }

  // The two DMs of the overlap, the second with one unanswered.
  lemma TwoDmsPatient(lcn: Octet)
    requires Legal(InitialWorld(false, lcn), TWO_DMS)
    ensures Patient(InitialWorld(false, lcn), TWO_DMS, 0, 1) && Balance(InitialWorld(false, lcn), TWO_DMS, 0) == 2
  {
    hide Next, Valid, Legal;
    var w0, pair := InitialWorld(false, lcn), [READ, READ];
    DmCase(w0);
    var w1 := Next(w0, TermDm);
    DmCase(w1);
    var w2 := Next(w1, TermDm);
    LegalTail(w0, TWO_DMS);
    LegalTail(w1, TWO_DMS[1..]);
    assert TWO_DMS[1..][1..] == pair;
    NoDmPatient(w2, pair, 2, 1);
    NoTake(w2, pair, 2);
    PatientDm(w1, pair, 1, 1);
    assert TWO_DMS == [TermDm] + ([TermDm] + pair);
    PatientDm(w0, [TermDm] + pair, 0, 1);
  }

  lemma LegalTail(w: World, es: seq<Event>)
    requires Valid(w.sw) && es != [] && Legal(w, es)
    ensures Enabled(w, es[0]) && Legal(Next(w, es[0]), es[1..])
  {
    hide Next, Valid, Enabled;
  }

  // The restart between them takes a SABM first.
  lemma RestartPatient(w: World)
    requires Valid(w.sw) && Legal(w, RESTART) && w.fwd != [] && w.fwd[0].pkt.control == FRAME_SABM
    ensures Patient(w, RESTART, 2, 1)
  {
    hide Next, Valid, Legal;
    LegalTail(w, RESTART);
    var w1 := Next(w, TermRead);
    LegalTail(w1, RESTART[1..]);
    var w2 := Next(w1, TermDrop);
    LegalTail(w2, RESTART[1..][1..]);
    var w3 := Next(w2, TermDm);
    NoDmPatient(w3, RESTART[1..][1..][1..], 2, 1);
  }

  // The overlapping run up to the point where the link is up again, and whatever follows
  // without a DM, keeps to the rule with one DM unanswered.
  lemma PrefixPatient(lcn: Octet, more: seq<Event>)
    requires Legal(InitialWorld(false, lcn), PREFIX + more) && NoDm(more)
    ensures UpTo(false, lcn, PREFIX + more, 1)
  {
    hide Next, Valid, Legal, Exec, Patient, Balance, NoDm, Line, Address;
    var w0 := InitialWorld(false, lcn);
    var w2 := TwoDms(lcn);
    var w6 := Restarts(w2);
    SabmFirst(w2);
    TwoDmsPatient(lcn);
    RestartPatient(w2);
    var rest := FIRST + REOPEN + more;
    assert PREFIX + more == TWO_DMS + (RESTART + rest);
    LegalSplit(w0, TWO_DMS, RESTART + rest);
    LegalSplit(w2, RESTART, rest);
    assert NoDm(rest) by { RestHasNoDm(more); }
    NoDmPatient(w6, rest, Balance(w2, RESTART, 2), 1);
    PatientAppend(w2, RESTART, rest, 2, 1);
    PatientAppend(w0, TWO_DMS, RESTART + rest, 0, 1);
  }

  lemma SabmFirst(w: World)
    requires Line(w, [FRAME_SABM, FRAME_SABM], [])
    ensures w.fwd != [] && w.fwd[0].pkt.control == FRAME_SABM
  {}

  lemma RestHasNoDm(more: seq<Event>)
    requires NoDm(more)
    ensures NoDm(FIRST + REOPEN + more)
  {}

  lemma {:induction false} LegalSplit(w: World, a: seq<Event>, b: seq<Event>)
    requires Valid(w.sw) && Legal(w, a + b)
    ensures Legal(w, a) && Legal(Exec(w, a), b)
    decreases |a|
  {
    hide Next, Enabled, Valid;
    if a == [] {
      assert a + b == b;
    } else {
      assert (a + b)[0] == a[0] && (a + b)[1..] == a[1..] + b;
      LegalSplit(Next(w, a[0]), a[1..], b);
    }
  }

  // What each rule promises, in every run that keeps to it.
  ghost predicate AlwaysDelivers(k: int) {
    forall hdlc: bool, lcn: Octet, es: seq<Event> | UpTo(hdlc, lcn, es, k) ::
      Delivered(Exec(InitialWorld(hdlc, lcn), es))
  }

  ghost predicate AlwaysReceives(k: int) {
    forall hdlc: bool, lcn: Octet, es: seq<Event> | UpTo(hdlc, lcn, es, k) ::
      Received(Exec(InitialWorld(hdlc, lcn), es))
  }

  ghost predicate NeverStale(k: int) {
    forall hdlc: bool, lcn: Octet, es: seq<Event>, e: Event |
      UpTo(hdlc, lcn, es, k) && Enabled(Exec(InitialWorld(hdlc, lcn), es), e) ::
      Fresh(Exec(InitialWorld(hdlc, lcn), es), e)
  }

  // No DM unanswered: everything holds.
  lemma PatientKeeps(k: int)
    requires k <= 0
    ensures AlwaysDelivers(k) && AlwaysReceives(k) && NeverStale(k)
  {
    hide Legal, Exec, Patient, Reached, Delivered, Received, Fresh, Enabled;
    forall hdlc: bool, lcn: Octet, es: seq<Event> | UpTo(hdlc, lcn, es, k)
      ensures Reached(Exec(InitialWorld(hdlc, lcn), es))
    {
      PatientTerminal(hdlc, lcn, es, k);
    }
    forall hdlc: bool, lcn: Octet, es: seq<Event> | UpTo(hdlc, lcn, es, k)
      ensures Delivered(Exec(InitialWorld(hdlc, lcn), es)) && Received(Exec(InitialWorld(hdlc, lcn), es))
      ensures forall e: Event | Enabled(Exec(InitialWorld(hdlc, lcn), es), e) ::
                Fresh(Exec(InitialWorld(hdlc, lcn), es), e)
    {
      ReachedKeeps(Exec(InitialWorld(hdlc, lcn), es));
    }
  }

  lemma Laxer(hdlc: bool, lcn: Octet, es: seq<Event>, k: int)
    requires UpTo(hdlc, lcn, es, 1) && k >= 1
    ensures UpTo(hdlc, lcn, es, k)
  {
    LaxerPatient(InitialWorld(hdlc, lcn), es, 0, 1, k);
  }

  // The exact rules: each of the three properties holds in all runs of terminals that send
  // a DM with at most k unanswered if and only if k leaves none unanswered.
  lemma DeliveryExactly(k: int)
    ensures AlwaysDelivers(k) <==> k <= 0
  {
    hide Legal, Exec, Patient, UpTo;
    if k <= 0 {
      PatientKeeps(k);
    } else {
      var es := FalseAcknowledgement(0);
      PrefixPatient(0, FALSE_ACK);
      Laxer(false, 0, es, k);
    }
  }

  lemma FreshExactly(k: int)
    ensures NeverStale(k) <==> k <= 0
  {
    hide Legal, Exec, Patient, UpTo;
    if k <= 0 {
      PatientKeeps(k);
    } else {
      var w := StaleFrameSent(0);
      assert PREFIX + [] == PREFIX;
      PrefixPatient(0, []);
      Laxer(false, 0, PREFIX, k);
      NotFresh(w);
    }
  }

  lemma NotFresh(w: World)
    requires Valid(w.sw) && Enabled(w, READ) && WroteIframe(CallOf(w, READ))
    requires w.slog.admitted == []
    ensures !Fresh(w, READ)
  {
    hide Rcv, Octets, Valid;
  }

  lemma ReceptionExactly(k: int)
    ensures AlwaysReceives(k) <==> k <= 0
  {
    hide Legal, Exec, Patient, UpTo, Next, Valid, Received;
    if k <= 0 {
      PatientKeeps(k);
    } else {
      var es := ReceptionFails();
      Laxer(false, 0, es, k);
    }
  }

  // A second DM right after the first, which is still on the line.
  lemma ReceptionFails() returns (es: seq<Event>)
    ensures UpTo(false, 0, es, 1) && !Received(Exec(InitialWorld(false, 0), es))
  {
    hide Legal, Exec, Patient, Next, Valid, Received, Reached, Idle;
    var w0 := InitialWorld(false, 0);
    NothingYet(w0);
    var w1 := Next(w0, TermDm);
    DmCase(w0);
    ReachedStep(w0, TermDm);
    NotIdle(w1);
    var more := BusyFails(w1);
    LegalSplit(w1, [TermDm], more);
    ExecOne(w1, TermDm);
    NoDmPatient(Next(w1, TermDm), more, 2, 1);
    PatientDm(w1, more, 1, 1);
    PatientDm(w0, [TermDm] + more, 0, 1);
    NextDm(w0, [TermDm] + more);
    es := [TermDm] + ([TermDm] + more);
  }

  lemma NothingYet(w: World)
    requires w == InitialWorld(false, 0)
    ensures Reached(w) && Idle(w) && Valid(w.sw)
  {
    assert Legal(InitialWorld(false, 0), []) && Exec(InitialWorld(false, 0), []) == w;
  }

  lemma NotIdle(w: World)
    requires w.rev != [] && w.rev[0].pkt.control == FRAME_DM
    ensures !Idle(w)
  {
    assert w.rev[0] in w.rev;
  }
}
