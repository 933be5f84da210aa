// Progress: a timer expiry and the delivery of what is in flight free the switch to
// send again.

module DcpWorldProgress {
  import opened Options
  import opened DcpFrame
  import opened DcpClock
  import opened DcpLink
  import opened DcpLinkRuns
  import opened DcpWorld
  import opened DcpWorldSafety
  import opened DcpWorldTheorems

  // The clock and the fate of the write at one delivery.
  datatype Env = Env(now: Option<Timespec>, wres: int, onWire: bool)

  function Reads(n: nat): seq<Event> { if n == 0 then [] else [TermRead] + Reads(n - 1) }

  function Delivers(n: nat, env: int -> Env): seq<Event> {
    if n == 0 then [] else [Deliver(env(n).now, env(n).wres, env(n).onWire)] + Delivers(n - 1, env)
  }

  lemma {:induction false} ExecAppend(w: World, a: seq<Event>, b: seq<Event>)
    requires Valid(w.sw) && Legal(w, a) && Legal(Exec(w, a), b)
    ensures Legal(w, a + b) && Exec(w, a + b) == Exec(Exec(w, a), b)
    decreases |a|
  {
    hide Next, Enabled, Valid;
    if a == [] {
      assert a + b == b;
    } else {
      assert (a + b)[0] == a[0] && (a + b)[1..] == a[1..] + b;
      ExecAppend(Next(w, a[0]), a[1..], b);
    }
  }

  lemma ExecOne(w: World, e: Event)
    requires Valid(w.sw) && Enabled(w, e)
    ensures Legal(w, [e]) && Exec(w, [e]) == Next(w, e)
  {
    hide Next, Enabled, Valid;
    assert [e][1..] == [];
    assert Legal(Next(w, e), []) && Exec(Next(w, e), []) == Next(w, e);
  }

  // The newest packet to the terminal is the outstanding frame.
  ghost predicate NewestOut(w: World) {
    && Inv(w) && w.term.up && w.sw.state == LinkUp && w.fwd != []
    && var f := w.fwd[|w.fwd| - 1];
       IsIFrame(f.pkt.control) && f.idx == |w.slog.admitted| - 1
  }

  // The newest packet to the switch acknowledges everything admitted.
  ghost predicate NewestAcks(w: World) {
    && Inv(w) && w.sw.state == LinkUp && w.rev != []
    && var f := w.rev[|w.rev| - 1];
       IsRr(f.pkt.control) && f.ack == |w.slog.admitted|
  }

  // One read by the terminal, seen from the outstanding frame.
  lemma ReadStep(w: World)
    requires NewestOut(w)
    ensures Valid(w.sw)
    ensures var w' := Next(w, TermRead);
            && |w'.fwd| == |w.fwd| - 1 && |w'.rev| <= |w.rev| + 1
            && w'.slog == w.slog && w'.sw == w.sw
            && if |w.fwd| > 1 then NewestOut(w') else NewestAcks(w')
  {
    hide Counts, TermOk, Ordered, RevOk, DmLast, Dedup, NonEmpty, SwitchOk, Valid, Waiting;
    InvSwitch(w);
    TermReadEvent(w);
    UpIsJoined(w);
    PopFwd(w);
    var w' := Next(w, TermRead);
    if |w.fwd| == 1 { LastRead(w); }
  }

  lemma LastRead(w: World)
    requires NewestOut(w) && |w.fwd| == 1
    ensures Valid(w.sw) && NewestAcks(Next(w, TermRead))
  {
    hide Ordered, RevOk, DmLast, Dedup, NonEmpty, Waiting, SwitchOk, Valid;
    InvSwitch(w);
    TermReadEvent(w);
    UpIsJoined(w);
    PopFwd(w);
  }

  lemma {:induction false} DrainFwd(w: World)
    requires NewestOut(w)
    ensures Valid(w.sw) && Legal(w, Reads(|w.fwd|))
    ensures var w' := Exec(w, Reads(|w.fwd|));
            NewestAcks(w') && w'.slog.admitted == w.slog.admitted && |w'.rev| <= |w.rev| + |w.fwd|
    decreases |w.fwd|
  {
    hide NewestOut, NewestAcks, Next, Valid;
    NonEmptyOut(w);
    ReadStep(w);
    var w1 := Next(w, TermRead);
    assert Reads(|w.fwd|)[1..] == Reads(|w.fwd| - 1);
    if |w.fwd| > 1 {
      DrainFwd(w1);
    }
  }

  lemma NonEmptyOut(w: World)
    requires NewestOut(w)
    ensures w.fwd != []
  {}

  // One read by the switch, seen from the newest acknowledgement.
  lemma DeliverStep(w: World, env: Env)
    requires NewestAcks(w)
    ensures Valid(w.sw)
    ensures var w' := Next(w, Deliver(env.now, env.wres, env.onWire));
            && |w'.rev| == |w.rev| - 1
            && w'.slog.admitted == w.slog.admitted
            && if |w.rev| > 1 then NewestAcks(w') else CanSend(w'.sw) == DCP_OK
  {
    hide Rcv, Counts, TermOk, Ordered, FwdOk, RevOk, Dedup, NonEmpty, SwitchOk, Valid, Waiting, Octets,
         Resent, Acknowledged, Admitted;
    InvSwitch(w);
    UpIsJoined(w);
    var e := Deliver(env.now, env.wres, env.onWire);
    DeliverInv(w, e);
    PadOk(w);
    ReadsPacket(w.sw.hdlc, w.rev[0].pkt);
    var o := Octets(w.sw.hdlc, w.rev[0].pkt);
    ReadFacts(w.sw, env.now, Got(o), true, env.wres);
    assert w.rev[0].pkt.control != FRAME_DM;
    var w' := Next(w, e);
    assert w'.sw.state == LinkUp by { StaysUp(w, SwitchReads(w, env.now, env.wres).step, w.rev[0].pkt.control); }
    if |w.rev| == 1 { AckedIsReady(w'); }
  }

  lemma StaysUp(w: World, s: Step, control: Octet)
    requires w.sw.state == LinkUp
    requires Quiet(w.sw, s) || Acknowledged(w.sw, s) || Resent(w.sw, s)
    ensures s.link.state == LinkUp
  {}

  lemma AckedIsReady(w: World)
    requires Inv(w) && w.sw.state == LinkUp && w.slog.acked == |w.slog.admitted|
    ensures CanSend(w.sw) == DCP_OK
  {
    hide Joined, Waiting, Loaded;
  }

  lemma {:induction false} DrainRev(w: World, env: int -> Env)
    requires NewestAcks(w)
    ensures Valid(w.sw) && Legal(w, Delivers(|w.rev|, env))
    ensures var w' := Exec(w, Delivers(|w.rev|, env));
            CanSend(w'.sw) == DCP_OK && w'.slog.admitted == w.slog.admitted
    decreases |w.rev|
  {
    hide NewestAcks, Next, Valid;
    NonEmptyAcks(w);
    var n := |w.rev|;
    DeliverStep(w, env(n));
    var es := Delivers(n, env);
    assert es[1..] == Delivers(n - 1, env);
    if n > 1 {
      DrainRev(Next(w, es[0]), env);
    }
  }

  lemma NonEmptyAcks(w: World)
    requires NewestAcks(w)
    ensures w.rev != []
  {}

  // A timer expiry with a frame outstanding puts that frame behind everything in flight.
  lemma ExpiryStep(w: World, now: Option<Timespec>, wres: int)
    requires Inv(w) && w.sw.state == LinkUp && w.term.up && CanSend(w.sw) != DCP_OK && Expires(w.sw, now)
    ensures Valid(w.sw)
    ensures var w1 := Next(w, Tick(now, wres, true));
            NewestOut(w1) && |w1.fwd| == |w.fwd| + 1 && w1.rev == w.rev && w1.slog == w.slog
  {
    hide Run, Joined, Waiting, SameFrame;
    InvSwitch(w);
    Outstanding(w);
    RunFacts(w.sw, now, wres);
    TickInv(w, Tick(now, wres, true));
  }

  // From every reachable state with the link up on both sides and a frame outstanding:
  // one timer expiry whose frame gets on the line, then the terminal reading what is in
  // flight to it, then the switch reading what is in flight to it, whatever the clock
  // says and whatever becomes of what it writes meanwhile, ends with nothing outstanding
  // and no new frame admitted. The schedule is at most 2 f + r + 3 events long.
  lemma Progress(w: World, now: Option<Timespec>, wres: int, env: int -> Env) returns (es: seq<Event>)
    requires Reached(w) && Valid(w.sw) && w.sw.state == LinkUp && w.term.up
    requires CanSend(w.sw) != DCP_OK && Expires(w.sw, now)
    ensures Legal(w, es) && |es| <= 2 * |w.fwd| + |w.rev| + 3
    ensures var n := |w.fwd| + 1;
            exists m: nat :: es == [Tick(now, wres, true)] + Reads(n) + Delivers(m, env)
    ensures var w' := Exec(w, es);
            && CanSend(w'.sw) == DCP_OK && w'.slog.admitted == w.slog.admitted
            && w'.tlog.accepted == w.slog.admitted
  {
    hide NewestOut, NewestAcks, Next, Valid, Inv, Reached, Expires, Legal, Exec, Reads, Delivers, CanSend;
    ReachedInv(w);
    ExpiryStep(w, now, wres);
    var tick := [Tick(now, wres, true)];
    var w1 := Next(w, tick[0]);
    ExecOne(w, tick[0]);
    DrainFwd(w1);
    var taking := Reads(|w1.fwd|);
    var w2 := Exec(w1, taking);
    DrainRev(w2, env);
    var giving := Delivers(|w2.rev|, env);
    ExecAppend(w1, taking, giving);
    ExecAppend(w, tick, taking + giving);
    assert tick + (taking + giving) == tick + taking + giving;
    es := tick + taking + giving;
    ReadsLength(|w1.fwd|);
    DeliversLength(|w2.rev|, env);
    ReadyMeansAccepted(w, es);
  }

  lemma {:induction false} ReadsLength(n: nat)
    ensures |Reads(n)| == n && forall e <- Reads(n) :: e == TermRead
  {
    if n > 0 { ReadsLength(n - 1); }
  }

  lemma {:induction false} DeliversLength(n: nat, env: int -> Env)
    ensures |Delivers(n, env)| == n && forall e <- Delivers(n, env) :: e.Deliver?
  {
    if n > 0 { DeliversLength(n - 1, env); }
  }

  // Runs without a DM keep the invariant, so at the end equality holds again.
  lemma {:induction false} QuietRunInv(w: World, es: seq<Event>)
    requires Valid(w.sw) && Inv(w) && Legal(w, es) && forall e <- es :: !e.TermDm?
    ensures Inv(Exec(w, es))
    decreases |es|
  {
    hide Inv, Enabled, Idle, Valid, Next;
    if es != [] {
      StepInv(w, es[0]);
      QuietRunInv(Next(w, es[0]), es[1..]);
    }
  }

  lemma ReadyMeansAccepted(w: World, es: seq<Event>)
    requires Valid(w.sw) && Inv(w) && Legal(w, es) && forall e <- es :: !e.TermDm?
    requires CanSend(Exec(w, es).sw) == DCP_OK
    ensures Exec(w, es).tlog.accepted == Exec(w, es).slog.admitted
  {
    hide Legal, Exec, Next, TermOk, FwdOk, RevOk, Ordered, Dedup, NonEmpty, DmLast, Loaded;
    QuietRunInv(w, es);
  }

  // A step with no overlap leads from a reachable state to a reachable state.
  lemma ReachedStep(w: World, e: Event)
    requires Reached(w) && Valid(w.sw) && Enabled(w, e) && (e.TermDm? ==> Idle(w))
    ensures Reached(Next(w, e))
  {
    hide Legal, Exec, Next, Enabled;
    var hdlc: bool, lcn: Octet, es: seq<Event> :|
      Legal(InitialWorld(hdlc, lcn), es) && w == Exec(InitialWorld(hdlc, lcn), es) && w.clean;
    ExecOne(w, e);
    ExecAppend(InitialWorld(hdlc, lcn), es, [e]);
    CleanAfter(w, e);
  }

  // ---- what becomes of a submission ----

  // A submission adds its payload to what is being sent exactly when the link is up and
  // the answer is not busy: an error on a link that is up means a failed write of a frame
  // that was admitted all the same.
  lemma SubmissionAdmitted(w: World, e: Event)
    requires Valid(w.sw) && Enabled(w, e) && e.Submit? && e.data != []
    ensures var code, w' := Xmt(w.sw, e.cr, e.data, e.now, e.wres).code, Next(w, e);
            && w'.term == w.term && w'.tlog == w.tlog && w'.sw.state == w.sw.state
            && w'.slog == if w.sw.state == LinkUp && code != DCP_BUSY
                          then Admit(w.slog, Truncate(e.data)) else w.slog
  {
    hide Xmt, Valid, Put, Succ;
    SubmitResult(w.sw, e.cr, e.data, e.now, e.wres);
    XmtFacts(w.sw, e.cr, e.data, e.now, e.wres);
  }

  // So whatever else the answer was, failed and short writes included, the payload gets
  // through: the schedule of Progress delivers it behind everything accepted before, and
  // a caller that submits it again sends it twice.
  lemma SubmissionDelivered(w: World, e: Event, now: Option<Timespec>, wres: int, env: int -> Env)
      returns (es: seq<Event>)
    requires Reached(w) && Valid(w.sw) && Enabled(w, e) && e.Submit? && e.data != []
    requires w.sw.state == LinkUp && w.term.up
    requires Xmt(w.sw, e.cr, e.data, e.now, e.wres).code != DCP_BUSY && Expires(Next(w, e).sw, now)
    ensures Legal(Next(w, e), es) && |es| <= 2 * |Next(w, e).fwd| + |Next(w, e).rev| + 3
    ensures Exec(Next(w, e), es).tlog.accepted == w.slog.admitted + [Truncate(e.data)]
    ensures CanSend(Exec(Next(w, e), es).sw) == DCP_OK
  {
    hide Next, Valid, Reached, Legal, Exec, Expires, Xmt;
    SubmissionAdmitted(w, e);
    SubmissionBusy(w, e);
    ReachedStep(w, e);
    es := Progress(Next(w, e), now, wres, env);
  }

  lemma SubmissionBusy(w: World, e: Event)
    requires Valid(w.sw) && Enabled(w, e) && e.Submit? && e.data != [] && w.sw.state == LinkUp
    ensures CanSend(Next(w, e).sw) == DCP_BUSY
  {
    hide Xmt, Valid, Put, WroteBuffer;
    XmtFacts(w.sw, e.cr, e.data, e.now, e.wres);
  }
}
