// Bringing the link up: from which states it can come up as long as the terminal does not
// go down, and a schedule that brings it up from all of them.

module DcpWorldBringUp {
  import opened Options
  import opened DcpFrame
  import opened DcpLink
  import opened DcpLinkRuns
  import opened DcpWorld
  import opened DcpWorldSafety
  import opened DcpWorldTheorems
  import opened DcpWorldProgress
  import opened DcpWorldOverlap

  predicate Has(q: seq<Flight>, control: Octet) { exists f <- q :: f.pkt.control == control }

  // A link that is down with a terminal that thinks it is up, and nothing under way that
  // could still complete a handshake: SABM has no timer and the terminal has no reason to
  // send another DM.
  predicate Stuck(w: World) {
    && w.sw.state != LinkUp && w.term.up && !Has(w.rev, FRAME_DM)
    && (w.sw.state == ExpectUa ==> !Has(w.rev, FRAME_UA) && !Has(w.fwd, FRAME_SABM))
  }

  // Every packet of the terminal has its two trailing octets.
  ghost predicate PadsOk(w: World) { forall f <- w.rev :: |f.pkt.pad| == 2 }

  lemma PadsStep(w: World, e: Event)
    requires Valid(w.sw) && PadsOk(w) && Enabled(w, e)
    ensures PadsOk(Next(w, e))
  {
    hide Xmt, Run, Rcv, Note, Put, Expires, TermIframe, TermRr, Address;
  }

  lemma {:induction false} PadsRun(w: World, es: seq<Event>)
    requires Valid(w.sw) && PadsOk(w) && Legal(w, es)
    ensures PadsOk(Exec(w, es))
    decreases |es|
  {
    hide Next, Enabled, Valid, PadsOk;
    if es != [] {
      PadsStep(w, es[0]);
      PadsRun(Next(w, es[0]), es[1..]);
    }
  }

  // ---- no way up ----

  lemma StuckDeliver(w: World, e: Event)
    requires Valid(w.sw) && PadsOk(w) && Stuck(w) && Enabled(w, e) && e.Deliver?
    ensures Stuck(Next(w, e)) && Next(w, e).sw.state == w.sw.state
  {
    hide Rcv, Octets, Valid, Address, Resent, Acknowledged, Admitted, Note;
    assert w.rev[0] in w.rev;
    ReadsPacket(w.sw.hdlc, w.rev[0].pkt);
    ReadFacts(w.sw, e.now, Got(Octets(w.sw.hdlc, w.rev[0].pkt)), true, e.wres);
  }

  lemma StuckCall(w: World, e: Event)
    requires Valid(w.sw) && Stuck(w) && Enabled(w, e) && (e.Submit? || e.Tick? || e.Misread?)
    ensures Stuck(Next(w, e)) && Next(w, e).sw.state == w.sw.state
  {
    hide Rcv, Xmt, Run, Valid, Address, Resent, Acknowledged, Admitted, Has;
    match e
    case Submit(cr, data, now, wres, _) => XmtFacts(w.sw, cr, data, now, wres);
    case Tick(now, wres, _) => RunFacts(w.sw, now, wres);
    case Misread(now, failed) => ReadFacts(w.sw, now, if failed then Failed else Got([]), true, 0);
  }

  lemma StuckStep(w: World, e: Event)
    requires Valid(w.sw) && PadsOk(w) && Stuck(w) && Enabled(w, e) && !e.TermDrop?
    ensures Stuck(Next(w, e)) && Next(w, e).sw.state == w.sw.state
  {
    hide Rcv, Xmt, Run, Octets, Valid, Address, Note, Expires, Put;
    match e
    case Submit(_, _, _, _, _) => StuckCall(w, e);
    case Tick(_, _, _) => StuckCall(w, e);
    case Deliver(_, _, _) => StuckDeliver(w, e);
    case Misread(_, _) => StuckCall(w, e);
    case TermRead => assert w.fwd[0] in w.fwd;
    case _ =>
  }

  predicate NoDrop(es: seq<Event>) { forall e <- es :: !e.TermDrop? }

  // A stuck link stays as it is in every run in which the terminal does not go down.
  lemma {:induction false} StuckStays(w: World, es: seq<Event>)
    requires Valid(w.sw) && PadsOk(w) && Stuck(w) && Legal(w, es) && NoDrop(es)
    ensures Stuck(Exec(w, es)) && Exec(w, es).sw.state == w.sw.state
    decreases |es|
  {
    hide Next, Enabled, Valid, Stuck, PadsOk;
    if es != [] {
      StuckStep(w, es[0]);
      PadsStep(w, es[0]);
      StuckStays(Next(w, es[0]), es[1..]);
    }
  }

  // ---- the way up ----

  // Something is under way that completes a handshake if nothing is lost.
  predicate Hopeful(w: World) {
    || Has(w.rev, FRAME_DM)
    || (w.sw.state == ExpectUa && (Has(w.rev, FRAME_UA) || Has(w.fwd, FRAME_SABM)))
  }

  // Writes succeed and get on the line; the clock may say anything.
  ghost predicate Lossless(env: int -> Env) { forall i :: env(i).wres >= 2 && env(i).onWire }

  // Events of a schedule that starts at index i: the terminal reads or sends a DM, or the
  // switch reads under the conditions env gives for that moment.
  ghost predicate Scheduled(es: seq<Event>, env: int -> Env, i: int) {
    forall j :: 0 <= j < |es| ==>
      es[j].TermRead? || es[j].TermDm? || es[j] == Deliver(env(i + j).now, env(i + j).wres, env(i + j).onWire)
  }

  lemma ScheduledAppend(a: seq<Event>, b: seq<Event>, env: int -> Env, i: int)
    requires Scheduled(a, env, i) && Scheduled(b, env, i + |a|)
    ensures Scheduled(a + b, env, i)
  {
    var es := a + b;
    forall j | 0 <= j < |es|
      ensures es[j].TermRead? || es[j].TermDm? || es[j] == Deliver(env(i + j).now, env(i + j).wres, env(i + j).onWire)
    {
      if j >= |a| {
        assert es[j] == b[j - |a|] && i + |a| + (j - |a|) == i + j;
      }
    }
  }

  lemma ReadsScheduled(n: nat, env: int -> Env, i: int)
    ensures |Reads(n)| == n && Scheduled(Reads(n), env, i)
  {
    ReadsLength(n);
    assert forall j :: 0 <= j < n ==> Reads(n)[j] in Reads(n);
  }

  // One read by a switch that is down, its write getting through.
  lemma DeliverDown(w: World, env: Env)
    requires Valid(w.sw) && PadsOk(w) && w.rev != [] && w.sw.state != LinkUp && env.wres >= 2 && env.onWire
    ensures var w', control := Next(w, Deliver(env.now, env.wres, env.onWire)), w.rev[0].pkt.control;
            && w'.rev == w.rev[1..] && w'.term == w.term
            && if control == FRAME_DM then
                 w'.sw.state == ExpectUa && |w'.fwd| == |w.fwd| + 1 && Has(w'.fwd, FRAME_SABM)
               else if control == FRAME_UA && w.sw.state == ExpectUa then w'.sw.state == LinkUp && w'.fwd == w.fwd
               else w'.sw.state == w.sw.state && w'.fwd == w.fwd
  {
    hide Rcv, Octets, Resent, Acknowledged, Admitted, Note, Address;
    var o, e := Octets(w.sw.hdlc, w.rev[0].pkt), Deliver(env.now, env.wres, env.onWire);
    assert w.rev[0] in w.rev;
    ReadsPacket(w.sw.hdlc, w.rev[0].pkt);
    ReadFacts(w.sw, env.now, Got(o), true, env.wres);
    var w' := Next(w, e);
    if w.rev[0].pkt.control == FRAME_DM {
      assert w'.fwd[|w.fwd|].pkt.control == FRAME_SABM && w'.fwd[|w.fwd|] in w'.fwd;
    }
  }

  // What one delivery leaves of the hope.
  lemma HopeKept(w: World, env: Env)
    requires Valid(w.sw) && PadsOk(w) && w.rev != [] && w.sw.state != LinkUp && env.wres >= 2 && env.onWire
    ensures var w' := Next(w, Deliver(env.now, env.wres, env.onWire));
            && |w'.fwd| <= |w.fwd| + 1 && |w'.rev| == |w.rev| - 1 && w'.term == w.term
            && (w'.sw.state == LinkUp
                || ((Hopeful(w) ==> Hopeful(w'))
                    && (w.sw.state == ExpectUa && Has(w.rev, FRAME_UA) ==>
                          w'.sw.state == ExpectUa && Has(w'.rev, FRAME_UA))))
  {
    hide Next, Has;
    DeliverDown(w, env);
    if Has(w.rev, FRAME_DM) { HasRest(w.rev, FRAME_DM); }
    if Has(w.rev, FRAME_UA) { HasRest(w.rev, FRAME_UA); }
  }

  lemma HasRest(q: seq<Flight>, control: Octet)
    requires Has(q, control)
    ensures q != [] && (q[0].pkt.control == control || Has(q[1..], control))
  {
    var f :| f in q && f.pkt.control == control;
    assert f == q[0] || f in q[1..];
  }

  // The switch reads until it is up or nothing is left: with a UA it was waiting for on
  // the line it gets up, and with any other hope it ends waiting for a UA with a SABM on
  // the way to the terminal.
  lemma {:induction false} SwitchDrains(w: World, env: int -> Env, i: int) returns (es: seq<Event>)
    requires Valid(w.sw) && PadsOk(w) && w.sw.state != LinkUp && Lossless(env)
    ensures Legal(w, es) && Scheduled(es, env, i) && |es| <= |w.rev|
    ensures var w' := Exec(w, es);
            && PadsOk(w')
            && (w.sw.state == ExpectUa && Has(w.rev, FRAME_UA) ==> w'.sw.state == LinkUp)
            && (w'.sw.state != LinkUp ==>
                  && w'.rev == [] && |w'.fwd| <= |w.fwd| + |w.rev|
                  && (Hopeful(w) ==> w'.sw.state == ExpectUa && Has(w'.fwd, FRAME_SABM)))
    decreases |w.rev|
  {
    hide Next, Valid, PadsOk, Enabled;
    es := [];
    if w.rev != [] {
      var e := Deliver(env(i).now, env(i).wres, env(i).onWire);
      CanDeliver(w, e);
      HopeKept(w, env(i));
      PadsStep(w, e);
      var w1 := Next(w, e);
      var rest := [];
      if w1.sw.state == LinkUp {
        ExecOne(w, e);
      } else {
        hide Hopeful, Has;
        rest := SwitchDrains(w1, env, i + 1);
      }
      es := [e] + rest;
      ExecOne(w, e);
      ExecAppend(w, [e], rest);
      ScheduledAppend([e], rest, env, i);
    }
  }

  lemma CanDeliver(w: World, e: Event)
    requires w.rev != [] && e.Deliver?
    ensures Enabled(w, e)
  {}

  // One read by the terminal.
  lemma TermTakes(w: World)
    requires Valid(w.sw) && w.fwd != []
    ensures var w' := Next(w, TermRead);
            && w'.sw == w.sw && w'.fwd == w.fwd[1..] && w.rev <= w'.rev && |w'.rev| <= |w.rev| + 1
            && (w.fwd[0].pkt.control == FRAME_SABM ==> Has(w'.rev, FRAME_UA))
  {
    hide TermRr, Address;
    var w' := Next(w, TermRead);
    if w.fwd[0].pkt.control == FRAME_SABM {
      assert w'.rev[|w.rev|].pkt.control == FRAME_UA && w'.rev[|w.rev|] in w'.rev;
    }
  }

  // The terminal reads everything: a SABM among it is answered by a UA.
  lemma {:induction false} TerminalDrains(w: World)
    requires Valid(w.sw) && PadsOk(w)
    ensures Legal(w, Reads(|w.fwd|))
    ensures var w' := Exec(w, Reads(|w.fwd|));
            && PadsOk(w') && w'.sw == w.sw && w.rev <= w'.rev && |w'.rev| <= |w.rev| + |w.fwd|
            && (Has(w.fwd, FRAME_SABM) ==> Has(w'.rev, FRAME_UA))
    decreases |w.fwd|
  {
    hide Next, Valid, PadsOk;
    if w.fwd != [] {
      TermTakes(w);
      PadsStep(w, TermRead);
      var w1 := Next(w, TermRead);
      TerminalDrains(w1);
      assert Reads(|w.fwd|)[1..] == Reads(|w.fwd| - 1);
      if Has(w.fwd, FRAME_SABM) { HasRest(w.fwd, FRAME_SABM); }
      assert forall f <- w1.rev :: f in Exec(w1, Reads(|w1.fwd|)).rev;
    }
  }

  lemma CanAsk(w: World)
    requires !w.term.up
    ensures Enabled(w, TermDm)
  {}

  lemma AsksAgain(w: World)
    requires Valid(w.sw) && !w.term.up
    ensures var w' := Next(w, TermDm);
            Hopeful(w') && w'.sw == w.sw && w'.fwd == w.fwd && |w'.rev| == |w.rev| + 1
  {
    hide Address;
    var w' := Next(w, TermDm);
    assert w'.rev[|w.rev|].pkt.control == FRAME_DM && w'.rev[|w.rev|] in w'.rev;
  }

  // Bring-up: from every state that is not stuck a schedule without any loss brings the
  // link up: a DM if nothing is under way, the switch reading, the terminal reading, and
  // the switch reading again, whatever the clock says. It is at most 2 f + 3 r + 4 events
  // long for f packets on the way to the terminal and r on the way to the switch.
  lemma BringUp(w: World, env: int -> Env) returns (es: seq<Event>)
    requires Valid(w.sw) && PadsOk(w) && w.sw.state != LinkUp && !Stuck(w) && Lossless(env)
    ensures Legal(w, es) && Scheduled(es, env, 0) && NoDrop(es)
    ensures |es| <= 2 * |w.fwd| + 3 * |w.rev| + 4
    ensures Exec(w, es).sw.state == LinkUp
  {
    hide Next, Valid, PadsOk, Enabled, Legal, Exec, Reads, Has, Lossless, Stuck, Hopeful, Scheduled, NoDrop;
    var w1, start := w, [];
    HopefulOrDown(w);
    StartScheduled(env);
    if Hopeful(w) {
      NoEvents(w);
    } else {
      start := [TermDm];
      CanAsk(w);
      AsksAgain(w);
      PadsStep(w, TermDm);
      ExecOne(w, TermDm);
      w1 := Next(w, TermDm);
    }
    var a := SwitchDrains(w1, env, |start|);
    var w2 := Exec(w1, a);
    ExecAppend(w, start, a);
    ScheduledAppend(start, a, env, 0);
    es := start + a;
    if w2.sw.state != LinkUp {
      TerminalDrains(w2);
      var taking := Reads(|w2.fwd|);
      ReadsScheduled(|w2.fwd|, env, |es|);
      var w3 := Exec(w2, taking);
      var b := SwitchDrains(w3, env, |es| + |taking|);
      ExecAppend(w, es, taking);
      ScheduledAppend(es, taking, env, 0);
      ExecAppend(w, es + taking, b);
      ScheduledAppend(es + taking, b, env, 0);
      es := es + taking + b;
    }
    ScheduledNoDrop(es, env, 0);
  }

  lemma HopefulOrDown(w: World)
    requires w.sw.state != LinkUp && !Stuck(w)
    ensures Hopeful(w) || !w.term.up
  {}

  lemma StartScheduled(env: int -> Env)
    ensures Scheduled([], env, 0) && Scheduled([TermDm], env, 0)
  {}

  lemma ScheduledNoDrop(es: seq<Event>, env: int -> Env, i: int)
    requires Scheduled(es, env, i)
    ensures NoDrop(es)
  {}

  lemma NoEvents(w: World)
    requires Valid(w.sw)
    ensures Legal(w, []) && Exec(w, []) == w
  {}

  ghost predicate ComesUp(w: World, es: seq<Event>)
    requires Valid(w.sw)
  {
    Legal(w, es) && NoDrop(es) && Exec(w, es).sw.state == LinkUp
  }

  // The exact condition: a link that is down can come up without the terminal going down
  // if and only if it is not stuck.
  lemma ComesUpExactly(w: World)
    requires Valid(w.sw) && PadsOk(w) && w.sw.state != LinkUp
    ensures (exists es: seq<Event> :: ComesUp(w, es)) <==> !Stuck(w)
  {
    hide Next, Valid, PadsOk, Enabled, Legal, Exec, Stuck, NoDrop;
    if Stuck(w) {
      forall es: seq<Event> ensures !ComesUp(w, es) {
        if Legal(w, es) && NoDrop(es) {
          StuckStays(w, es);
        }
      }
    } else {
      var es := BringUp(w, _ => Env(None, 2, true));
      assert ComesUp(w, es);
    }
  }

  // So in every state any run reaches, handshakes overlapping or not.
  lemma EveryRunComesUp(hdlc: bool, lcn: Octet, before: seq<Event>)
    requires Legal(InitialWorld(hdlc, lcn), before)
    ensures var w := Exec(InitialWorld(hdlc, lcn), before);
            w.sw.state != LinkUp ==> ((exists es: seq<Event> :: ComesUp(w, es)) <==> !Stuck(w))
  {
    hide Next, Valid, Legal, Exec, Stuck, ComesUp;
    var w0 := InitialWorld(hdlc, lcn);
    PadsRun(w0, before);
    var w := Exec(w0, before);
    if w.sw.state != LinkUp {
      ComesUpExactly(w);
    }
  }

  // Once the terminal goes down the link is not stuck any more.
  lemma DropFrees(w: World)
    requires Valid(w.sw) && w.term.up
    ensures !Stuck(Next(w, TermDrop))
  {
    hide Has;
  }

  // ---- how a link gets stuck ----

  const LOSE_UA := [TermDm, READ, TermRead, LoseRev(0)]

  // The UA is lost on the line.
  lemma LostUa(lcn: Octet) returns (w: World)
    ensures Legal(InitialWorld(false, lcn), LOSE_UA) && w == Exec(InitialWorld(false, lcn), LOSE_UA)
    ensures Stuck(w) && w.sw.state == ExpectUa && w.clean
  {
    hide Next, Valid, Address, Resent, CallOf;
    var w0 := InitialWorld(false, lcn);
    DmCase(w0);
    var w1 := Next(w0, TermDm);
    CleanAfter(w0, TermDm);
    DeliverCases(w1);
    CleanAfter(w1, READ);
    var w2 := Next(w1, READ);
    SabmCase(w2);
    CleanAfter(w2, TermRead);
    var w3 := Next(w2, TermRead);
    LoseCase(w3);
    w := Next(w3, LoseRev(0));
    ChainRun(w0, LOSE_UA, [w0, w1, w2, w3, w]);
  }

  const SHORT_SABM := [TermDm, Deliver(None, 1, true), TermRead]

  lemma ShortCase(w: World)
    requires Valid(w.sw) && w.rev != [] && w.rev[0].pkt.control == FRAME_DM && |w.rev[0].pkt.pad| == 2
    ensures var w' := Next(w, SHORT_SABM[1]);
            && w'.sw.state == Reset && w'.rev == w.rev[1..]
            && |w'.fwd| == |w.fwd| + 1 && w'.fwd[..|w.fwd|] == w.fwd
            && w'.fwd[|w.fwd|].pkt.control == FRAME_SABM
  {
    hide Rcv, Octets, WroteBuffer, SameFrame, Acknowledged, Address, RrPacket;
    ReadsPacket(w.sw.hdlc, w.rev[0].pkt);
    ReadFacts(w.sw, None, Got(Octets(w.sw.hdlc, w.rev[0].pkt)), true, 1);
  }

  // Nothing is lost, but the write of the SABM is reported short although it got on the
  // line: the switch is back in RESET and will ignore the UA.
  lemma ShortSabm(lcn: Octet) returns (w: World)
    ensures Legal(InitialWorld(false, lcn), SHORT_SABM) && w == Exec(InitialWorld(false, lcn), SHORT_SABM)
    ensures Stuck(w) && w.sw.state == Reset && w.clean
  {
    hide Next, Valid, Address, Resent, CallOf;
    var w0 := InitialWorld(false, lcn);
    DmCase(w0);
    var w1 := Next(w0, TermDm);
    CleanAfter(w0, TermDm);
    ShortCase(w1);
    CleanAfter(w1, SHORT_SABM[1]);
    var w2 := Next(w1, SHORT_SABM[1]);
    SabmCase(w2);
    CleanAfter(w2, TermRead);
    w := Next(w2, TermRead);
    ChainRun(w0, SHORT_SABM, [w0, w1, w2, w]);
  }
}
