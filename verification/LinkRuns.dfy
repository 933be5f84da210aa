// Whole runs of the switch under an adversary that chooses every call, every octet
// read, every clock value and the fate of every write.

module DcpLinkRuns {
  import opened Options
  import opened DcpFrame
  import opened DcpClock
  import opened DcpLink

  datatype Input =
    | RcvIn(now: Option<Timespec>, read: Reading, wantData: bool, wres: int)
    | XmtIn(now: Option<Timespec>, cr: bool, data: seq<Octet>, wres: int)
    | RunIn(now: Option<Timespec>, wres: int)

  function Do(l: Link, i: Input): (s: Step)
    requires Valid(l)
    ensures Keeps(l, s)
  {
    match i
    case RcvIn(now, read, want, wres) => Rcv(l, now, read, want, wres).step
    case XmtIn(now, cr, data, wres) => Xmt(l, cr, data, now, wres)
    case RunIn(now, wres) => Run(l, now, wres)
  }

  // The input that makes a live link act on a DM frame.
  predicate IsDm(l: Link, i: Input) {
    && i.RcvIn? && i.read.Got?
    && PacketLength(l.hdlc, |i.read.octets|) >= 2
    && i.read.octets[1] == FRAME_DM
  }

  predicate WroteSabm(s: Step) { s.wrote != [] && s.wrote[0].control == FRAME_SABM }
  predicate WroteIframe(s: Step) { s.wrote != [] && IsIFrame(s.wrote[0].control) }

  // ---- one call ----

  // Two buffers that would go out as the same frame, up to N(R).
  ghost predicate SameFrame(a: Buffer, b: Buffer) {
    && a.pktlen == b.pktlen && a.addr == b.addr && a.data == b.data
    && IsIFrame(a.control) == IsIFrame(b.control) && GetPf(a.control) == GetPf(b.control)
  }

  // The packet written is the buffer as it stands after the call: N(S) is the current
  // send number, N(R) the last received number plus one.
  ghost predicate WroteBuffer(s: Step) {
    && BufferOk(s.link.xpkt) && s.link.xpkt.pktlen != 0
    && s.wrote == [Outgoing(s.link.xpkt)]
    && GetNs(s.link.xpkt.control) == s.link.localNs
    && GetNr(s.link.xpkt.control) == Succ(s.link.remoteNs)
    && s.link.retransmit == IFRAME_RETRANSMIT
  }

  // The five things a call can do to a link.
  ghost predicate Quiet(l: Link, s: Step) {
    && s.wrote == [] && s.link.localNs == l.localNs && s.link.remoteNs == l.remoteNs
    && s.link.xpkt == l.xpkt
    && (l.state != LinkUp ==> s.link.remoteNr == l.remoteNr)
    && (s.link.state == l.state || (l.state == ExpectUa && s.link.state == LinkUp))
  }
  ghost predicate Restarted(l: Link, s: Step, wres: int) {
    && s.wrote == [SabmPacket(l.lcn)] && s.link.localNs == 7 && s.link.xpkt == l.xpkt
    && s.link.state == (if wres >= 2 then ExpectUa else Reset)
  }
  ghost predicate Acknowledged(l: Link, s: Step) {
    && l.state == LinkUp == s.link.state
    && s.wrote == [RrPacket(l.lcn, s.link.remoteNs + 1)]
    && s.link.localNs == l.localNs && s.link.xpkt == l.xpkt
  }
  ghost predicate Resent(l: Link, s: Step) {
    && l.state == LinkUp == s.link.state && l.xpkt.pktlen != 0
    && s.link.localNs == l.localNs && s.link.remoteNs == l.remoteNs
    && WroteBuffer(s) && SameFrame(l.xpkt, s.link.xpkt)
  }
  ghost predicate Admitted(l: Link, cr: bool, data: seq<Octet>, s: Step) {
    && l.state == LinkUp == s.link.state
    && s.link.localNs == Succ(l.localNs) == l.remoteNr == s.link.remoteNr
    && s.link.remoteNs == l.remoteNs
    && WroteBuffer(s) && s.wrote[0].data == data && s.wrote[0].addr == Address(l.lcn, cr)
  }

  // Re-sending writes the buffer and keeps the frame in it.
  lemma ResendFacts(l: Link, wres: int)
    requires Valid(l) && l.state == LinkUp && l.xpkt.pktlen != 0
    ensures var s := ResendIframe(l, wres);
            Resent(l, s) && s.link.remoteNr == l.remoteNr && s.link.time == l.time
  {
    hide WithNsNr;
  }

  // Loading the buffer and moving to the next send number admits a frame.
  lemma AdmitFacts(l: Link, cr: bool, data: seq<Octet>, keep: seq<Octet>, wres: int)
    requires Valid(l) && CanSend(l) == DCP_OK
    requires |data| <= HDLC_DATA_LEN && |data| + |keep| == DATA_SIZE
    ensures var l1 := NewIframe(LoadBuffer(l, cr, data, keep));
            && Valid(l1) && Admitted(l, cr, data, ResendIframe(l1, wres))
            && ResendIframe(l1, wres).link.time == l.time
  {
    hide WithNsNr, Address;
    var l1 := NewIframe(LoadBuffer(l, cr, data, keep));
    assert (data + keep)[..|data|] == data;
    ResendFacts(l1, wres);
  }

  lemma XmtFacts(l: Link, cr: bool, data: seq<Octet>, now: Option<Timespec>, wres: int)
    requires Valid(l)
    ensures var s := Xmt(l, cr, data, now, wres);
            if data != [] && CanSend(l) == DCP_OK
            then Admitted(l, cr, data[..Min(|data|, HDLC_DATA_LEN)], s)
            else s == Step(if data == [] then l else RefreshTime(l, now).0, s.code, [])
  {
    if data != [] && CanSend(l) == DCP_OK {
      hide ResendIframe, Millis, Address;
      var n := Min(|data|, HDLC_DATA_LEN);
      var l1 := RefreshTime(l, now).0;
      AdmitFacts(l1, cr, data[..n], l1.xpkt.data[n..], wres);
    }
  }

  // The timer branch of dcp_run is taken.
  predicate Expires(l: Link, now: Option<Timespec>) {
    && l.state == LinkUp && now.Some? && Millis(l.time, now.value) >= 0
    && l.retransmit <= Millis(l.time, now.value)
  }

  lemma RunFacts(l: Link, now: Option<Timespec>, wres: int)
    requires Valid(l)
    ensures var s := Run(l, now, wres);
            if !Expires(l, now) then Quiet(l, s) && s.link.remoteNr == l.remoteNr && s.link.state == l.state
            else if CanSend(l) == DCP_OK then Admitted(l, true, [], s)
            else if l.xpkt.pktlen != 0 then Resent(l, s) && s.link.remoteNr == l.remoteNr
            else Quiet(l, s) && s.link.remoteNr == l.remoteNr && s.link.state == l.state
  {
    hide Millis, Address, ResendIframe, WithNsNr, Outgoing;
    if Expires(l, now) {
      var l1 := RefreshTime(l, now).0;
      var l2 := l1.(retransmit := l1.retransmit - Millis(l.time, now.value));
      if CanSend(l) == DCP_OK {
        AdmitFacts(l2, true, [], Zeros(HDLC_DATA_BUFFER) + l2.xpkt.data[HDLC_DATA_BUFFER..], wres);
      } else if l.xpkt.pktlen != 0 {
        ResendFacts(l2, wres);
      } else {
        NothingToResend(l2, wres);
      }
    }
  }

  lemma NothingToResend(l: Link, wres: int)
    requires Valid(l) && l.xpkt.pktlen == 0
    ensures ResendIframe(l, wres) == Step(l, DCP_OK, [])
  {}

  lemma PktFacts(l: Link, pktlen: int, control: Octet, wres: int)
    requires Valid(l) && pktlen >= 2
    ensures var s := ProcessPkt(l, pktlen, control, wres);
            && s.link.time == l.time
            && if control == FRAME_DM then Restarted(l, s, wres)
               else if l.state == LinkUp && IsIFrame(control) then
                 Acknowledged(l, s) && s.link.remoteNr == GetNr(control) && s.link.remoteNs == GetNs(control)
               else if l.state == LinkUp && IsRr(control) then
                 && s.link.remoteNr == GetNr(control)
                 && if GetNr(control) != Succ(l.localNs) && l.xpkt.pktlen != 0 then Resent(l, s)
                    else Quiet(l, s) && s.link.state == LinkUp
               else if l.state == ExpectUa && control == FRAME_UA then
                 s == Step(l.(state := LinkUp), s.code, [])
               else s == Step(l, s.code, [])
  {
    if l.state == LinkUp && IsRr(control) {
      var l1 := l.(remoteNr := GetNr(control));
      if l1.xpkt.pktlen != 0 { ResendFacts(l1, wres); }
    }
    hide ResendIframe, RrPacket, Address;
  }

  // Reading a packet is processing its length and control octet.
  lemma RcvFacts(l: Link, now: Option<Timespec>, read: Reading, want: bool, wres: int)
    requires Valid(l)
    ensures var l1 := RefreshTime(l, now).0;
            var s := Rcv(l, now, read, want, wres).step;
            && Valid(l1)
            && if read.Got? && PacketLength(l.hdlc, |read.octets|) >= 2 then
                 var p := ProcessPkt(l1, PacketLength(l.hdlc, |read.octets|), read.octets[1], wres);
                 s.link == p.link && s.wrote == p.wrote
               else s.link == l1 && s.wrote == []
  {
    hide ResendIframe, RrPacket, Address, Millis, SendSabm, AckIframe, ProcessRr;
  }

  lemma ReadFacts(l: Link, now: Option<Timespec>, read: Reading, want: bool, wres: int)
    requires Valid(l)
    ensures var s := Rcv(l, now, read, want, wres).step;
            if read.Got? && PacketLength(l.hdlc, |read.octets|) >= 2 then
              var control := read.octets[1];
              if control == FRAME_DM then Restarted(l, s, wres)
              else if l.state == LinkUp && IsIFrame(control) then
                Acknowledged(l, s) && s.link.remoteNr == GetNr(control) && s.link.remoteNs == GetNs(control)
              else if l.state == LinkUp && IsRr(control) then
                && s.link.remoteNr == GetNr(control)
                && if GetNr(control) != Succ(l.localNs) && l.xpkt.pktlen != 0 then Resent(l, s)
                   else Quiet(l, s) && s.link.state == LinkUp
              else
                && Quiet(l, s) && s.link.remoteNr == l.remoteNr
                && s.link.state == (if l.state == ExpectUa && control == FRAME_UA then LinkUp else l.state)
            else Quiet(l, s) && s.link.state == l.state && s.link.remoteNr == l.remoteNr
  {
    RcvFacts(l, now, read, want, wres);
    if read.Got? && PacketLength(l.hdlc, |read.octets|) >= 2 {
      PktFacts(RefreshTime(l, now).0, PacketLength(l.hdlc, |read.octets|), read.octets[1], wres);
    }
    hide Rcv, ProcessPkt, Address, RrPacket, Outgoing, Millis;
  }

  // Every call, on any input, does one of the five things; it restarts the link
  // exactly when it reads a DM.
  lemma Classify(l: Link, i: Input)
    requires Valid(l)
    ensures var s := Do(l, i);
            if IsDm(l, i) then Restarted(l, s, i.wres)
            else Quiet(l, s) || Acknowledged(l, s) || Resent(l, s)
                 || exists cr, data :: Admitted(l, cr, data, s)
  {
    hide Xmt, Run, Rcv, ProcessPkt, WroteBuffer, SameFrame, Outgoing;
    match i
    case XmtIn(now, cr, data, wres) => XmtFacts(l, cr, data, now, wres);
    case RunIn(now, wres) => RunFacts(l, now, wres);
    case RcvIn(now, read, want, wres) => ReadFacts(l, now, read, want, wres);
  }

  // The send sequence number moves only in LINK_UP, only past an acknowledged frame,
  // and only by one, unless a DM restarts the link.
  lemma StepInvariant(l: Link, i: Input)
    requires Valid(l)
    ensures var s := Do(l, i);
            && Keeps(l, s)
            && (WroteSabm(s) <==> IsDm(l, i))
            && (WroteSabm(s) ==> s.link.localNs == 7)
            && (!WroteSabm(s) && s.link.localNs != l.localNs ==>
                  && l.state == LinkUp && s.link.state == LinkUp
                  && s.link.localNs == Succ(l.localNs) == l.remoteNr
                  && WroteIframe(s))
  {
    hide Do, RrPacket, Address;
    Classify(l, i);
  }

  // With a clock that never runs backwards the timer never exceeds the keep-alive period.
  ghost predicate ClockAdvances(l: Link, i: Input) {
    i.now.Some? ==> i.now.value.Normalised() && l.time.AtMost(i.now.value)
  }

  ghost predicate TimerOk(l: Link) { l.time.Normalised() && l.retransmit <= KEEPALIVE_RETRANSMIT }

  lemma StepTimer(l: Link, i: Input)
    requires Valid(l) && TimerOk(l) && ClockAdvances(l, i)
    ensures TimerOk(Do(l, i).link)
  {
    if i.now.Some? { MillisAccurate(l.time, i.now.value); }
    hide WithNsNr, Address, RrPacket, Outgoing, Millis, BufferOk, Rcv, ProcessPkt;
    if i.RcvIn? { RcvTimer(l, i.now, i.read, i.wantData, i.wres); }
  }

  lemma RcvTimer(l: Link, now: Option<Timespec>, read: Reading, want: bool, wres: int)
    requires Valid(l) && TimerOk(l) && (now.Some? ==> now.value.Normalised())
    ensures TimerOk(Rcv(l, now, read, want, wres).step.link)
  {
    hide WithNsNr, Address, RrPacket, Outgoing, Millis, BufferOk, Rcv;
    RcvFacts(l, now, read, want, wres);
  }

  // An I-frame leaves only in LINK_UP, and it is the retransmission buffer.
  lemma IframeIsBuffer(l: Link, i: Input)
    requires Valid(l) && WroteIframe(Do(l, i))
    ensures var s := Do(l, i);
            && l.state == LinkUp == s.link.state
            && WroteBuffer(s) && s.link.remoteNs == l.remoteNs
  {
    hide Do, RrPacket, Address, WroteBuffer, SameFrame;
    Classify(l, i);
  }

  // How the state can change between the three live states in one call.
  lemma StepStates(l: Link, i: Input)
    requires Valid(l)
    ensures var s := Do(l, i);
            && (s.link.state == ExpectUa && l.state != ExpectUa ==>
                  IsDm(l, i) && s.wrote == [SabmPacket(l.lcn)] && i.wres >= 2)
            && (s.link.state == LinkUp && l.state != LinkUp ==>
                  && l.state == ExpectUa && s.wrote == []
                  && s.link.localNs == 7 && s.link.remoteNr == 0 && s.link.remoteNs == 0)
  {
    hide Rcv, Xmt, Run, RrPacket, Address, WroteBuffer, SameFrame;
    Classify(l, i);
  }

  // The exact acknowledgement rule: a link that is up with a frame outstanding becomes
  // ready on one call exactly when that call reads an I-frame or an RR whose N(R) is the
  // successor of the outstanding number. The transmission itself never makes it ready.
  lemma BecomesReady(l: Link, i: Input)
    requires Valid(l) && l.state == LinkUp && CanSend(l) == DCP_BUSY
    ensures CanSend(Do(l, i).link) == DCP_OK <==>
            && i.RcvIn? && i.read.Got? && PacketLength(l.hdlc, |i.read.octets|) >= 2
            && var control := i.read.octets[1];
               (IsIFrame(control) || IsRr(control)) && GetNr(control) == Succ(l.localNs)
  {
    hide Rcv, Xmt, Run, RrPacket, Address, WroteBuffer, SameFrame;
    match i
    case XmtIn(now, cr, data, wres) => XmtFacts(l, cr, data, now, wres);
    case RunIn(now, wres) => RunFacts(l, now, wres);
    case RcvIn(now, read, want, wres) => ReadFacts(l, now, read, want, wres);
  }

  // ---- what a call reports, and the clock and timer it leaves ----

  // What one call makes of the timer: a frame sent restarts it short, an acknowledgement
  // received long, a timer call counts down by what it measured, and nothing else touches it.
  lemma TimerExactly(l: Link, i: Input)
    requires Valid(l)
    ensures var s := Do(l, i);
            s.link.retransmit ==
            if WroteIframe(s) then 300
            else match i
              case XmtIn(_, _, _, _) => l.retransmit
              case RunIn(now, _) =>
                if l.state == LinkUp && now.Some? && Millis(l.time, now.value) >= 0
                then l.retransmit - Millis(l.time, now.value) else l.retransmit
              case RcvIn(_, read, _, _) =>
                if && l.state == LinkUp && read.Got? && PacketLength(l.hdlc, |read.octets|) >= 2
                   && var c := read.octets[1]; IsIFrame(c) || (IsRr(c) && GetNr(c) == Succ(l.localNs))
                then 1010 else l.retransmit
  {
    hide Rcv, Xmt, Run, ProcessPkt, Address, RrPacket, Millis, WithNsNr, SameFrame;
    match i
    case XmtIn(now, cr, data, wres) => XmtFacts(l, cr, data, now, wres);
    case RunIn(now, wres) => RunTimer(l, now, wres);
    case RcvIn(now, read, want, wres) =>
      RcvFacts(l, now, read, want, wres);
      if read.Got? && PacketLength(l.hdlc, |read.octets|) >= 2 {
        PktTimer(RefreshTime(l, now).0, PacketLength(l.hdlc, |read.octets|), read.octets[1], wres);
      }
  }

  lemma RunTimer(l: Link, now: Option<Timespec>, wres: int)
    requires Valid(l)
    ensures var s := Run(l, now, wres);
            s.link.retransmit ==
            if WroteIframe(s) then 300
            else if l.state == LinkUp && now.Some? && Millis(l.time, now.value) >= 0
            then l.retransmit - Millis(l.time, now.value) else l.retransmit
  {
    hide Address, Millis, WithNsNr;
  }

  lemma PktTimer(l: Link, pktlen: int, control: Octet, wres: int)
    requires Valid(l) && pktlen >= 2
    ensures var s := ProcessPkt(l, pktlen, control, wres);
            s.link.retransmit ==
            if WroteIframe(s) then 300
            else if l.state == LinkUp && (IsIFrame(control) || (IsRr(control) && GetNr(control) == Succ(l.localNs)))
            then 1010 else l.retransmit
  {
    hide Address, WithNsNr;
  }

  // Every call measures from the one before: the time stamp is the newest clock value. An
  // empty submission does not look at the clock.
  lemma ClockStamp(l: Link, i: Input)
    requires Valid(l)
    ensures Do(l, i).link.time ==
            if i.now.Some? && !(i.XmtIn? && i.data == []) then i.now.value else l.time
  {
    hide Address, RrPacket, Outgoing, Millis, WithNsNr, BufferOk, Rcv, ProcessPkt;
    if i.RcvIn? {
      RcvFacts(l, i.now, i.read, i.wantData, i.wres);
      if i.read.Got? && PacketLength(l.hdlc, |i.read.octets|) >= 2 {
        PktFacts(RefreshTime(l, i.now).0, PacketLength(l.hdlc, |i.read.octets|), i.read.octets[1], i.wres);
      }
    }
  }

  // The result of a reception: the number of octets handed up, or an error exactly when
  // the read failed; octets are handed up exactly for a non-empty I-frame with our LCN.
  lemma ReceiveResult(l: Link, now: Option<Timespec>, read: Reading, want: bool, wres: int)
    requires Valid(l)
    ensures var r := Rcv(l, now, read, want, wres);
            && (read.Failed? ==> r == Received(r.step, None, []) && r.step.code == DCP_ERR)
            && (read.Got? ==>
                  var len := PacketLength(l.hdlc, |read.octets|);
                  && r.step.code == |r.data|
                  && (r.data != [] <==> want && len > 2 && IsIFrame(read.octets[1]) && GetLcn(read.octets[0]) == l.lcn)
                  && (r.data != [] ==> r.data == read.octets[2..len] && r.cr == Some(GetCr(read.octets[0]))))
  {
    hide ProcessPkt, Millis;
  }

  // Acknowledging and handing up part ways: in LINK_UP every I-frame read is acknowledged,
  // but only one for the link's own LCN is handed up.
  lemma AcknowledgedNotHanded(l: Link, now: Option<Timespec>, octets: seq<Octet>, wres: int)
    requires Valid(l) && l.state == LinkUp && PacketLength(l.hdlc, |octets|) > 2 && IsIFrame(octets[1])
    ensures var r := Rcv(l, now, Got(octets), true, wres);
            && r.step.wrote == [RrPacket(l.lcn, GetNs(octets[1]) + 1)]
            && r.step.link.remoteNr == GetNr(octets[1]) && r.step.link.remoteNs == GetNs(octets[1])
            && (r.data == octets[2..PacketLength(l.hdlc, |octets|)] <==> GetLcn(octets[0]) == l.lcn)
            && (r.data == [] <==> GetLcn(octets[0]) != l.lcn)
  {
    hide Rcv, RrPacket, Address;
    ReadFacts(l, now, Got(octets), true, wres);
    ReceiveResult(l, now, Got(octets), true, wres);
  }

  // The result of a submission: refused when the link is down or busy, otherwise how the
  // write went, compared with the length of the packet.
  lemma SubmitResult(l: Link, cr: bool, data: seq<Octet>, now: Option<Timespec>, wres: int)
    requires Valid(l) && data != []
    ensures var code := Xmt(l, cr, data, now, wres).code;
            && (code == DCP_BUSY <==> l.state == LinkUp && l.remoteNr != Succ(l.localNs))
            && (code == DCP_ERR <==> l.state != LinkUp || (l.remoteNr == Succ(l.localNs) && wres < 0))
            && (code == DCP_WARN <==>
                  CanSend(l) == DCP_OK && 0 <= wres < Min(|data|, HDLC_DATA_LEN) + 2)
            && (code == DCP_OK <==> CanSend(l) == DCP_OK && wres >= Min(|data|, HDLC_DATA_LEN) + 2)
  {
    hide Address, WithNsNr, Millis;
  }

  // ---- runs ----

  function After(l: Link, ins: seq<Input>): Link
    requires Valid(l)
    ensures Valid(After(l, ins))
  {
    if ins == [] then l
    else
      Do(After(l, ins[..|ins| - 1]), ins[|ins| - 1]).link
  }

  // The k-th call of a run.
  function Call(l: Link, ins: seq<Input>, k: nat): Step
    requires Valid(l) && k < |ins|
    ensures Call(l, ins, k).link == After(l, ins[..k + 1])
  {
    assert ins[..k + 1][..k] == ins[..k];
    Do(After(l, ins[..k]), ins[k])
  }

  lemma CallIs(l: Link, ins: seq<Input>, k: nat)
    requires Valid(l) && k < |ins|
    ensures Call(l, ins, k) == Do(After(l, ins[..k]), ins[k])
  {
    hide Valid, Do, After;
  }

  // After any prefix of any run from initialisation the state is valid, the timer is
  // bounded, and each call moves the send number as StepInvariant allows.
  lemma {:induction false} WindowOne(hdlc: bool, lcn: Octet, ins: seq<Input>)
    requires forall k :: 0 <= k < |ins| ==> ClockAdvances(After(InitialLink(hdlc, lcn), ins[..k]), ins[k])
    ensures var l := After(InitialLink(hdlc, lcn), ins);
            Valid(l) && TimerOk(l) && l.lcn == lcn && l.hdlc == hdlc
  {
    hide Do;
    var l0 := InitialLink(hdlc, lcn);
    if ins != [] {
      var front := ins[..|ins| - 1];
      forall k | 0 <= k < |front| ensures ClockAdvances(After(l0, front[..k]), front[k]) {
        assert front[..k] == ins[..k];
      }
      WindowOne(hdlc, lcn, front);
      var l := After(l0, front);
      StepInvariant(l, ins[|ins| - 1]);
      StepTimer(l, ins[|ins| - 1]);
    }
  }

  // A link waiting for UA was put there by a DM whose SABM was fully written, and has
  // not left that state since.
  lemma {:induction false} AwaitingUa(l: Link, ins: seq<Input>) returns (j: nat)
    requires Valid(l) && l.state == Reset
    requires After(l, ins).state == ExpectUa
    ensures j < |ins|
    ensures IsDm(After(l, ins[..j]), ins[j])
    ensures Call(l, ins, j).wrote == [SabmPacket(After(l, ins[..j]).lcn)] && ins[j].wres >= 2
    ensures forall h :: j < h <= |ins| ==> After(l, ins[..h]).state == ExpectUa
  {
    hide Do, Valid;
    var n := |ins| - 1;
    var front := ins[..n];
    var before := After(l, front);
    assert ins[..|ins|] == ins;
    StepStates(before, ins[n]);
    if before.state == ExpectUa {
      j := AwaitingUa(l, front);
      assert front[..j] == ins[..j];
      forall h | j < h <= |ins| ensures After(l, ins[..h]).state == ExpectUa {
        if h <= n { assert front[..h] == ins[..h]; }
      }
    } else {
      j := n;
    }
  }

  // Link-up discipline: every entry to LINK_UP at call k was prepared by a DM at some
  // earlier call j whose SABM was written in full, without a return to RESET in between,
  // and it starts with a fresh sequence state, so the first new I-frame has N(S) = 0.
  lemma LinkUpDiscipline(l: Link, ins: seq<Input>, k: nat) returns (j: nat)
    requires Valid(l) && l.state == Reset && k < |ins|
    requires After(l, ins[..k]).state != LinkUp && Call(l, ins, k).link.state == LinkUp
    ensures j < k && IsDm(After(l, ins[..j]), ins[j])
    ensures Call(l, ins, j).wrote == [SabmPacket(After(l, ins[..j]).lcn)] && ins[j].wres >= 2
    ensures forall h :: j < h <= k ==> After(l, ins[..h]).state == ExpectUa
    ensures var up := Call(l, ins, k).link;
            up.localNs == 7 && up.remoteNr == 0 && up.remoteNs == 0 && Succ(up.localNs) == 0
  {
    hide Do;
    var before := After(l, ins[..k]);
    StepStates(before, ins[k]);
    j := AwaitingUa(l, ins[..k]);
    assert ins[..k][..j] == ins[..j] && ins[..k][..j + 1] == ins[..j + 1];
    forall h | j < h <= k ensures After(l, ins[..h]).state == ExpectUa {
      assert ins[..k][..h] == ins[..h];
    }
  }

  // On any run an I-frame is written only in LINK_UP, and it is the current buffer with
  // the numbers of that moment.
  lemma IframesOnlyWhenUp(l: Link, ins: seq<Input>, k: nat)
    requires Valid(l) && k < |ins| && WroteIframe(Call(l, ins, k))
    ensures After(l, ins[..k]).state == LinkUp
    ensures WroteBuffer(Call(l, ins, k))
    ensures Call(l, ins, k).link.remoteNs == After(l, ins[..k]).remoteNs
  {
    hide *;
    CallIs(l, ins, k);
    IframeIsBuffer(After(l, ins[..k]), ins[k]);
  }

  // ---- retransmission fidelity ----

  lemma StepKeepsFrame(l: Link, i: Input)
    requires Valid(l)
    requires Do(l, i).link.localNs == l.localNs && !WroteSabm(Do(l, i))
    ensures SameFrame(l.xpkt, Do(l, i).link.xpkt)
  {
    hide Do, RrPacket, Address;
    Classify(l, i);
  }

  // No advance of the send number and no restart in calls from..to.
  ghost predicate Steady(l: Link, ins: seq<Input>, from: nat, to: nat)
    requires Valid(l) && to <= |ins|
  {
    forall h :: from <= h < to ==>
      var s := Call(l, ins, h);
      s.link.localNs == After(l, ins[..h]).localNs && !WroteSabm(s)
  }

  lemma {:induction false} SteadyKeepsFrame(l: Link, ins: seq<Input>, from: nat, to: nat)
    requires Valid(l) && from <= to <= |ins| && Steady(l, ins, from, to)
    ensures SameFrame(After(l, ins[..from]).xpkt, After(l, ins[..to]).xpkt)
    ensures After(l, ins[..from]).localNs == After(l, ins[..to]).localNs
    decreases |ins| - from
  {
    hide Do, Valid;
    if from < to {
      var s := Call(l, ins, from);
      StepKeepsFrame(After(l, ins[..from]), ins[from]);
      SteadyKeepsFrame(l, ins, from + 1, to);
    }
  }

  // Any two I-frames written with no advance and no restart after the first agree on
  // everything but N(R), and N(R) is always the last received number plus one.
  lemma RetransmissionFidelity(l: Link, ins: seq<Input>, i: nat, j: nat)
    requires Valid(l) && i < j < |ins| && Steady(l, ins, i + 1, j + 1)
    requires WroteIframe(Call(l, ins, i)) && WroteIframe(Call(l, ins, j))
    ensures var p, q := Call(l, ins, i).wrote[0], Call(l, ins, j).wrote[0];
            && p.addr == q.addr && p.data == q.data && p.pad == q.pad
            && GetNs(p.control) == GetNs(q.control)
            && GetPf(p.control) && GetPf(q.control)
            && GetNr(p.control) == Succ(After(l, ins[..i]).remoteNs)
            && GetNr(q.control) == Succ(After(l, ins[..j]).remoteNs)
  {
    hide Do, Valid, After, Call, Steady, IsIFrame, Succ;
    IframesOnlyWhenUp(l, ins, i);
    IframesOnlyWhenUp(l, ins, j);
    SteadyKeepsFrame(l, ins, i + 1, j + 1);
  }

  // ---- round trip ----

  // What dcp_xmt puts on the line, read by dcp_rcv over the same transport in whatever
  // state that link is, comes back as the first 14 octets of the payload with the same
  // C/R flag: exactly for the LCNs that fit the four address bits.
  lemma FrameRoundTrip(a: Link, b: Link, cr: bool, data: seq<Octet>,
                       now: Option<Timespec>, later: Option<Timespec>, wres: int, wres': int)
    requires Valid(a) && Valid(b) && a.hdlc == b.hdlc && a.lcn == b.lcn
    requires CanSend(a) == DCP_OK && data != []
    ensures var n := Min(|data|, HDLC_DATA_LEN);
            var sent := Xmt(a, cr, data, now, wres).wrote;
            && |sent| == 1
            && var r := Rcv(b, later, Got(Octets(a.hdlc, sent[0])), true, wres');
               (r.cr == Some(cr) && r.data == data[..n] && r.step.code == n) <==> a.lcn < 16
  {
    hide Xmt, ProcessPkt, Address, Millis;
    XmtFacts(a, cr, data, now, wres);
    var s := Xmt(a, cr, data, now, wres);
    var p := s.wrote[0];
    var n := Min(|data|, HDLC_DATA_LEN);
    assert |p.data| == n && |p.pad| == 2 && IsIFrame(p.control);
    var octets := Octets(a.hdlc, p);
    assert PacketLength(a.hdlc, |octets|) == n + 2;
    assert octets[0] == p.addr && octets[1] == p.control && octets[2..n + 2] == p.data;
  }

  // ---- a frame of an earlier link ----

  // An RR acknowledges a number other than 0, or one did and the timer expires.
  predicate AcksElsewhere(l: Link, i: Input) {
    match i
    case XmtIn(_, _, _, _) => false
    case RcvIn(_, read, _, _) =>
      && read.Got? && PacketLength(l.hdlc, |read.octets|) >= 2
      && IsRr(read.octets[1]) && GetNr(read.octets[1]) != 0
    case RunIn(now, _) => l.remoteNr != 0 && Expires(l, now)
  }

  // A link whose send number is 7 re-sends its buffer under that number exactly then.
  lemma StaleResend(l: Link, i: Input)
    requires Valid(l) && l.state == LinkUp && l.localNs == 7 && l.xpkt.pktlen != 0
    ensures var s := Do(l, i);
            && ((WroteIframe(s) && s.link.localNs == 7) <==> AcksElsewhere(l, i))
            && (AcksElsewhere(l, i) ==> SameFrame(l.xpkt, s.link.xpkt) && s.wrote == [Outgoing(s.link.xpkt)])
  {
    hide Rcv, Xmt, Run, RrPacket, Address;
    match i
    case XmtIn(now, cr, data, wres) => XmtFacts(l, cr, data, now, wres);
    case RunIn(now, wres) => RunFacts(l, now, wres);
    case RcvIn(now, read, want, wres) => ReadFacts(l, now, read, want, wres);
  }

  // On a run: after call j restarted the link and as long as nothing was admitted since,
  // call k sends the frame the buffer held before the restart exactly then.
  lemma StaleResendRun(l: Link, ins: seq<Input>, j: nat, k: nat)
    requires Valid(l) && j < k < |ins| && WroteSabm(Call(l, ins, j)) && Steady(l, ins, j + 1, k)
    requires After(l, ins[..k]).state == LinkUp && After(l, ins[..j]).xpkt.pktlen != 0
    ensures var s := Call(l, ins, k);
            && ((WroteIframe(s) && s.link.localNs == 7) <==> AcksElsewhere(After(l, ins[..k]), ins[k]))
            && (WroteIframe(s) && s.link.localNs == 7 ==>
                  && SameFrame(After(l, ins[..j]).xpkt, s.link.xpkt)
                  && BufferOk(s.link.xpkt) && s.wrote == [Outgoing(s.link.xpkt)])
  {
    hide Do, After, Call, Valid, AcksElsewhere, Steady, WroteIframe, WroteBuffer, Outgoing, RrPacket, Address;
    var first, before := After(l, ins[..j]), After(l, ins[..k]);
    CallIs(l, ins, j);
    Classify(first, ins[j]);
    StepInvariant(first, ins[j]);
    SteadyKeepsFrame(l, ins, j + 1, k);
    assert Call(l, ins, j).link == After(l, ins[..j + 1]);
    CallIs(l, ins, k);
    StaleResend(before, ins[k]);
    BufferSize(Call(l, ins, k).link);
  }

  // ---- the retransmission timer ----

  datatype TimerCall = TimerCall(now: Option<Timespec>, wres: int)

  function Measured(l: Link, t: TimerCall): int {
    if t.now.None? then 0 else Millis(l.time, t.now.value)
  }

  // A stretch of dcp_run calls with nothing received or submitted in between.
  function Ticks(l: Link, ts: seq<TimerCall>): (r: (Link, nat, int))
    requires Valid(l)
    decreases |ts|
  {
    if ts == [] then (l, 0, 0)
    else
      var s := Run(l, ts[0].now, ts[0].wres);
      var (last, writes, elapsed) := Ticks(s.link, ts[1..]);
      (last, |s.wrote| + writes, Measured(l, ts[0]) + elapsed)
  }

  ghost predicate TicksForward(l: Link, ts: seq<TimerCall>)
    requires Valid(l)
    decreases |ts|
  {
    ts == [] || (Measured(l, ts[0]) >= 0 && TicksForward(Run(l, ts[0].now, ts[0].wres).link, ts[1..]))
  }

  // Rate bound: a stretch of T measured milliseconds attempts a write as soon as T
  // reaches the running timer, and at most once per 300 ms beyond it; from a timer of
  // at least 300 that is at most T / 300 writes.
  lemma {:induction false} TimerRate(l: Link, ts: seq<TimerCall>)
    requires Valid(l) && l.state == LinkUp && l.xpkt.pktlen != 0 && TicksForward(l, ts)
    ensures var (last, writes, elapsed) := Ticks(l, ts);
            && elapsed >= 0
            && (l.retransmit > 0 ==> (writes > 0 <==> elapsed >= l.retransmit))
            && (ts != [] && ts[0].now.Some? && l.retransmit <= 0 ==> writes > 0)
            && (writes > 0 && l.retransmit > 0 ==>
                  IFRAME_RETRANSMIT * writes <= elapsed - l.retransmit + IFRAME_RETRANSMIT)
            && (l.retransmit >= IFRAME_RETRANSMIT ==> IFRAME_RETRANSMIT * writes <= elapsed)
    decreases |ts|
  {
    if ts != [] {
      var s := Run(l, ts[0].now, ts[0].wres);
      StepInvariant(l, RunIn(ts[0].now, ts[0].wres));
      TimerRate(s.link, ts[1..]);
    }
  }
}
