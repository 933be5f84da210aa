// What stands on the line, octet by octet: every frame a call writes, every octet it acts
// on and every code it returns, in the numbers of the protocol.

module DcpWire {
  import opened Options
  import opened DcpFrame
  import opened DcpClock
  import opened DcpLink
  import opened DcpLinkRuns

  // ---- the fields as the shifts and masks of dcp.h place them ----

  lemma Disjoint(x: bv8, y: bv8)
    requires x & y == 0
    ensures (x | y) as int == x as int + y as int
  {}

  lemma LcnBits(b: bv8)
    ensures ((b << 4) & 0xf0) as int == b as int % 16 * 16
  {}

  // The address octet that number makes, for every LCN and both values of C/R.
  lemma AddressBits(lcn: bv8, cr: bool)
    ensures (((lcn << 4) & 0xf0) | (((if cr then 1 else 0) << 1) & 2) | 1) as int ==
            lcn as int % 16 * 16 + if cr then 3 else 1
  {
    var x, y: bv8 := (lcn << 4) & 0xf0, if cr then 3 else 1;
    LcnBits(lcn);
    assert x | (((if cr then 1 else 0) << 1) & 2) | 1 == x | y && x & y == 0;
    Disjoint(x, y);
  }

  // ---- what is written ----

  // A frame of the switch: address, control with N(S), P and N(R), payload, and the two
  // octets an HDLC device replaces by the FCS.
  function IframeOctets(hdlc: bool, addr: int, ns: int, nr: int, payload: seq<int>, trailer: seq<int>): seq<int> {
    [addr, ns * 16 + 8 + nr] + payload + if hdlc then trailer else []
  }

  function TwoZeros(hdlc: bool): seq<int> { if hdlc then [0, 0] else [] }

  // The frame in the buffer, under the numbers of the moment.
  function BufferOctets(l: Link): seq<int>
    requires Valid(l) && l.xpkt.pktlen != 0
  {
    var n := l.xpkt.pktlen - 2;
    IframeOctets(l.hdlc, l.xpkt.addr, l.localNs, (l.remoteNs + 1) % 8,
                 l.xpkt.data[..n], l.xpkt.data[n..n + 2])
  }

  // The control octet of a frame from its four fields.
  lemma ControlIs(c: Octet, ns: int, nr: int)
    requires IsIFrame(c) && GetPf(c) && GetNs(c) == ns && GetNr(c) == nr
    ensures c == ns * 16 + 8 + nr
  {}

  // A retransmission: the buffer under the current numbers, after a link that holds the
  // same frame.
  lemma ResentOctets(l: Link, s: Step)
    requires Valid(l) && Resent(l, s)
    ensures |s.wrote| == 1 && Octets(l.hdlc, s.wrote[0]) == BufferOctets(l)
  {
    var b := s.link.xpkt;
    ControlIs(b.control, l.localNs, (l.remoteNs + 1) % 8);
  }

  // A submission on a ready link: a command or response of the link's LCN, N(S) one more
  // than the last, P set, N(R) one more than the last number received, at most 14 octets.
  lemma SubmittedOctets(l: Link, cr: bool, data: seq<Octet>, now: Option<Timespec>, wres: int)
    requires Valid(l) && data != []
    requires l.state == LinkUp && l.remoteNr == (l.localNs + 1) % 8
    ensures var wrote := Xmt(l, cr, data, now, wres).wrote;
            var n := if |data| < 14 then |data| else 14;
            var address := l.lcn % 16 * 16 + if cr then 3 else 1;
            && |wrote| == 1
            && Octets(l.hdlc, wrote[0]) ==
               IframeOctets(l.hdlc, address, (l.localNs + 1) % 8, (l.remoteNs + 1) % 8,
                            data[..n], l.xpkt.data[n..n + 2])
  {
    hide WithNsNr, Millis;
    var n := Min(|data|, HDLC_DATA_LEN);
    var l1 := RefreshTime(l, now).0;
    LoadedOctets(l1, cr, data[..n], l1.xpkt.data[n..], wres);
    assert l1.xpkt.data[n..][..2] == l.xpkt.data[n..n + 2];
  }

  // A frame that was just loaded goes out with the two octets behind its payload.
  lemma LoadedOctets(l: Link, cr: bool, data: seq<Octet>, keep: seq<Octet>, wres: int)
    requires Valid(l) && CanSend(l) == DCP_OK && |data| <= HDLC_DATA_LEN && |data| + |keep| == DATA_SIZE
    ensures var l1 := NewIframe(LoadBuffer(l, cr, data, keep));
            Valid(l1) && var wrote := ResendIframe(l1, wres).wrote;
            && |wrote| == 1
            && Octets(l.hdlc, wrote[0]) ==
               IframeOctets(l.hdlc, Address(l.lcn, cr), (l.localNs + 1) % 8, (l.remoteNs + 1) % 8, data, keep[..2])
  {
    hide Address, WithNsNr;
    var l1 := NewIframe(LoadBuffer(l, cr, data, keep));
    AdmitFacts(l, cr, data, keep, wres);
    ResendFacts(l1, wres);
    ResentOctets(l1, ResendIframe(l1, wres));
    assert (data + keep)[..|data|] == data && (data + keep)[|data|..|data| + 2] == keep[..2];
  }

  // A timer call that expires: an empty command under a new number when the link is ready,
  // the frame in the buffer when it is not.
  lemma TimerOctets(l: Link, now: Timespec, wres: int)
    requires Valid(l) && l.state == LinkUp
    requires Millis(l.time, now) >= 0 && l.retransmit <= Millis(l.time, now)
    ensures var wrote := Run(l, Some(now), wres).wrote;
            if l.remoteNr == (l.localNs + 1) % 8 then
              && |wrote| == 1
              && Octets(l.hdlc, wrote[0]) ==
                 IframeOctets(l.hdlc, l.lcn % 16 * 16 + 3, (l.localNs + 1) % 8, (l.remoteNs + 1) % 8, [], [0, 0])
            else if l.xpkt.pktlen != 0 then |wrote| == 1 && Octets(l.hdlc, wrote[0]) == BufferOctets(l)
            else wrote == []
  {
    hide WithNsNr, Millis;
    var l2 := l.(time := now, retransmit := l.retransmit - Millis(l.time, now));
    if l.remoteNr == (l.localNs + 1) % 8 {
      var keep := Zeros(HDLC_DATA_BUFFER) + l2.xpkt.data[HDLC_DATA_BUFFER..];
      LoadedOctets(l2, true, [], keep, wres);
      assert keep[..2] == [0, 0];
    } else if l.xpkt.pktlen != 0 {
      ResendFacts(l2, wres);
      ResentOctets(l2, ResendIframe(l2, wres));
    }
  }

  // The first octet of a submission and of a keep-alive as dcp.h puts it together.
  lemma FirstOctet(l: Link, lcn: bv8, cr: bool, data: seq<Octet>, now: Timespec, wres: int)
    requires Valid(l) && l.lcn == lcn as int && l.state == LinkUp && l.remoteNr == (l.localNs + 1) % 8
    ensures data != [] ==>
      var wrote := Xmt(l, cr, data, Some(now), wres).wrote;
      && |wrote| == 1
      && Octets(l.hdlc, wrote[0])[0] == (((lcn << 4) & 0xf0) | (((if cr then 1 else 0) << 1) & 2) | 1) as int
    ensures Millis(l.time, now) >= 0 && l.retransmit <= Millis(l.time, now) ==>
      var wrote := Run(l, Some(now), wres).wrote;
      |wrote| == 1 && Octets(l.hdlc, wrote[0])[0] == (((lcn << 4) & 0xf0) | ((1 << 1) & 2) | 1) as int
  {
    hide Xmt, Run, Valid, Millis;
    AddressBits(lcn, cr);
    AddressBits(lcn, true);
    if data != [] { SubmittedOctets(l, cr, data, Some(now), wres); }
    if Millis(l.time, now) >= 0 && l.retransmit <= Millis(l.time, now) { TimerOctets(l, now, wres); }
  }

  // Commands and responses on the two channels of dcp.h.
  lemma ChannelAddresses(l: Link, cr: bool, data: seq<Octet>, now: Option<Timespec>, wres: int)
    requires Valid(l) && data != [] && l.state == LinkUp && l.remoteNr == (l.localNs + 1) % 8
    ensures var wrote := Xmt(l, cr, data, now, wres).wrote;
            && |wrote| == 1
            && (l.lcn == 0x0e ==> Octets(l.hdlc, wrote[0])[0] == if cr then 0xe3 else 0xe1)
            && (l.lcn == 0x0f ==> Octets(l.hdlc, wrote[0])[0] == if cr then 0xf3 else 0xf1)
  {
    hide Xmt, Valid;
    SubmittedOctets(l, cr, data, now, wres);
  }

  // ---- what is read ----

  // A packet as the transport hands it over: at least address and control, and the FCS
  // behind it if it came from an HDLC device.
  predicate Complete(hdlc: bool, octets: seq<Octet>) { |octets| >= if hdlc then 4 else 2 }

  // An I-frame in LINK_UP is answered by one RR: a response with P/F set and N(R) one more
  // than the frame's own number.
  lemma AnswerOctets(l: Link, now: Option<Timespec>, octets: seq<Octet>, want: bool, wres: int)
    requires Valid(l) && l.state == LinkUp && Complete(l.hdlc, octets) && octets[1] < 0x80
    ensures var s := Rcv(l, now, Got(octets), want, wres).step;
            && |s.wrote| == 1
            && Octets(l.hdlc, s.wrote[0]) ==
               [l.lcn % 16 * 16 + 1, 0x88 + (octets[1] / 16 % 8 + 1) % 8] + TwoZeros(l.hdlc)
            && s.link.remoteNr == octets[1] % 8 && s.link.remoteNs == octets[1] / 16 % 8
            && s.link.state == LinkUp && s.link.localNs == l.localNs && s.link.xpkt == l.xpkt
  {
    hide Rcv;
    ReadFacts(l, now, Got(octets), want, wres);
  }

  // A DM, 0xf0, in any live state is answered by a SABM, 0xfc, as a command, and the link is
  // down until a UA, 0xce, comes.
  lemma SabmOctets(l: Link, now: Option<Timespec>, octets: seq<Octet>, want: bool, wres: int)
    requires Valid(l) && Complete(l.hdlc, octets) && octets[1] == 0xf0
    ensures var s := Rcv(l, now, Got(octets), want, wres).step;
            && |s.wrote| == 1
            && Octets(l.hdlc, s.wrote[0]) == [l.lcn % 16 * 16 + 3, 0xfc] + TwoZeros(l.hdlc)
            && s.link.state == (if wres >= 2 then ExpectUa else Reset)
            && s.link.localNs == 7 && s.link.remoteNr == 0 && s.link.remoteNs == 0 && s.link.xpkt == l.xpkt
  {
    hide Rcv;
    ReadFacts(l, now, Got(octets), want, wres);
  }

  // An RR, 0x80 to 0x8f, in LINK_UP either names the frame outstanding as received or has
  // it sent again.
  lemma RrOctets(l: Link, now: Option<Timespec>, octets: seq<Octet>, want: bool, wres: int)
    requires Valid(l) && l.state == LinkUp && Complete(l.hdlc, octets) && 0x80 <= octets[1] < 0x90
    ensures var s := Rcv(l, now, Got(octets), want, wres).step;
            && s.link.remoteNr == octets[1] % 8 && s.link.state == LinkUp && s.link.localNs == l.localNs
            && if octets[1] % 8 != (l.localNs + 1) % 8 && l.xpkt.pktlen != 0
               then |s.wrote| == 1 && Octets(l.hdlc, s.wrote[0]) == BufferOctets(l)
               else s.wrote == []
  {
    hide Rcv, Resent;
    ReadFacts(l, now, Got(octets), want, wres);
    var s := Rcv(l, now, Got(octets), want, wres).step;
    if octets[1] % 8 != (l.localNs + 1) % 8 && l.xpkt.pktlen != 0 {
      ResentOctets(l, s);
      ResentUp(l, s);
    }
  }

  lemma ResentUp(l: Link, s: Step)
    requires Resent(l, s)
    ensures s.link.state == LinkUp && s.link.localNs == l.localNs
  {}

  // Everything else a live link reads changes neither its numbers nor its buffer and is not
  // answered, except that a UA brings up a link that waits for it.
  lemma OtherOctets(l: Link, now: Option<Timespec>, octets: seq<Octet>, want: bool, wres: int)
    requires Valid(l) && Complete(l.hdlc, octets) && octets[1] != 0xf0
    requires l.state == LinkUp ==> octets[1] >= 0x90
    ensures var s := Rcv(l, now, Got(octets), want, wres).step;
            && s.wrote == [] && s.link.localNs == l.localNs && s.link.remoteNr == l.remoteNr
            && s.link.remoteNs == l.remoteNs && s.link.xpkt == l.xpkt
            && s.link.state == (if l.state == ExpectUa && octets[1] == 0xce then LinkUp else l.state)
  {
    hide Rcv;
    ReadFacts(l, now, Got(octets), want, wres);
  }

  // ---- what is returned ----

  // dcp_run fails exactly on a link that is up whose clock failed or went back; whatever
  // became of a write does not show.
  lemma RunResult(l: Link, now: Option<Timespec>, wres: int)
    requires Valid(l)
    ensures var code := Run(l, now, wres).code;
            && (code == -1 <==> l.state == LinkUp && (now.None? || Millis(l.time, now.value) < 0))
            && (code != -1 ==> code == 0)
  {
    hide ResendIframe, SendDummy, Millis;
  }

  // dcp_xmt: nothing to do, busy, down or failed write, short write, done.
  lemma XmtResult(l: Link, cr: bool, data: seq<Octet>, now: Option<Timespec>, wres: int)
    requires Valid(l)
    ensures var code := Xmt(l, cr, data, now, wres).code;
            var ready := l.state == LinkUp && l.remoteNr == (l.localNs + 1) % 8;
            var n := if |data| < 14 then |data| + 2 else 16;
            code == if data == [] then 0
                    else if !ready then if l.state == LinkUp then -3 else -2
                    else if wres < 0 then -2 else if wres < n then -4 else 0
  {
    hide Address, WithNsNr, Millis;
    if data != [] { SubmitResult(l, cr, data, now, wres); }
  }

  // dcp_rcv, for every read: the number of octets handed up, 0, or -2 if the read failed.
  // The C/R flag is reported for every I-frame for the link's own LCN, an empty one
  // included; an octet that was not read counts as 0.
  lemma RcvResult(l: Link, now: Option<Timespec>, read: Reading, want: bool, wres: int)
    requires Valid(l)
    ensures var r := Rcv(l, now, read, want, wres);
            && (read.Failed? ==> r.step.code == -2 && r.cr == None && r.data == [])
            && (read.Got? ==>
                  var o, n := read.octets, if l.hdlc then |read.octets| - 2 else |read.octets|;
                  var ours := n > 0 && o[0] / 16 == l.lcn && (|o| == 1 || o[1] < 0x80);
                  && r.cr == (if ours then Some(o[0] / 2 % 2 == 1) else None)
                  && r.data == (if ours && want && n > 2 then o[2..n] else [])
                  && r.step.code == |r.data|)
  {
    hide ProcessPkt, Millis;
  }

  // ---- what stays ----

  // A link just set up.
  lemma InitialValues(hdlc: bool, lcn: Octet)
    ensures var l := InitialLink(hdlc, lcn);
            && l.state == Reset && l.localNs == 7 && l.remoteNr == 0 && l.remoteNs == 0
            && l.retransmit == 0 && l.time == Timespec(0, 0) && l.hdlc == hdlc && l.lcn == lcn
            && l.xpkt.pktlen == 0 && |l.xpkt.data| == 36 && forall i :: 0 <= i < 36 ==> l.xpkt.data[i] == 0
  {}

  // A submission replaces the first octets of the buffer, a keep-alive clears 32 of them.
  lemma BufferAfter(l: Link, cr: bool, data: seq<Octet>, now: Timespec, wres: int)
    requires Valid(l) && l.state == LinkUp && l.remoteNr == (l.localNs + 1) % 8
    ensures data != [] ==>
      var n := if |data| < 14 then |data| else 14;
      var b := Xmt(l, cr, data, Some(now), wres).link.xpkt;
      b.pktlen == n + 2 && b.data == data[..n] + l.xpkt.data[n..]
    ensures Millis(l.time, now) >= 0 && l.retransmit <= Millis(l.time, now) ==>
      var b := Run(l, Some(now), wres).link.xpkt;
      && b.pktlen == 2 && |b.data| == 36 && b.data[32..] == l.xpkt.data[32..]
      && forall i :: 0 <= i < 32 ==> b.data[i] == 0
  {
    hide Address, WithNsNr, Millis;
  }

  // A timer call on a link that is down, or before the timer has run out, or without a
  // usable clock, writes nothing and leaves the numbers and the buffer alone.
  lemma TimerSilent(l: Link, now: Option<Timespec>, wres: int)
    requires Valid(l)
    requires l.state != LinkUp || now.None?
             || Millis(l.time, now.value) < 0 || l.retransmit > Millis(l.time, now.value)
    ensures var s := Run(l, now, wres);
            && s.wrote == [] && s.link.xpkt == l.xpkt && s.link.state == l.state
            && s.link.localNs == l.localNs && s.link.remoteNr == l.remoteNr && s.link.remoteNs == l.remoteNs
  {
    hide Run, Millis;
    RunFacts(l, now, wres);
  }
}
