// The switch side of a DCP link (dcptool/dcp.c) as a state machine on values:
// what each entry point does to the state, what it returns, and which packet it
// tries to write. No entry point writes more than one packet per call, so the
// transport's answer to that write is one number, `wres`.

module DcpLink {
  import opened Options
  import opened DcpFrame
  import opened DcpClock

  const IFRAME_RETRANSMIT := 300
  const KEEPALIVE_RETRANSMIT := 1010

  const DCP_OK := 0
  const DCP_FAIL := -1
  const DCP_ERR := -2
  const DCP_BUSY := -3
  const DCP_WARN := -4

  datatype SwitchState = Unknown | Reset | ExpectUa | LinkUp

  // The retransmission buffer.
  datatype Buffer = Buffer(pktlen: int, addr: Octet, control: Octet, data: seq<Octet>)

  datatype Link = Link(
    hdlc: bool, lcn: Octet,
    remoteNr: int, remoteNs: int, localNs: int,
    retransmit: int, time: Timespec, state: SwitchState, xpkt: Buffer)

  ghost predicate BufferOk(b: Buffer) {
    && |b.data| == DATA_SIZE
    && (b.pktlen == 0 || 2 <= b.pktlen <= HDLC_DATA_LEN + 2)
    && IsIFrame(b.control)
    && (b.pktlen != 0 ==> GetPf(b.control))
  }

  // The invariant of every live link.
  ghost predicate Valid(l: Link) {
    && l.state != Unknown
    && 0 <= l.remoteNr < 8 && 0 <= l.remoteNs < 8 && 0 <= l.localNs < 8
    && BufferOk(l.xpkt)
    && (l.state != LinkUp ==> l.localNs == 7 && l.remoteNr == 0 && l.remoteNs == 0)
  }

  lemma BufferSize(l: Link)
    requires Valid(l)
    ensures BufferOk(l.xpkt) && |l.xpkt.data| == DATA_SIZE
  {}

  function Zeros(n: nat): seq<Octet> { seq(n, _ => 0) }

  function InitialLink(hdlc: bool, lcn: Octet): (l: Link)
    ensures Valid(l)
  {
    Link(hdlc, lcn, 0, 0, 7, 0, Timespec(0, 0), Reset, Buffer(0, 0, 0, Zeros(DATA_SIZE)))
  }

  datatype Step = Step(link: Link, code: int, wrote: seq<Packet>)

  // What every call keeps, whatever it receives: the invariant, the configuration and
  // the one-packet budget.
  ghost predicate Keeps(l: Link, s: Step) {
    Valid(s.link) && s.link.lcn == l.lcn && s.link.hdlc == l.hdlc && |s.wrote| <= 1
  }

  // The packet in the retransmission buffer.
  function Outgoing(b: Buffer): Packet
    requires BufferOk(b) && b.pktlen != 0
  {
    Packet(b.addr, b.control, b.data[..b.pktlen - 2], b.data[b.pktlen - 2..b.pktlen])
  }

  function SetNsnr(l: Link): Link {
    l.(xpkt := l.xpkt.(control := WithNsNr(l.xpkt.control, l.localNs, l.remoteNs + 1)))
  }

  function ResendIframe(l: Link, wres: int): (r: Step)
    requires Valid(l)
    ensures Keeps(l, r)
  {
    if l.xpkt.pktlen >= 2 then
      var l1 := SetNsnr(l).(retransmit := IFRAME_RETRANSMIT);
      var code := if wres < 0 then DCP_ERR else if wres < l1.xpkt.pktlen then DCP_WARN else DCP_OK;
      Step(l1, code, [Outgoing(l1.xpkt)])
    else
      Step(l, DCP_OK, [])
  }

  function ResetNsnr(l: Link): Link { l.(remoteNr := 0, remoteNs := 0, localNs := 7) }

  function SendSabm(l: Link, wres: int): (r: Step)
    requires Valid(l)
    ensures Keeps(l, r)
  {
    var l1 := ResetNsnr(l);
    Step(l1.(state := if wres < 2 then Reset else ExpectUa), DCP_OK, [SabmPacket(l.lcn)])
  }

  function ProcessRr(l: Link, control: Octet, wres: int): (r: Step)
    requires Valid(l) && l.state == LinkUp
    ensures Keeps(l, r)
  {
    var l1 := l.(remoteNr := GetNr(control));
    if l1.remoteNr != Succ(l1.localNs) then ResendIframe(l1, wres)
    else Step(l1.(retransmit := KEEPALIVE_RETRANSMIT), DCP_OK, [])
  }

  // Only LINK_UP acknowledges: the numbers of a link that is down stay reset.
  function AckIframe(l: Link, control: Octet): (r: Step)
    requires Valid(l) && l.state == LinkUp
    ensures Keeps(l, r)
  {
    var l1 := l.(retransmit := KEEPALIVE_RETRANSMIT, remoteNr := GetNr(control), remoteNs := GetNs(control));
    Step(l1, DCP_OK, [RrPacket(l.lcn, l1.remoteNs + 1)])
  }

  function ProcessPkt(l: Link, pktlen: int, control: Octet, wres: int): (r: Step)
    requires Valid(l)
    ensures Keeps(l, r)
  {
    if pktlen < 2 then Step(l, DCP_OK, [])
    else match l.state
      case Reset =>
        if control == FRAME_DM then SendSabm(l, wres) else Step(l, DCP_OK, [])
      case ExpectUa =>
        if control == FRAME_UA then Step(l.(state := LinkUp), DCP_OK, [])
        else if control == FRAME_DM then SendSabm(l, wres)
        else Step(l, DCP_OK, [])
      case LinkUp =>
        if IsIFrame(control) then AckIframe(l, control)
        else if IsRr(control) then ProcessRr(l, control, wres)
        else if control == FRAME_DM then SendSabm(l, wres)
        else Step(l, DCP_OK, [])
      case Unknown => Step(l, DCP_OK, [])
  }

  function CanSend(l: Link): int {
    if l.state != LinkUp then DCP_ERR
    else if Succ(l.localNs) == l.remoteNr then DCP_OK
    else DCP_BUSY
  }

  function NewIframe(l: Link): Link {
    l.(localNs := Succ(l.localNs), xpkt := l.xpkt.(control := PFBIT))
  }

  // A clock that fails leaves the time stamp alone.
  function RefreshTime(l: Link, now: Option<Timespec>): (r: (Link, int)) {
    match now
    case None => (l, DCP_FAIL)
    case Some(t) => (l.(time := t), Millis(l.time, t))
  }

  function Min(a: int, b: int): int { if a < b then a else b }

  function LoadBuffer(l: Link, cr: bool, data: seq<Octet>, keep: seq<Octet>): Link {
    l.(xpkt := l.xpkt.(pktlen := |data| + 2, addr := Address(l.lcn, cr),
                       data := data + keep))
  }

  // A sendable link with a new frame in its buffer is still a live link.
  lemma LoadedValid(l: Link, cr: bool, data: seq<Octet>, keep: seq<Octet>)
    requires Valid(l) && CanSend(l) == DCP_OK
    requires |data| <= HDLC_DATA_LEN && |data| + |keep| == DATA_SIZE
    ensures var r := NewIframe(LoadBuffer(l, cr, data, keep));
            Valid(r) && r.lcn == l.lcn && r.hdlc == l.hdlc
  {
    hide Address;
  }

  function Xmt(l: Link, cr: bool, data: seq<Octet>, now: Option<Timespec>, wres: int): (r: Step)
    requires Valid(l)
    ensures Keeps(l, r)
  {
    if |data| == 0 then Step(l, DCP_OK, [])
    else
      var n := Min(|data|, HDLC_DATA_LEN);
      var l1 := RefreshTime(l, now).0;
      if CanSend(l1) != DCP_OK then Step(l1, CanSend(l1), [])
      else
        LoadedValid(l1, cr, data[..n], l1.xpkt.data[n..]);
        hide *;
        ResendIframe(NewIframe(LoadBuffer(l1, cr, data[..n], l1.xpkt.data[n..])), wres)
  }

  // The keep-alive: an empty I-frame over a buffer whose first 32 octets are cleared.
  function SendDummy(l: Link, wres: int): (r: Step)
    requires Valid(l)
    ensures Keeps(l, r)
  {
    if CanSend(l) != DCP_OK then Step(l, DCP_OK, [])
    else
      var keep := Zeros(HDLC_DATA_BUFFER) + l.xpkt.data[HDLC_DATA_BUFFER..];
      LoadedValid(l, true, [], keep);
      ResendIframe(NewIframe(LoadBuffer(l, true, [], keep)), wres)
  }

  function Run(l: Link, now: Option<Timespec>, wres: int): (r: Step)
    requires Valid(l)
    ensures Keeps(l, r)
  {
    var (l1, msecs) := RefreshTime(l, now);
    if l1.state != LinkUp then Step(l1, DCP_OK, [])
    else if msecs < 0 then Step(l1, DCP_FAIL, [])
    else
      var l2 := l1.(retransmit := l1.retransmit - msecs);
      if l2.retransmit > 0 then Step(l2, DCP_OK, [])
      else if l2.remoteNr != Succ(l2.localNs) then ResendIframe(l2, wres).(code := DCP_OK)
      else SendDummy(l2, wres).(code := DCP_OK)
  }

  // What the transport's read hands over: an error, or up to 32 octets (none for a
  // device event or an empty read).
  datatype Reading = Failed | Got(octets: seq<Octet>)

  datatype Received = Received(step: Step, cr: Option<bool>, data: seq<Octet>)

  function At(s: seq<Octet>, i: nat): Octet { if i < |s| then s[i] else 0 }

  function PacketLength(hdlc: bool, n: nat): nat {
    if !hdlc then n else if n < 2 then 0 else n - 2
  }

  function Rcv(l: Link, now: Option<Timespec>, read: Reading, wantData: bool, wres: int): (r: Received)
    requires Valid(l)
    ensures Keeps(l, r.step)
  {
    var l1 := RefreshTime(l, now).0;
    match read
    case Failed => Received(Step(l1, DCP_ERR, []), None, [])
    case Got(octets) =>
      var len := PacketLength(l.hdlc, |octets|);
      if len == 0 then Received(Step(l1, DCP_OK, []), None, [])
      else
        var addr, control := At(octets, 0), At(octets, 1);
        var s := ProcessPkt(l1, len, control, wres).(code := DCP_OK);
        if !IsIFrame(control) || GetLcn(addr) != l.lcn then Received(s, None, [])
        else if wantData && len > 2 then
          Received(s.(code := len - 2), Some(GetCr(addr)), octets[2..len])
        else Received(s, Some(GetCr(addr)), [])
  }
}
