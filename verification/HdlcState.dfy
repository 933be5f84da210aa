// struct dcp_hdlc_state and the functions of dcptool/dcp.c that update it in place,
// each proved against its counterpart in DcpLink.

module DcpHdlcState {
  import opened Options
  import opened DcpFrame
  import opened DcpClock
  import opened DcpLink

  function Lines(hdlc: bool, wrote: seq<Packet>): seq<seq<Octet>> {
    if wrote == [] then [] else [Octets(hdlc, wrote[0])]
  }

  class HdlcState {
    const hdlc: bool // transport mode: HDLC device or external I/O
    const lcn: Octet
    var remoteNr: int
    var remoteNs: int
    var localNs: int
    var retransmit: int
    var time: Timespec
    var state: SwitchState
    var pktlen: int
    var addr: Octet
    var control: Octet
    const data: array<Octet>
    ghost var line: seq<seq<Octet>> // every write attempted so far

    ghost function View(): Link
      reads this, data
    {
      Link(hdlc, lcn, remoteNr, remoteNs, localNs, retransmit, time, state,
           Buffer(pktlen, addr, control, data[..]))
    }

    ghost predicate Ok()
      reads this, data
    {
      Valid(View())
    }

    constructor (hdlc: bool, lcn: Octet)
      ensures Ok() && View() == InitialLink(hdlc, lcn) && line == []
      ensures fresh(data)
    {
      this.hdlc, this.lcn := hdlc, lcn;
      remoteNr, remoteNs, localNs := 0, 0, 7;
      retransmit, time, state := 0, Timespec(0, 0), Reset;
      pktlen, addr, control := 0, 0, 0;
      data := new Octet[DATA_SIZE](_ => 0);
      line := [];
      new;
      assert data[..] == Zeros(DATA_SIZE);
    }

    // Hands a packet to the transport, which answers `wres`.
    method WritePacket(p: Packet, wres: int) returns (res: int)
      modifies this`line
      ensures res == wres && line == old(line) + [Octets(hdlc, p)]
    {
      line := line + [Octets(hdlc, p)];
      res := wres;
    }

    method RefreshTime(now: Option<Timespec>) returns (msecs: int)
      requires Ok()
      modifies this`time
      ensures (View(), msecs) == DcpLink.RefreshTime(old(View()), now)
      ensures Ok()
    {
      if now.None? { return DCP_FAIL; }
      msecs := Millis(time, now.value);
      time := now.value;
    }

    method SetNsnr()
      requires Ok()
      modifies this`control
      ensures View() == DcpLink.SetNsnr(old(View()))
    {
      hide WithNsNr, Valid;
      control := WithNsNr(control, localNs, remoteNs + 1);
    }

    method ResendIframe(wres: int) returns (code: int)
      requires Ok()
      modifies this
      ensures var s := DcpLink.ResendIframe(old(View()), wres);
              View() == s.link && code == s.code && line == old(line) + Lines(hdlc, s.wrote)
      ensures Ok()
    {
      if pktlen >= 2 {
        SetNsnr();
        retransmit := IFRAME_RETRANSMIT;
        var p := Packet(addr, control, data[..pktlen - 2], data[pktlen - 2..pktlen]);
        assert p == Outgoing(View().xpkt);
        var res := WritePacket(p, wres);
        if res < 0 {
          return DCP_ERR;
        } else if res < pktlen {
          return DCP_WARN;
        }
      }
      return DCP_OK;
    }

    method ResetNsnr()
      modifies this
      ensures View() == DcpLink.ResetNsnr(old(View())) && line == old(line)
    {
      remoteNr, remoteNs, localNs := 0, 0, 7;
    }

    method ResetState()
      modifies this
      ensures View() == DcpLink.ResetNsnr(old(View())).(state := Reset) && line == old(line)
    {
      state := Reset;
      ResetNsnr();
    }

    method SendSabm(wres: int)
      requires Ok()
      modifies this
      ensures var s := DcpLink.SendSabm(old(View()), wres);
              View() == s.link && line == old(line) + Lines(hdlc, s.wrote)
      ensures Ok()
    {
      ResetNsnr();
      var res := WritePacket(SabmPacket(lcn), wres);
      state := ExpectUa;
      if res < 0 {
        ResetState();
      } else if res < 2 {
        ResetState();
      }
    }

    method ProcessRr(ctl: Octet, wres: int)
      requires Ok() && state == LinkUp
      modifies this
      ensures var s := DcpLink.ProcessRr(old(View()), ctl, wres);
              View() == s.link && line == old(line) + Lines(hdlc, s.wrote)
      ensures Ok()
    {
      remoteNr := GetNr(ctl);
      var expected := Succ(localNs);
      if remoteNr != expected {
        var _ := ResendIframe(wres);
      } else {
        retransmit := KEEPALIVE_RETRANSMIT;
      }
    }

    method AckIframe(ctl: Octet, wres: int)
      requires Ok() && state == LinkUp
      modifies this
      ensures var s := DcpLink.AckIframe(old(View()), ctl);
              View() == s.link && line == old(line) + Lines(hdlc, s.wrote)
      ensures Ok()
    {
      retransmit := KEEPALIVE_RETRANSMIT;
      remoteNr := GetNr(ctl);
      remoteNs := GetNs(ctl);
      var _ := WritePacket(RrPacket(lcn, remoteNs + 1), wres);
    }

    method ProcessPkt(len: int, ctl: Octet, wres: int)
      requires Ok()
      modifies this
      ensures var s := DcpLink.ProcessPkt(old(View()), len, ctl, wres);
              View() == s.link && line == old(line) + Lines(hdlc, s.wrote)
      ensures Ok()
    {
      if len < 2 { return; }
      match state
      case Reset =>
        if ctl == FRAME_DM { SendSabm(wres); }
      case ExpectUa =>
        if ctl == FRAME_UA {
          state := LinkUp;
        } else if ctl == FRAME_DM {
          SendSabm(wres);
        }
      case LinkUp =>
        if !IsIFrame(ctl) {
          if IsRr(ctl) {
            ProcessRr(ctl, wres);
          } else if ctl == FRAME_DM {
            SendSabm(wres);
          }
        } else {
          AckIframe(ctl, wres);
        }
      case Unknown =>
    }

    method CanSend() returns (code: int)
      requires Ok()
      ensures code == DcpLink.CanSend(View())
    {
      if state != LinkUp { return DCP_ERR; }
      if Succ(localNs) == remoteNr { return DCP_OK; }
      return DCP_BUSY;
    }

    method NewIframe()
      modifies this
      ensures View() == DcpLink.NewIframe(old(View())) && line == old(line)
    {
      localNs := Succ(localNs);
      control := PFBIT;
    }

    // Returns the length delivered, zero for a packet without payload for us, or an error.
    method Rcv(now: Option<Timespec>, read: Reading, wantData: bool, wres: int)
      returns (code: int, cr: Option<bool>, payload: seq<Octet>)
      requires Ok()
      requires read.Got? ==> |read.octets| <= HDLC_DATA_BUFFER
      modifies this
      ensures var r := DcpLink.Rcv(old(View()), now, read, wantData, wres);
              && View() == r.step.link && line == old(line) + Lines(hdlc, r.step.wrote)
              && code == r.step.code && cr == r.cr && payload == r.data
      ensures Ok()
    {
      hide DcpLink.ProcessPkt, BufferOk, Millis;
      cr, payload := None, [];
      var _ := RefreshTime(now);
      if read.Failed? { return DCP_ERR, cr, payload; }
      var len := PacketLength(hdlc, |read.octets|);
      if len == 0 { return DCP_OK, cr, payload; }
      var rpkt := new Octet[DATA_SIZE + 2](_ => 0);
      forall i | 0 <= i < |read.octets| { rpkt[i] := read.octets[i]; }
      ProcessPkt(len, rpkt[1], wres);
      if IsIFrame(rpkt[1]) {
        if GetLcn(rpkt[0]) == lcn {
          cr := Some(GetCr(rpkt[0]));
          if wantData && len > 2 {
            payload := rpkt[2..len];
            assert payload == read.octets[2..len];
            return len - 2, cr, payload;
          }
        }
      }
      return DCP_OK, cr, payload;
    }

    method Xmt(cr: bool, payload: seq<Octet>, now: Option<Timespec>, wres: int) returns (code: int)
      requires Ok()
      modifies this, data
      ensures var s := DcpLink.Xmt(old(View()), cr, payload, now, wres);
              View() == s.link && line == old(line) + Lines(hdlc, s.wrote) && code == s.code
      ensures Ok()
    {
      hide DcpLink.ResendIframe, Address, Millis, Valid;
      if |payload| == 0 { return DCP_OK; }
      var n := |payload|;
      if n > HDLC_DATA_LEN { n := HDLC_DATA_LEN; }
      var _ := RefreshTime(now);
      code := CanSend();
      if code != DCP_OK { return; }
      ghost var l := View();
      BufferSize(l);
      LoadedValid(l, cr, payload[..n], l.xpkt.data[n..]);
      forall i | 0 <= i < n { data[i] := payload[i]; }
      assert data[..] == payload[..n] + l.xpkt.data[n..];
      pktlen := n + 2;
      addr := Address(lcn, cr);
      NewIframe();
      assert View() == DcpLink.NewIframe(LoadBuffer(l, cr, payload[..n], l.xpkt.data[n..]));
      code := ResendIframe(wres);
    }

    method SendDummy(wres: int)
      requires Ok()
      modifies this, data
      ensures var s := DcpLink.SendDummy(old(View()), wres);
              View() == s.link && line == old(line) + Lines(hdlc, s.wrote)
      ensures Ok()
    {
      hide DcpLink.ResendIframe, Address;
      var code := CanSend();
      if code != DCP_OK { return; }
      ghost var l := View();
      ghost var keep := Zeros(HDLC_DATA_BUFFER) + l.xpkt.data[HDLC_DATA_BUFFER..];
      LoadedValid(l, true, [], keep);
      forall i | 0 <= i < HDLC_DATA_BUFFER { data[i] := 0; }
      assert data[..] == [] + keep;
      pktlen := 2;
      addr := Address(lcn, true);
      NewIframe();
      assert View() == DcpLink.NewIframe(LoadBuffer(l, true, [], keep));
      code := ResendIframe(wres);
    }

    method Run(now: Option<Timespec>, wres: int) returns (code: int)
      requires Ok()
      modifies this, data
      ensures var s := DcpLink.Run(old(View()), now, wres);
              View() == s.link && line == old(line) + Lines(hdlc, s.wrote) && code == s.code
      ensures Ok()
    {
      hide DcpLink.ResendIframe, DcpLink.SendDummy, BufferOk, Millis;
      var msecs := RefreshTime(now);
      if state != LinkUp { return DCP_OK; }
      if msecs < 0 { return DCP_FAIL; }
      retransmit := retransmit - msecs;
      if retransmit <= 0 {
        if remoteNr != Succ(localNs) {
          var _ := ResendIframe(wres);
        } else {
          SendDummy(wres);
        }
      }
      return DCP_OK;
    }
  }
}
