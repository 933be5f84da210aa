// A switch, a terminal and the two queues between them. The switch is the state
// machine of DcpLink; the terminal is a conforming stop-and-wait peer; each queue is
// first-in first-out and may lose any frame at any time. Either side can go down and
// the link can be re-established any number of times.

module DcpWorld {
  import opened Options
  import opened DcpFrame
  import opened DcpClock
  import opened DcpLink
  import opened DcpLinkRuns

  // A packet in flight, tagged with its sender's unbounded counters: the number of its
  // newest own frame, and how many frames of the other side it had taken. No step looks
  // at the tags of a packet to decide what to do.
  datatype Flight = Flight(pkt: Packet, idx: int, ack: int)

  // The terminal's state: link up, next expected N(S), own N(S), unacknowledged payload.
  datatype Terminal = Terminal(up: bool, vr: int, vs: int, out: Option<seq<Octet>>)

  datatype Handed = Handed(idx: int, data: seq<Octet>)

  // What happened on the switch's side since it last sent a SABM: payloads admitted for
  // sending, how many the peer is known to have taken, how many frames of the peer were
  // received, and the payloads handed to the caller.
  datatype SwitchLog = SwitchLog(admitted: seq<seq<Octet>>, acked: int, seen: int, handed: seq<Handed>)

  // What happened on the terminal's side since it last took a SABM: payloads accepted,
  // payloads submitted, how many of those are known to be received.
  datatype TermLog = TermLog(accepted: seq<seq<Octet>>, sent: seq<seq<Octet>>, acked: int)

  // `credits` counts accepted submissions and timer expiries. `clean` holds as long as
  // the terminal never repeated a DM while an earlier DM or the SABM answering it was
  // still in flight.
  datatype World = World(
    sw: Link, term: Terminal, fwd: seq<Flight>, rev: seq<Flight>,
    slog: SwitchLog, tlog: TermLog, credits: nat, clean: bool)

  const EMPTY_SWITCH_LOG := SwitchLog([], 0, 0, [])
  const EMPTY_TERM_LOG := TermLog([], [], 0)
  const TERM_DATA_LEN := 28 // a terminal frame with its FCS fits the 32-octet read

  function InitialWorld(hdlc: bool, lcn: Octet): World {
    World(InitialLink(hdlc, lcn), Terminal(false, 0, 0, None), [], [],
          EMPTY_SWITCH_LOG, EMPTY_TERM_LOG, 0, true)
  }

  datatype Event =
    | Submit(cr: bool, data: seq<Octet>, now: Option<Timespec>, wres: int, onWire: bool)
    | Tick(now: Option<Timespec>, wres: int, onWire: bool)
    | Deliver(now: Option<Timespec>, wres: int, onWire: bool)
    | Misread(now: Option<Timespec>, failed: bool)
    | LoseFwd(i: nat)
    | LoseRev(i: nat)
    | TermRead
    | TermSubmit(payload: seq<Octet>)
    | TermRepeat
    | TermDm
    | TermDrop

  predicate Enabled(w: World, e: Event) {
    match e
    case Submit(_, _, _, _, _) => true
    case Tick(_, _, _) => true
    case Deliver(_, _, _) => w.rev != []
    case Misread(_, _) => true
    case LoseFwd(i) => i < |w.fwd|
    case LoseRev(i) => i < |w.rev|
    case TermRead => w.fwd != []
    case TermSubmit(payload) => w.term.up && w.term.out.None? && |payload| <= TERM_DATA_LEN
    case TermRepeat => w.term.up && w.term.out.Some?
    case TermDm => !w.term.up
    case TermDrop => w.term.up
  }

  function Without(q: seq<Flight>, i: nat): seq<Flight>
    requires i < |q|
  {
    q[..i] + q[i + 1..]
  }

  // ---- the switch's side ----

  // A write may fail, be short or succeed; independently of what it reported, the
  // packet may or may not get on the line.
  function Put(fwd: seq<Flight>, wrote: seq<Packet>, onWire: bool, log: SwitchLog): seq<Flight> {
    if onWire && wrote != [] then fwd + [Flight(wrote[0], |log.admitted| - 1, log.seen)] else fwd
  }

  function SwitchCall(w: World, s: Step, onWire: bool, log: SwitchLog): World {
    w.(sw := s.link, slog := log, fwd := Put(w.fwd, s.wrote, onWire, log))
  }

  predicate Admits(l: Link, data: seq<Octet>) { data != [] && CanSend(l) == DCP_OK }

  function Admit(log: SwitchLog, data: seq<Octet>): SwitchLog { log.(admitted := log.admitted + [data]) }

  function Truncate(data: seq<Octet>): seq<Octet> { data[..Min(|data|, HDLC_DATA_LEN)] }

  // What a delivered packet means for the history of the link.
  function Note(l: Link, log: SwitchLog, f: Flight, data: seq<Octet>): SwitchLog {
    if f.pkt.control == FRAME_DM then EMPTY_SWITCH_LOG
    else if l.state != LinkUp then log
    else if IsIFrame(f.pkt.control) then
      log.(acked := f.ack, seen := if f.idx < log.seen then log.seen else f.idx + 1,
           handed := log.handed + if data != [] then [Handed(f.idx, data)] else [])
    else if IsRr(f.pkt.control) then log.(acked := f.ack)
    else log
  }

  function SwitchReads(w: World, now: Option<Timespec>, wres: int): Received
    requires Valid(w.sw) && w.rev != []
  {
    Rcv(w.sw, now, Got(Octets(w.sw.hdlc, w.rev[0].pkt)), true, wres)
  }

  // ---- the terminal's side ----

  function TermPacket(w: World, control: Octet, data: seq<Octet>): Packet {
    Packet(Address(w.sw.lcn, false), control, data, [0, 0])
  }

  function TermPut(w: World, control: Octet, data: seq<Octet>): World {
    w.(rev := w.rev + [Flight(TermPacket(w, control, data), |w.tlog.sent| - 1, |w.tlog.accepted|)])
  }

  function TermIframe(t: Terminal): Octet { t.vs % 8 * 16 + PFBIT + t.vr % 8 }
  function TermRr(t: Terminal, control: Octet): Octet {
    FRAME_RR + (if GetPf(control) then PFBIT else 0) + t.vr % 8
  }

  // The terminal takes a SABM in any state and starts over; it accepts an I-frame only
  // if it is the next expected one and answers every I-frame with its next expected
  // number; it takes only an RR as an acknowledgement of its own frame.
  function TermReads(w: World): World
    requires w.fwd != []
  {
    var p, w1 := w.fwd[0].pkt, w.(fwd := w.fwd[1..]);
    if p.control == FRAME_SABM then
      TermPut(w1.(term := Terminal(true, 0, 0, None), tlog := EMPTY_TERM_LOG), FRAME_UA, [])
    else if !w.term.up then w1
    else if IsIFrame(p.control) then
      var w2 := if GetNs(p.control) == w.term.vr
                then w1.(term := w.term.(vr := Succ(w.term.vr)),
                         tlog := w.tlog.(accepted := w.tlog.accepted + [p.data]))
                else w1;
      TermPut(w2, TermRr(w2.term, p.control), [])
    else if IsRr(p.control) && w.term.out.Some? && GetNr(p.control) == Succ(w.term.vs) then
      w1.(term := w.term.(vs := Succ(w.term.vs), out := None), tlog := w.tlog.(acked := w.tlog.acked + 1))
    else w1
  }

  // No link-control exchange is under way on the line.
  predicate Idle(w: World) {
    && (forall f <- w.rev :: f.pkt.control != FRAME_DM)
    && (forall f <- w.fwd :: f.pkt.control != FRAME_SABM)
  }

  function Next(w: World, e: Event): (w': World)
    requires Valid(w.sw) && Enabled(w, e)
    ensures Valid(w'.sw) && w'.sw.lcn == w.sw.lcn && w'.sw.hdlc == w.sw.hdlc
    ensures w'.clean ==> w.clean
  {
    hide Xmt, Run, Rcv, Valid, Note, Put, Admit, Truncate, Expires, CanSend, TermIframe, Idle;
    match e
    case Submit(cr, data, now, wres, onWire) =>
      var s := Xmt(w.sw, cr, data, now, wres);
      if Admits(w.sw, data) then
        SwitchCall(w, s, onWire, Admit(w.slog, Truncate(data))).(credits := w.credits + 1)
      else SwitchCall(w, s, onWire, w.slog)
    case Tick(now, wres, onWire) =>
      var s := Run(w.sw, now, wres);
      if !Expires(w.sw, now) then SwitchCall(w, s, onWire, w.slog)
      else
        var log := if CanSend(w.sw) == DCP_OK then Admit(w.slog, []) else w.slog;
        SwitchCall(w, s, onWire, log).(credits := w.credits + 1)
    case Deliver(now, wres, onWire) =>
      var r := SwitchReads(w, now, wres);
      SwitchCall(w, r.step, onWire, Note(w.sw, w.slog, w.rev[0], r.data)).(rev := w.rev[1..])
    case Misread(now, failed) =>
      SwitchCall(w, Rcv(w.sw, now, if failed then Failed else Got([]), true, 0).step, false, w.slog)
    case LoseFwd(i) => w.(fwd := Without(w.fwd, i))
    case LoseRev(i) => w.(rev := Without(w.rev, i))
    case TermRead => TermReads(w)
    case TermSubmit(payload) =>
      var w1 := w.(term := w.term.(out := Some(payload)),
                   tlog := w.tlog.(sent := w.tlog.sent + [payload]));
      TermPut(w1, TermIframe(w.term), payload)
    case TermRepeat => TermPut(w, TermIframe(w.term), w.term.out.value)
    case TermDm => TermPut(w, FRAME_DM, []).(clean := w.clean && Idle(w))
    case TermDrop => w.(term := w.term.(up := false))
  }

  ghost predicate Legal(w: World, es: seq<Event>)
    requires Valid(w.sw)
    decreases |es|
  {
    es == [] || (Enabled(w, es[0]) && Legal(Next(w, es[0]), es[1..]))
  }

  function Exec(w: World, es: seq<Event>): (w': World)
    requires Valid(w.sw) && Legal(w, es)
    ensures Valid(w'.sw) && (w'.clean ==> w.clean)
    decreases |es|
  {
    if es == [] then w else Exec(Next(w, es[0]), es[1..])
  }
}
