// DCP frames: the address and control octets of dcptool/dcp.h and the packets
// that travel on the line.

module Options {
  datatype Option<+T> = None | Some(value: T)
}

module DcpFrame {
  // Octets are numbers. The masks and shifts of dcp.h select and place disjoint bit
  // fields, so they are written here as quotients, remainders and sums.
  type Octet = x: int | 0 <= x < 256

  const HDLC_DATA_BUFFER := 32
  const HDLC_DATA_LEN := 14
  const DATA_SIZE := 36 // HDLC_DATA_BUFFER + 4: room for the FCS and the device status

  const FRAME_SABM: Octet := 0xfc
  const FRAME_RR: Octet := 0x80
  const FRAME_DM: Octet := 0xf0
  const FRAME_UA: Octet := 0xce
  const PFBIT: Octet := 0x08

  // Address octet: LCN in bits 7..4, C/R in bit 1, bit 0 always set.
  function Address(lcn: Octet, cr: bool): (a: Octet)
    ensures GetLcn(a) == lcn % 16 && GetCr(a) == cr && a % 2 == 1 && a / 4 % 4 == 0
  { lcn % 16 * 16 + (if cr then 2 else 0) + 1 }
  function GetLcn(addr: Octet): Octet { addr / 16 }
  function GetCr(addr: Octet): bool { addr / 2 % 2 == 1 }

  // Control octet: bit 7 clear marks an I-frame; N(S) in bits 6..4, P/F in bit 3, N(R) in bits 2..0.
  predicate IsIFrame(control: Octet) { control < 0x80 }
  predicate IsRr(control: Octet) { control / 16 == FRAME_RR / 16 }
  function GetPf(control: Octet): bool { control / 8 % 2 == 1 }
  function GetNr(control: Octet): Octet { control % 8 }
  function GetNs(control: Octet): Octet { control / 16 % 8 }

  // Clear N(S) and N(R) and put new ones there; bits 7 and 3 stay.
  function WithNsNr(control: Octet, ns: int, nr: int): (r: Octet)
    ensures IsIFrame(r) == IsIFrame(control) && GetPf(r) == GetPf(control)
    ensures GetNs(r) == ns % 8 && GetNr(r) == nr % 8
  {
    Fields(control / 128, ns % 8, control / 8 % 2, nr % 8);
    control / 128 * 128 + ns % 8 * 16 + control / 8 % 2 * 8 + nr % 8
  }

  // The four fields of a control octet do not overlap.
  lemma Fields(flag: int, ns: int, pf: int, nr: int)
    requires 0 <= flag < 2 && 0 <= ns < 8 && 0 <= pf < 2 && 0 <= nr < 8
    ensures var c := flag * 128 + ns * 16 + pf * 8 + nr;
            0 <= c < 256 && c / 128 == flag && c / 16 % 8 == ns && c / 8 % 2 == pf && c % 8 == nr
  {
    var c := flag * 128 + ns * 16 + pf * 8 + nr;
    assert c / 8 == flag * 16 + ns * 2 + pf;
    assert c / 16 == flag * 8 + ns;
  }

  // Successor of a sequence number, modulo 8.
  function Succ(n: int): Octet { (n + 1) % 8 }

  // A packet: address, control, payload and the two octets that follow the
  // payload in the buffer (where an HDLC device keeps the FCS).
  datatype Packet = Packet(addr: Octet, control: Octet, data: seq<Octet>, pad: seq<Octet>)

  // What a packet looks like on the line: an HDLC device moves two more octets
  // than the packet length, the external transport exactly the packet length.
  function Octets(hdlc: bool, p: Packet): seq<Octet> {
    [p.addr, p.control] + p.data + if hdlc then p.pad else []
  }

  function SabmPacket(lcn: Octet): Packet {
    Packet(Address(lcn, true), FRAME_SABM, [], [0, 0])
  }

  // A switch-originated RR: always a response, always with P/F set.
  function RrPacket(lcn: Octet, nr: int): (p: Packet)
    ensures IsRr(p.control) && GetNr(p.control) == nr % 8 && !IsIFrame(p.control)
    ensures p.control != FRAME_SABM && GetPf(p.control) && p.data == []
  {
    Packet(Address(lcn, false), FRAME_RR + PFBIT + nr % 8, [], [0, 0])
  }
}
