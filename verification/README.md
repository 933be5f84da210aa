# DCP terminal tools: a verified model

The repository drives digital telephones over DCP, a proprietary HDLC-like link. Its core, `dcptool/dcp.c`, is
the switch side of a connection-oriented stop-and-wait protocol: sequence numbers modulo 8, a window of one
frame, states RESET, EXPECT_UA and LINK_UP, restart on DM, acknowledgements both piggybacked and explicit, one
timer for retransmission and keep-alive, and one buffer, `xpkt`, that is rewritten in place. This project models
that core and proves what it guarantees; around it stand the command-line parser and printers, the command
tokeniser, the display-width computation, and the reference-counted `SliceVector` of `yate-svn/yatemath.h`.

How the files fit together:

- `Frame.dfy`, `Clock.dfy`, `Link.dfy`: octets and packets, the clock arithmetic, and the link as functions on
  values. `HdlcState.dfy` is `struct dcp_hdlc_state` as a class whose methods update it in place as the C
  functions do; each method is proved equal to the function of the same name in `DcpLink`.
- `LinkRuns.dfy`: one switch under an adversary that chooses every call, every octet read, every clock value and
  the fate of every write. Everything there is for all inputs and all runs.
- `Wire.dfy`: the octets of every frame a call puts on the line, the octets it acts on and the codes it returns, in the
  numbers of the protocol.
- `World.dfy`: the switch, a conforming terminal and two first-in first-out queues that may lose any frame, as a
  step relation. The switch and the terminal carry histories (payloads admitted, accepted, sent, handed up) that
  start over whenever the link is re-established, and each packet in flight carries the unbounded counters of its
  sender; no step looks at these. `WorldSafety.dfy` holds the inductive invariant that ties the modulo-8 fields
  to those counters, `WorldTheorems.dfy` and `WorldProgress.dfy` its consequences for all runs.
- `WorldOverlap.dfy`: what goes wrong when handshakes overlap, with concrete runs. If a terminal repeats its DM while
  an earlier DM, or the SABM answering it, is still on the line, and then restarts, a stale UA opens the link too
  early, an old payload is sent again and a new one is lost although the switch believes it acknowledged. The
  history flag `clean` of a world says that no such overlap has happened yet; `WorldPatience.dfy` gives a rule a
  terminal can follow by counting that keeps it so.
- `WorldExact.dfy`: the exact conditions, for the rule a terminal follows and for every single DM.
- `WorldBringUp.dfy`: when a link that is down can come up. SABM has no timer, so a handshake that is cut short after
  the terminal took the SABM leaves the link stuck until the terminal goes down: by a UA lost on the line, but also
  with nothing lost, by a SABM whose write was reported short although it got through. From every state that is not
  stuck there is a loss-free schedule of bounded length.
- `LinkTimer.dfy`: the retransmission timer in runs that mix all calls. Every call stamps the clock,
  but only `dcp_run` counts what has passed (`dcptool/dcp.c:590`, `629`, `659`), so a caller that keeps submitting
  starves the retransmission, and so does a terminal that keeps sending.
- `ParseLine.dfy`, `DumpPacket.dfy`, `ArgSep.dfy`, `Width.dfy`: loops over text, each proved against a recursive
  specification whose meaning the lemmas beside it give.
- `SliceVector.dfy`, `WrapDump.dfy`: shared storage with windows into it, and the greedy line-wrapping printer.

Where a property one would expect of the protocol or of the vectors is not true of the code, the exact condition under
which it is true is proved, and runs or inputs on which it fails are given:

- Forward delivery, reception and freedom from stale frames fail when handshakes overlap. The rule that a terminal
  sends a DM with at most k earlier ones unanswered guarantees each of them exactly for k = 0, and a single DM leaves
  reception safe exactly if it meets a line with no DM and no SABM on it.
- A link that is down comes up without the terminal going down exactly if it is not stuck as described above.
- A busy link sends its frame again exactly when timer calls measure the period, which is not when it has passed.
- The address octet has four bits for the LCN, so what one link sends another with the same LCN is handed up exactly
  for LCNs below 16; an I-frame for another LCN is acknowledged although it is not handed up.
- The test for available elements of a `SliceVector` adds in 32 bits and is sound exactly where the sum does not wrap
  around into the vector.
- `sum` followed by `sub` restores every content of a vector exactly when the two windows share no element; a buffer
  of ones shows the loss for every other pair.

The comment at `dcptool/dcp.h:104` says I-frames are acknowledged with RR, but the switch takes the N(R) of an I-frame
as an acknowledgement too; the model follows the code.

## Model

| member | source | states |
|---|---|---|
| DcpClock.MillisAccurate | dcptool/dcp.c:141-160 | For any two clock values a measurement is less than 1 ms off: below the true difference when the nanosecond part grew, above it when it borrowed; it is negative only if the clock went back |
| DcpClock.TotalAccurate | dcptool/dcp.c:141-160 | Over n measurements the sum stays within n ms of the true elapsed time |
| DcpFrame.Address | dcptool/dcp.h:21-45 | The LCN modulo 16 and the C/R flag can be read back from an address octet, whose lowest bit is set and whose bits 2 and 3 are clear |
| DcpFrame.WithNsNr | dcptool/dcp.c:339-347 | Writing new sequence numbers into a control octet changes neither the frame type nor P/F, and both numbers modulo 8 can be read back |
| DcpFrame.RrPacket | dcptool/dcp.c:187-193 | An acknowledgement is an RR with P/F set, no I-frame and no SABM, without payload, and carries its number modulo 8 in N(R) |
| DcpHdlcState.HdlcState.constructor | dcptool/dcp.c:475-496 | A new link is in RESET with N(S) 7, both received numbers 0 and an empty buffer, and satisfies the invariant |
| DcpHdlcState.HdlcState.WritePacket | dcptool/dcp.c:261-289 | Each attempt puts exactly the octets of one packet on the line: two more than its length for an HDLC device, its length otherwise |
| DcpHdlcState.HdlcState.RefreshTime | dcptool/dcp.c:141-160 | The time stamp moves to the clock's value and nothing else changes; a clock that fails changes nothing |
| DcpHdlcState.HdlcState.SetNsnr | dcptool/dcp.c:339-347 | Only the control octet of the buffer changes |
| DcpHdlcState.HdlcState.ResendIframe | dcptool/dcp.c:198-216 | The in-place method writes the buffer with fresh numbers and restarts the timer; the return code tells a failed from a short from a full write |
| DcpHdlcState.HdlcState.ResetNsnr | dcptool/dcp.c:292-298 | Only the three sequence fields change |
| DcpHdlcState.HdlcState.ResetState | dcptool/dcp.c:300-306 | The sequence fields are reset and the state is RESET |
| DcpHdlcState.HdlcState.SendSabm | dcptool/dcp.c:308-330 | One SABM is attempted; the state ends EXPECT_UA exactly when both octets were written, else RESET; the buffer is kept |
| DcpHdlcState.HdlcState.ProcessRr | dcptool/dcp.c:227-240 | An RR either acknowledges the outstanding frame or makes the buffer go out again |
| DcpHdlcState.HdlcState.AckIframe | dcptool/dcp.c:178-196 | An I-frame's numbers are taken over and one RR with N(S) + 1 is written, even for a repeated frame |
| DcpHdlcState.HdlcState.ProcessPkt | dcptool/dcp.c:370-422 | The state machine: each control octet has its effect in each state, everything else has none |
| DcpHdlcState.HdlcState.CanSend | dcptool/dcp.c:349-368 | Whether the link is up and its outstanding frame acknowledged |
| DcpHdlcState.HdlcState.NewIframe | dcptool/dcp.c:332-337 | The send number advances modulo 8 and the control octet starts over with P set |
| DcpHdlcState.HdlcState.Rcv | dcptool/dcp.c:582-615 | For every read result, state, code, flag, payload and octets written are those of the specification, and the invariant is kept |
| DcpHdlcState.HdlcState.Xmt | dcptool/dcp.c:617-638 | Submitting changes the buffer in place as specified, writes at most one frame, and changes nothing but the clock when the link is busy or down |
| DcpHdlcState.HdlcState.SendDummy | dcptool/dcp.c:640-652 | A keep-alive clears the buffer and sends an empty I-frame under a new number, only when the link may send |
| DcpHdlcState.HdlcState.Run | dcptool/dcp.c:654-673 | The timer step in place: count down, then retransmit or keep alive, as specified |
| DcpLink.Rcv | dcptool/dcp.c:582-615 | On any octets whatever: the invariant survives, the configuration stays, and at most one packet is written |
| DcpLink.Xmt | dcptool/dcp.c:617-638 | Submission keeps the invariant and writes at most one packet |
| DcpLink.Run | dcptool/dcp.c:654-673 | A timer call keeps the invariant and writes at most one packet |
| DcpLinkRuns.ResendFacts | dcptool/dcp.c:198-216 | A retransmission writes the buffer with the current send number and the last received number plus one, and alters no other part of the frame |
| DcpLinkRuns.AdmitFacts | dcptool/dcp.c:332-347 | Loading a new frame moves the send number by one past an acknowledged one and writes exactly the new payload under the new number |
| DcpLinkRuns.XmtFacts | dcptool/dcp.c:617-638 | A submission is admitted exactly when it is non-empty and the link is ready, and then sends its first 14 octets; otherwise only the time stamp moves |
| DcpLinkRuns.RunFacts | dcptool/dcp.c:654-673 | A timer call does something exactly on expiry: a keep-alive when ready, a retransmission of the same frame when not |
| DcpLinkRuns.ReadFacts | dcptool/dcp.c:370-422 | What each received control octet does in each state, for all octets and both transports, including reads too short to count |
| DcpLinkRuns.Classify | dcptool/dcp.c:582-673 | Any call on any input does one of five things, and restarts the link exactly when it reads a DM |
| DcpLinkRuns.StepInvariant | dcptool/dcp.c:332-368 | A SABM leaves exactly on a DM; otherwise the send number moves only in LINK_UP, by one, past an acknowledged frame, and only with an I-frame written |
| DcpLinkRuns.StepTimer | dcptool/dcp.c:654-673 | With a monotone clock no call leaves the timer above 1010 ms |
| DcpLinkRuns.IframeIsBuffer | dcptool/dcp.c:198-216 | An I-frame leaves only in LINK_UP and is the buffer as it stands after the call |
| DcpLinkRuns.StepStates | dcptool/dcp.c:308-422 | EXPECT_UA is entered only by a DM whose SABM was written in full, LINK_UP only from EXPECT_UA and with the sequence fields fresh |
| DcpLinkRuns.AcknowledgedNotHanded | dcptool/dcp.c:597-614 | In LINK_UP every I-frame with a payload is acknowledged with its own number plus one, whatever its LCN, and handed up if and only if its LCN is the link's own |
| DcpLinkRuns.BecomesReady | dcptool/dcp.c:178-240 | A busy link becomes ready exactly on an I-frame or RR whose N(R) is the successor of the outstanding number |
| DcpLinkRuns.WindowOne | dcptool/dcp.c:424-673 | After every run from initialisation the state is live, all sequence fields are in 0..7, the buffer length is 0 or 2..16, the timer at most 1010 |
| DcpLinkRuns.AwaitingUa | dcptool/dcp.c:308-422 | A link waiting for UA has been doing so since a DM whose SABM was written in full |
| DcpLinkRuns.LinkUpDiscipline | dcptool/dcp.c:292-422 | Every entry to LINK_UP in any run goes back to a DM answered by a fully written SABM with no RESET in between, and starts with N(S) 7 and both received numbers 0, so that the first frame has N(S) 0 |
| DcpLinkRuns.IframesOnlyWhenUp | dcptool/dcp.c:198-216 | In no run is an I-frame written outside LINK_UP |
| DcpLinkRuns.SteadyKeepsFrame | dcptool/dcp.c:198-216 | As long as the send number does not advance and no DM arrives, the frame in the buffer does not change except for N(R) and N(S) |
| DcpLinkRuns.RetransmissionFidelity | dcptool/dcp.c:198-216 | For any octets received and any write failures, two I-frames written between two advances agree on address, N(S), P, length, payload and trailer; N(R) is each time the last received number plus one |
| DcpLinkRuns.FrameRoundTrip | dcptool/dcp.c:535-638 | What a submission puts on the line, read back over either transport in any state, gives the first 14 octets and the same C/R flag if and only if the LCN is below 16 |
| DcpLinkRuns.StaleResend | dcptool/dcp.c:198-240 | A link whose send number is 7 sends its buffer again exactly when an RR acknowledges a number other than 0, or one did and the timer expires; the frame is unchanged except for its numbers |
| DcpLinkRuns.StaleResendRun | dcptool/dcp.c:198-240 | On any run, after a restart and with nothing admitted since, the frame of the earlier link goes out again exactly then |
| DcpLinkRuns.TimerRate | dcptool/dcp.c:654-673 | A stretch of timer calls attempts a write exactly when its measured time reaches the timer, and from a timer of 300 ms or more at most one write for every 300 ms |
| DcpLinkTimer.WrittenExactly | dcptool/dcp.c:617-673 | In any run of submissions and timer calls, in any mix, a busy link writes an I-frame if and only if the timer calls together measured what the timer held, and at most one more for every further 300 ms |
| DcpLinkTimer.Starved | dcptool/dcp.c:629-631 | A caller that submits within a millisecond before every timer call keeps the outstanding frame from ever being sent again, however much time passes |
| DcpLinkTimer.StarvedByPolling | dcptool/dcptool.c:321-335 | Such a run exists for every list of clock values and every payload |
| DcpLinkTimer.ElapsedBound | dcptool/dcp.c:141-160 | With timer calls alone n calls write by the time the timer and n ms have really passed, and not before the timer less n ms |
| DcpLinkTimer.WrittenWithTraffic | dcptool/dcp.c:178-240 | In any run of any calls that leaves the frame unacknowledged, an I-frame is written if and only if an RR is read or timer calls measure a whole period with no I-frame received in between |
| DcpLinkTimer.StarvedByTraffic | dcptool/dcp.c:183-186 | So a terminal that keeps sending I-frames with a stale N(R) keeps the outstanding frame from ever being sent again, at whatever times they come |
| DcpWire.AddressBits | dcptool/dcp.h:21-45 | The address octet is what the shifts and masks of the header put together, for every LCN and C/R |
| DcpWire.SubmittedOctets | dcptool/dcp.c:617-638 | A submission on a ready link puts exactly these octets on the line: address of the LCN with C/R, N(S) one more than the last with P set and N(R) one more than the last received, the first 14 octets, and for an HDLC device two more |
| DcpWire.TimerOctets | dcptool/dcp.c:640-673 | An expired timer puts an empty command under a new number on the line when the link is ready, the frame in the buffer under the current numbers when it is not |
| DcpWire.TimerSilent | dcptool/dcp.c:654-673 | In every other case a timer call writes nothing and keeps numbers and buffer |
| DcpWire.FirstOctet | dcptool/dcp.c:634 | The first octet of submissions and keep-alives, as the shifts and masks of the header give it |
| DcpWire.ChannelAddresses | dcptool/dcp.h:28-40 | LCNs 14 and 15 give 0xe3, 0xe1, 0xf3 and 0xf1 for commands and responses |
| DcpWire.AnswerOctets | dcptool/dcp.c:183-194 | In LINK_UP every I-frame read puts exactly one packet on the line: a response with control 0x88 plus the frame's N(S) plus one, without payload |
| DcpWire.SabmOctets | dcptool/dcp.c:308-330 | A DM, 0xf0, in any state puts a SABM, 0xfc, on the line as a command, and resets the numbers |
| DcpWire.RrOctets | dcptool/dcp.c:227-240 | An RR, 0x80 to 0x8f, either acknowledges or puts exactly the buffered frame on the line again |
| DcpWire.OtherOctets | dcptool/dcp.c:384-422 | Every other control octet leaves numbers and buffer alone and is not answered; 0xce brings up a link that waits for it |
| DcpWire.RunResult | dcptool/dcp.c:654-673 | The answer of a timer call is -1 exactly on a link that is up whose clock failed or went back, and otherwise 0 |
| DcpWire.XmtResult | dcptool/dcp.c:617-638 | The five answers of a submission, each exactly in its case |
| DcpWire.RcvResult | dcptool/dcp.c:578-615 | The answer of a reception, the octets handed up and the C/R flag reported, for every read |
| DcpWire.BufferAfter | dcptool/dcp.c:632-648 | A submission replaces the first octets of the buffer and keeps the rest; a keep-alive clears the first 32 |
| DcpWire.InitialValues | dcptool/dcp.c:475-496 | The values of a link just set up |
| DcpWorld.Next | dcptool/dcp.c:582-673 | Every event of the composed system keeps the switch's invariant and configuration, and an overlap of handshakes once noted stays noted |
| DcpWorldSafety.StepInv | dcptool/dcp.c:178-422 | Every event keeps the invariant that relates the modulo-8 fields, the buffer and every packet in flight to the unbounded histories |
| DcpWorldSafety.DeliverInv | dcptool/dcp.c:178-240 | So does delivering any packet to the switch, restarts included |
| DcpWorldSafety.TermReadInv | dcptool/dcp.h:56-69 | So does every reading of the terminal |
| DcpWorldTheorems.RunInv | dcptool/dcp.c:178-673 | The invariant holds after every run without overlapping handshakes |
| DcpWorldTheorems.ForwardDelivery | dcptool/dcp.c:332-368 | In every reachable state with the link up, the accepted payloads are a prefix of the admitted ones, at most one behind, and equal whenever the switch may send |
| DcpWorldTheorems.Reception | dcptool/dcp.c:597-614 | For LCNs below 16 the payloads handed up, repeats collapsed, are in order a prefix of the terminal's non-empty payloads, and every payload the terminal takes as acknowledged was handed up; for any other LCN nothing is handed up |
| DcpWorldTheorems.NoStaleFrame | dcptool/dcp.c:292-330 | Every I-frame written in a reachable state carries the newest payload of the current link under its own number, never one of an earlier link |
| DcpWorldTheorems.Outstanding | dcptool/dcp.c:349-368 | A link that is up and busy has exactly one admitted frame unacknowledged, and that frame is in the buffer |
| DcpWorldTheorems.ReadyPersists | dcptool/dcp.c:349-368 | Once the switch may send, only admitting a frame or a DM makes it busy again |
| DcpWorldTheorems.FlightStep | dcptool/dcp.c:198-240 | No event lets frames in flight outgrow the submissions and timer expiries that caused them |
| DcpWorldTheorems.DeliverFlight | dcptool/dcp.c:370-422 | Reading a packet never adds to the frames in flight: only an RR makes the switch write an I-frame, and that RR has left the line |
| DcpWorldTheorems.Conservation | dcptool/dcp.c:198-673 | On every run, overlapping handshakes included, I-frames to the terminal plus RRs from it never outnumber accepted submissions plus timer expiries |
| DcpWorldPatience.UnansweredStep | dcptool/dcp.c:308-330 | No event puts more DMs and SABMs on the line than the terminal has DMs unanswered |
| DcpWorldPatience.PatientTerminal | dcptool/dcp.c:370-422 | A terminal that sends a DM only after taking a SABM for every earlier one never lets handshakes overlap, so that delivery, reception and progress hold in all its runs |
| DcpWorldProgress.ExpiryStep | dcptool/dcp.c:654-673 | A timer expiry with a frame outstanding puts that frame behind everything in flight |
| DcpWorldProgress.DrainFwd | dcptool/dcp.c:198-216 | Reading what is in flight to the terminal ends with an acknowledgement of everything admitted as the newest packet to the switch |
| DcpWorldProgress.DrainRev | dcptool/dcp.c:227-240 | Reading what is in flight to the switch then makes it ready |
| DcpWorldProgress.Progress | dcptool/dcp.c:654-673 | From every reachable state with the link up and a frame outstanding, one timer expiry and loss-free delivery of what is in flight make the switch ready with everything accepted, in at most twice the forward queue plus the backward queue plus 3 events |
| DcpWorldProgress.SubmissionAdmitted | dcptool/dcp.c:617-638 | A submission adds its payload to what is being sent exactly when the link is up and the answer is not busy, failed and short writes included |
| DcpWorldProgress.SubmissionDelivered | dcptool/dcp.c:617-673 | From every reachable state with the link up, a payload whose submission answered anything but busy reaches the terminal, behind everything admitted before, by the schedule of Progress |
| DcpWorldExact.DeliveryExactly | dcptool/dcp.c:227-240 | Forward delivery holds in all runs of terminals that send a DM with at most k earlier ones unanswered if and only if k allows none |
| DcpWorldExact.ReceptionExactly | dcptool/dcp.c:597-614 | The same for reception |
| DcpWorldExact.FreshExactly | dcptool/dcp.c:402-417 | The same for never sending a frame of an earlier link |
| DcpWorldExact.OneDmExactly | dcptool/dcp.c:384-422 | A single DM, from any reachable state of a terminal that is down, leaves reception safe in every run in which it is the last DM if and only if it meets a line with no DM and no SABM on it |
| DcpWorldExact.BusyFails | dcptool/dcp.c:384-422 | From every state in which it does not, a run in which a stale UA opens the link and the switch hands up what belongs to no stream of the terminal |
| DcpWorldBringUp.StuckStays | dcptool/dcp.c:384-401 | A link that is down, with the terminal up and no DM, awaited UA or SABM for an awaited UA under way, stays as it is in every run in which the terminal does not go down |
| DcpWorldBringUp.BringUp | dcptool/dcp.c:384-401 | From every other state a loss-free schedule of at most twice the forward queue plus three times the backward queue plus 4 events brings the link up, whatever the clock says |
| DcpWorldBringUp.ComesUpExactly | dcptool/dcp.c:308-401 | A link that is down can come up without the terminal going down if and only if it is not stuck in that sense |
| DcpWorldBringUp.EveryRunComesUp | dcptool/dcp.c:308-401 | So in every state any run reaches, overlapping handshakes included |
| DcpWorldBringUp.DropFrees | dcptool/dcp.c:384-401 | A stuck link is free again once the terminal goes down |
| DcpWorldBringUp.LostUa | dcptool/dcp.c:391-401 | A lost UA gets a link stuck in EXPECT_UA, in four events and without an overlap |
| DcpWorldBringUp.ShortSabm | dcptool/dcp.c:320-329 | So does, in RESET and with nothing lost, a SABM that reaches the line although its write is reported short |
| DcpWorldOverlap.StaleFrameSent | dcptool/dcp.c:402-417 | A run with overlapping handshakes in which the switch writes a payload of the earlier link on the new one |
| DcpWorldOverlap.FalseAcknowledgement | dcptool/dcp.c:227-240 | Such a run in which the switch may send although the terminal accepted another payload than the one admitted |
| ParseLine.Parse | dcptool/dcptool.c:94-131 | The nested loops store exactly the first 32 octets of the unbounded reading of the line, and leave the rest of the buffer alone |
| ParseLine.Sscanf | dcptool/dcptool.c:110-114 | A conversion takes the whole run of hex digits and gives its value |
| ParseLine.ReadingDistributes | dcptool/dcptool.c:94-131 | Two lines joined by a space read as one after the other when the first leaves no quotation open, and otherwise the second is read as quoted text |
| ParseLine.QuotedText | dcptool/dcptool.c:115-124 | Text in quotation marks stands for its own characters, whatever follows |
| ParseLine.HexDigits | dcptool/dcptool.c:110 | The hex digits are the 22 characters of both cases, each with its value |
| ParseLine.CaseDoesNotMatter | dcptool/dcptool.c:110-114 | Changing the case of hex digits outside quotes does not change what a text reads as |
| ParseLine.ReadCapitals | dcptool/dcptool.c:110-114 | Two capital digits and a space read as their octet, whatever follows |
| ParseLine.AnyCaseRoundTrip | dcptool/dcptool.c:165-184 | A printed packet reads back in every mixture of cases |
| ParseLine.SkippedText | dcptool/dcptool.c:124-127 | Characters outside quotes that are no hex digits mean nothing |
| DumpPacket.NumberReads | dcptool/dcptool.c:110-114 | Any number printed in hex reads back modulo 256 |
| ParseLine.RoundTrip | dcptool/dcptool.c:165-184 | Reading inverts the printing of octets as two hex digits and a space, whatever follows |
| ParseLine.ReadOctet | dcptool/dcp.c:162-176 | One printed octet in front of any text reads as that octet and then the text |
| DumpPacket.DumpLine | dcptool/dcptool.c:166-184 | One row takes at most 16 octets and has the layout of label, hex column and text column |
| DumpPacket.DumpPkt | dcptool/dcptool.c:186-197 | The loop prints exactly the rows of the packet, in order |
| DumpPacket.RowReads | dcptool/dcptool.c:166-184 | In every row the label is the offset as a number, the 48 columns after it read back as the octets, the framed text column shows the low seven bits of each octet as that character if it is printable and as a dot if not, and the length depends on the label alone |
| DumpPacket.RowCell | dcptool/dcptool.c:171-172 | Each octet stands in its three columns as two lower-case digits and a space, and blanks stand beyond the last |
| DumpPacket.LabelWidth | dcptool/dcptool.c:170 | A label has four digits, or as many as its number needs and no zero in front |
| DumpPacket.ListingReadsBack | dcptool/dcptool.c:186-197 | The rows are as many as needed, labelled 16 apart, and their hex columns joined give the packet |
| ArgSep.Separate | dcptool/commands.c:241-264 | The in-place loop records the first ten tokens in order, ends the first nine of them with a NUL, and changes no other octet |
| ArgSep.TokensAreRuns | dcptool/commands.c:253-261 | Every token is a maximal run of characters above 32, and tokens follow each other with a gap |
| ArgSep.TokensCover | dcptool/commands.c:247-261 | Every character above 32 before the first NUL is in some token |
| ArgSep.NulEnds | dcptool/commands.c:248-251 | No token reaches beyond a NUL that does not stand right behind one |
| ArgSep.ArgumentTexts | dcptool/commands.c:253-261 | Read through the argument vector, the first nine arguments are exactly their tokens and a tenth is the whole rest of the line |
| Width.StrnWidth | dcptool/console.c:101-135 | The loop gives the columns taken by the characters that start within n bytes, tab stops counted from the line's own start |
| Width.StrWidth | dcptool/console.c:138-141 | The same for a whole text |
| Width.ColumnsCompose | dcptool/console.c:282-284 | A prompt and a line measured one after the other are as wide as the two measured together |
| Width.WithinFront | dcptool/console.c:109-111 | Cutting at a character boundary keeps exactly the characters before it |
| Width.CharactersCount | dcptool/console.c:128-131 | Printable characters count one column each, control and wide characters two, unprinted ones none |
| Width.TabStops | dcptool/console.c:127 | A tab goes to the next multiple of eight columns |
| Width.TabPeriod | dcptool/console.c:127 | Only the position relative to the tab stops matters for a width |
| Width.CursorCell | dcptool/console.c:280-310 | The cursor stands at the column after prompt and line up to the editing point; the window's last line is never exceeded, and a position beyond the window is replaced by one in its middle |
| SliceVectors.RefStorage.Set | yate-svn/yatemath.h:319-346 | Copying succeeds exactly when the data fits or is empty, and changes exactly that range |
| SliceVectors.RefsCountHolders | yate-svn/yatemath.h:1247-1267 | Under the invariant a storage's count is the number of vectors that hold it, and at least one while any does |
| SliceVectors.SliceVector.Release | yate-svn/yatemath.h:1217-1229 | Giving up a storage lowers its count by one and keeps all counts right |
| SliceVectors.SliceVector.Clear | yate-svn/yatemath.h:1217-1229 | A cleared vector is empty and holds nothing; the invariant of the whole collection is kept |
| SliceVectors.SliceVector.InitStorage | yate-svn/yatemath.h:1231-1244 | A fresh storage holds the data given followed by zeros; it fails exactly when both lengths are zero |
| SliceVectors.GrantedExactly | yate-svn/yatemath.h:501-518 | The test that elements are available, whose sum is 32 bits wide, grants only what is there if and only if the sum does not wrap around or wraps beyond the length |
| SliceVectors.WrappedWindow | yate-svn/yatemath.h:1247-1267 | Every other request is granted although no such window fits in the storage |
| SliceVectors.LastOffset | yate-svn/yatemath.h:740-742 | One element from offset 2^32 - 1 is such a request for every vector that is not empty |
| SliceVectors.TailOfNothing | yate-svn/yatemath.h:715-720 | A tail of zero elements is one exactly for vectors of 2^31 elements or more |
| SliceVectors.SliceVector.InitSlice | yate-svn/yatemath.h:1247-1267 | For every request on which that test is sound, slicing, also of the vector itself, shares the storage with offsets added exactly when enough is available; otherwise the vector is cleared or kept as asked; the invariant is kept |
| SliceVectors.SliceVector.Slice | yate-svn/yatemath.h:483-485 | A new slice shares the storage at the sum of the offsets, or is empty |
| SliceVectors.SliceOfSlice | yate-svn/yatemath.h:735-742 | Slices of slices compose by adding offsets |
| SliceVectors.SliceVector.Assign | yate-svn/yatemath.h:980-983 | Assignment makes the elements equal by sharing the storage and keeps the invariant, also for self-assignment |
| SliceVectors.SliceVector.Head | yate-svn/yatemath.h:686-696 | The first elements; zero means the whole vector, too many means none |
| SliceVectors.SliceVector.Tail | yate-svn/yatemath.h:715-720 | The last elements; zero and too many both mean none |
| SliceVectors.SliceVector.Resize | yate-svn/yatemath.h:631-637 | Resizing within the maximum keeps the invariant and moves nothing |
| SliceVectors.SliceVector.ResetStorage | yate-svn/yatemath.h:665-668 | A vector reset to a length holds that many zeros in a storage of its own |
| SliceVectors.JoinedFits | yate-svn/yatemath.h:450-474 | The storage reserved for a concatenation holds all elements if and only if the total length does not wrap around |
| SliceVectors.SliceVector.Concat | yate-svn/yatemath.h:450-456 | The constructor gives the concatenation of two vectors in fresh storage |
| SliceVectors.SliceVector.Concat3 | yate-svn/yatemath.h:465-474 | The constructor gives the concatenation of three vectors in fresh storage |
| SliceVectors.SliceVector.Destroy | yate-svn/yatemath.h:491-492 | The remaining vectors satisfy the invariant after one is destroyed |
| SliceVectors.SliceVector.Sum | yate-svn/yatemath.h:835-843 | Adding in place sweeps the window from front to back, aliasing included, and refuses different lengths; for windows that share nothing each element becomes the sum modulo 256 and nothing else changes |
| SliceVectors.SliceVector.Sub | yate-svn/yatemath.h:860-868 | Subtracting in place likewise, with the difference modulo 256 |
| SliceVectors.SweptApart | yate-svn/yatemath.h:835-868 | For windows that share nothing the sweep is elementwise and changes nothing outside the window |
| SliceVectors.SweptNumbers | yate-svn/yatemath.h:835-868 | In numbers: sum and difference modulo 256 of what both windows held |
| SliceVectors.SumThenSub | yate-svn/yatemath.h:835-868 | For such windows sum and then sub restores the whole buffer modulo 256 |
| SliceVectors.OverlapNotRestored | yate-svn/yatemath.h:835-868 | For every pair of overlapping windows a buffer of ones is not restored |
| SliceVectors.RestoredExactly | yate-svn/yatemath.h:835-868 | Every content is restored if and only if the windows share no element |
| WrapDump.Dump | yate-svn/yatemath.h:1104-1129 | The printer's loop lays the elements out with the greedy placement, the whole behind what was there |
| WrapDump.ContentPreserved | yate-svn/yatemath.h:1116-1127 | For every placement the prefix stands in the printed text at each cut, and taking it out there leaves the elements joined by the separator |
| WrapDump.PlainIsJoin | yate-svn/yatemath.h:1113-1114 | For elements that all show as something the unwrapped form joins them by the separator |
| WrapDump.BreaksWhereNeeded | yate-svn/yatemath.h:1116-1125 | A prefix is inserted exactly where the next element would carry the line beyond its length |
| WrapDump.GreedyFits | yate-svn/yatemath.h:1116-1127 | No line exceeds the limit if and only if every element with its separator fits a line |
| WrapDump.GreedyOptimal | yate-svn/yatemath.h:1116-1127 | No legal placement has fewer breaks, and none with as few ends further to the left |

## Left out

- DcpWorldTheorems.ForwardDelivery: holds for runs in which no DM is repeated while an earlier DM or the SABM answering it is in flight; with such an overlap it is false (DcpWorldOverlap.FalseAcknowledgement). DcpWorldExact.DeliveryExactly says which terminals guarantee that.
- DcpWorldTheorems.Reception: the same runs (exactly, DcpWorldExact.ReceptionExactly and OneDmExactly); reception is at least once, since dcp.c does not suppress repeated frames.
- DcpWorldTheorems.NoStaleFrame: the same runs; false with an overlap (DcpWorldOverlap.StaleFrameSent, DcpWorldExact.FreshExactly). DcpLinkRuns.StaleResendRun gives the exact condition on the switch's own state.
- DcpWorldProgress.Progress: starts in LINK_UP with the terminal up, and the frame of the expiry must get on the line; how a link gets to LINK_UP is DcpWorldBringUp.ComesUpExactly.
- DcpWorld.Next: the terminal is a model peer, not code of the repository. It uses the configured LCN, puts its next expected number in every frame it sends, takes only RR as an acknowledgement (dcptool/dcp.h:104), and sends at most 28 octets of payload, which with the FCS fill the 32-octet read. Corrupted frames count as lost.
- DcpHdlcState.HdlcState.WritePacket: the retry after a device event (dcptool/dcp.c:267-275) is folded into the one result of the write.
- DcpHdlcState.HdlcState.constructor: opening and configuring a device, the transport context and its callbacks.
- DcpLink.Rcv: the device, event and callback reads are one parameter, an error or up to 32 octets; the clock is another.
- DcpClock.MillisAccurate: seconds are unbounded integers; the widths of time_t and long are not modelled.
- ParseLine.Parse: runs of more than 8 hex digits and runs with a 0x prefix, where the C library decides; characters of negative value passed to isxdigit.
- DumpPacket.DumpPkt: the header line with direction and packet number, and refreshing the screen.
- ArgSep.Separate: argument pointers are positions in the line, which the caller copied; looking the command up and running it.
- Width.StrnWidth: decoding multibyte text and the guess for malformed text (dcptool/console.c:113-124); widths do not wrap around.
- Width.CursorCell: what is drawn; the byte shown first after scrolling is returned as computed, and may lie before the line.
- SliceVectors.SliceVector.InitSlice: requests that the wrapped test grants by mistake (SliceVectors.WrappedWindow); the failing reference and memory exhaustion; elements are octets, so that sizes in bytes and in elements agree.
- SliceVectors.SliceVector.Slice: the same requests.
- SliceVectors.SliceVector.Concat: total lengths of 2^32 or more, for which the storage is too small (SliceVectors.JoinedFits).
- SliceVectors.SliceVector.Concat3: the same lengths.
- SliceVectors.SliceVector.Tail: zero elements asked of a vector of 2^31 or more (SliceVectors.TailOfNothing); the variant that returns a vector by value, which is empty for the full length.
- WrapDump.Dump: a missing function pointer; the unwrapped form joins as String::append with a separator does, which is not part of this model.
- Stealing data between vectors, filling, hexifying, comparing, multiplying and float or Complex vectors: easy members or floating point.
- The unknown transport mode and the state before initialisation: both are refused everywhere with a trace message.
- DAHDI and socket input and output, HUA and SCTP, tracing, event names, the status line, windows and readline.
- B-channel, loop, mute and DTMF commands: thin wrappers of device calls.
- The other Yate headers and the DAHDI tools.
