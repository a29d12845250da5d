# libieee1284, modelled and verified

libieee1284 drives a parallel port in software. Its hard part is the set of IEEE Std 1284
handshake engines in `src/default.c`, which must stay correct against a peripheral that may
answer, stall or time out at any point. This project models those engines, the pin layer under
them, the configuration reader, and the lifetime of ports, and proves what they promise.
`dafny verify dfyconfig.toml` checks everything.

## How the model is built

**The port and the cable** (`Signals.dfy`, `Port.dfy`). `Port` is `struct parport_internal` with
its cable: the host drives the control lines, the data register and the direction of the data
drivers, and the peripheral drives the status lines and the input data. What is on the data lines
for either end is the host's register while its drivers are on, and the peripheral's levels while
they are off. Before every pin
operation, and before every poll of a wait, the peripheral may put any levels on its lines. A
wait polls at least once and any number of times more; it returns OK exactly if the last poll
matched. So every statement about a `Port` holds for every peripheral and every pattern of
stalls and timeouts. `ControlRegister.dfy` goes below the lines: the bytes of the shadow
register, with three inverted lines and a direction bit, refine them.

**The other end** (`Devices.dfy`, `Handshakes.dfy`). A `Port` carries a ghost `Device` that
watches the wires and keeps what a real device would have latched or handed over: a `Printer`
(latches on falling nStrobe), a `Receiver` (ECP forward and EPP write: takes a byte by raising
Busy while its clock is low), a `Sender` (ECP reverse, nibble, byte and EPP read: presents a
byte while nAutoFd is low and withdraws it while nAutoFd is high) or a `Referee` (follows the
numbered events of negotiation and termination). A device never restricts the peripheral: one
that breaks its own interlock loses the flag `conforms`, and only then are the statements about
what it latched void. `Handshakes.dfy` names the points of a handshake and proves how each host
action moves it on.

**The engines** (`Negotiation.dfy`, `EcpDirection.dfy`, `EcpRead.dfy`, `EcpWrite.dfy`,
`Nibble.dfy`, `ByteTransfer.dfy`, `Epp.dfy`, `Compat.dfy`) are methods over a `Port`, with the
branches, events and exits of the source; long functions are split at their events. `Rle.dfy`
defines run-length encoding and decoding apart from the engine. `Runs.dfy` composes calls into
runs of any length, and `DeviceId.dfy` is the device-ID sequence.

**The rest.** `Lexer.dfy` is the documented configuration syntax as a one-pass lexer,
`Syntax.dfy` the laws that say what every spelling of a token means, and `Conf.dfy` the resuming
two-pass scanner and the recogniser of the source, proved against it. `Bitmap.dfy`, `Deadline.dfy`
and `Lifetime.dfy` are the permission bitmap, the timed polling loop and the reference counts.

## What the proofs show about the code

- ECP reads of any lengths, one after the other, return exactly the decoding of the items the
  sender handed over, each read ending on an item boundary, as long as none misses event 45.
  A command that is not wanted stays on offer, unacknowledged.
- All of this needs the data drivers to be right. Negotiation and compatibility-mode writes need
  them on, ECP writes need them on or the phase not to be forward idle, and ECP reads need them off
  or the phase not to be reverse idle. A byte-mode read never switches them on again, and neither
  does termination, unless it is called in reverse idle phase and the peripheral turns the channel.
  So after a visit to byte mode that read something a printer gets none of the bytes that a write
  counts as written (`Runs.ByteThenCompat`), and the same holds for negotiation and ECP writes
  (`Runs.ByteThenEcp`). `Runs.Call` and `Runs.DirectionRun` say exactly which calls leave the
  drivers off outside reverse phase.
- ECP and EPP writes are exactly-once up to one byte, over any stalls and recoveries; whether that
  byte was taken shows on Busy when the call ends (`EcpWrite.AtMostOneInDoubt`). For EPP it was
  taken exactly if event 60 was missed, so `default_epp_write_data` then returns one less than the
  number of bytes acknowledged (`Epp.AcknowledgedExactly`).
- The three outcomes of negotiation are told apart exactly by how far the handshake came.
- nSelectIn is high exactly outside compatibility mode after every run in which each transfer is
  made in its mode. `default_epp_read_data` is never made in its mode in this sense: it drops
  nSelectIn and leaves the mode alone, so it breaks the agreement exactly when it is called
  outside compatibility mode (`Runs.Call`).
- Reverse idle phase means reversed drivers and low nInit after every run that does not negotiate
  a mode other than ECP from reverse idle phase; if another mode is negotiated there, that holds
  exactly if the negotiation fails or is for ECP (`Runs.NegotiateFromReverseIdle`).
- After Host Transfer Recovery `default_ecp_write_data` goes on with nInit low, which otherwise asks
  for the reverse direction, and leaves it low (`EcpWrite.Write`).
- The return value of `default_nibble_read` is the number of bytes stored exactly if no check for
  more data saw nFault high (`Nibble.NibbleRead`).
- `get_fresh` therefore returns bytes the device never sent exactly if nFault was high at one of the
  looks by which its two reads ask for more data; if it was at the first, even the length is what
  the caller's buffer held (`DeviceId.ReadId`).
- `get_token` steps past the end of a line exactly if the line ends in a dangling backslash, and
  is right on all files without such a line (`Conf.ReadAll`; `Conf.Overrun` is the smallest
  example).
- The length that `get_fresh` decodes is the big-endian one only under a condition on the length
  bytes when plain char is signed (`DeviceId.IdLengthIsBigEndian`).
- `ieee1284_close` leaves the port claimed: only a release ends a claim
  (`Lifetime.ClaimedUntilReleased`).

## Model

| member | source | states |
|---|---|---|
| Ports.Port.FrobControl | src/access_io.c:376-394 | the control lines become (lines & ~mask) ^ val and the data stays; a direction bit in the mask turns the drivers first; the device sees the edges after any moves of its own |
| Ports.Port.WriteControl | src/access_io.c:360-374 | all four control lines take the given levels; a direction bit switches the drivers off first |
| Ports.Port.DataDir | src/access_io.c:353-358 | only the direction of the data drivers changes, and with it what either end sees on the data lines |
| Ports.Port.ReadData | src/access_io.c:310-314 | what is on the data lines: the peripheral's levels with the drivers off, the host's own register with the drivers on |
| Devices.LinesOf | doc/interface.xml:1101-1110 | bytes put in the data register are on the lines at the clock edges with the drivers on; with the drivers off the lines have the peripheral's own levels |
| Ports.Port.WaitStatus | src/access_io.c:396-437 | OK exactly if the last poll has the levels asked for under the mask, whatever the peripheral did between any number of polls; each timeout is counted |
| Devices.MovesCollapse | src/access_io.c:417-432 | for a conforming device any number of peripheral moves between two host actions is one move to where it ended, so one move before each host action loses no behaviour |
| Devices.NibbleLines | src/default.c:336-337 | the sixteen nibbles and the levels of nFault, Select, PError and Busy correspond one to one |
| ControlRegisters.RawFrobRefines | src/access_io.c:329-341 | through the inversion mask the register arithmetic is the documented frob of the lines, for every register, mask and value |
| ControlRegisters.MatchRefines | src/access_io.c:419-420 | a masked comparison of the status byte is a comparison of lines |
| ControlRegisters.ControlRegister.RawFrobControl | src/access_io.c:329-341 | whatever the inversions, the lines and the direction become (in & ~mask) ^ val, a bit named neither by mask nor by value stays, and the shadow is what the hardware has |
| ControlRegisters.ControlRegister.ReadControl | src/access_io.c:343-351 | the four bits read are the lines as last driven |
| ControlRegisters.ControlRegister.DataDir | src/access_io.c:353-358 | the direction is set and the lines stay |
| ControlRegisters.ControlRegister.WriteControl | src/access_io.c:360-374 | the lines are those of the argument; a direction bit in it turns the drivers off |
| ControlRegisters.ControlRegister.FrobControl | src/access_io.c:376-394 | the lines evolve by the documented frob for every mask and value; the direction changes only if the mask names it |
| ControlRegisters.ControlRegister.Run | src/access_io.c:329-394 | over every sequence of operations the shadow equals the register and lines and direction are the fold of the documented effects |
| ControlRegisters.DirectionKept | include/ieee1284.h.in:197-203 | operations that do not name the direction bit never change it, over any sequence |
| ControlRegisters.ReadBack | src/access_io.c:343-374 | a read after a write returns the four bits written |
| Deadline.ComputeDeadline | src/access_io.c:404-408 | the deadline is normalised and is start plus timeout in microseconds |
| Deadline.Earlier | src/access_io.c:426-428 | on normalised times the pairwise comparison is that of the totals |
| Deadline.PollUntil | src/access_io.c:417-436 | OK iff some polled sample matched, and then it was the last; TIMEDOUT only at or after the deadline with at least one poll; all earlier clock readings were before it; the loop ends once the clock has passed the deadline (default_wait_data has the same loop) |
| Bitmap.SetBitmap | src/access_io.c:89-121 | for every map, in-range base and extent and either value, bit i becomes the value iff base <= i < base + extent and is unchanged otherwise |
| Bitmap.NetbsdIoport | src/access_io.c:131-140 | exactly the bit of the port is cleared |
| Bitmap.NetbsdOpen | src/access_io.c:257-259 | the three calls have the effect set_bitmap(base, 3, 0) has |
| Bitmap.SameMap | src/access_io.c:245-259 | the effect determines the map, so both ways of opening a port leave the same map |
| EcpDirection.FwdToRev | src/default.c:242-274 | OK iff PError went low; on failure the direction is unknown; drivers reversed, nAutoFd and nInit low either way; no byte of a ready sender is lost |
| EcpDirection.RevToFwd | src/default.c:276-303 | OK iff PError was seen high, and only then the drivers are forward and the phase forward idle; a failed switch leaves the direction unknown; no device latches or loses anything but the one byte already acknowledged |
| Negotiation.DropSelectIn | src/default.c:220-228 | event 22: nSelectIn low and compatibility mode whether or not event 24 comes |
| Negotiation.FinishDrop | src/default.c:230-239 | events 25-28 complete exactly if event 27 comes |
| Negotiation.Terminate | src/default.c:209-240 | always compatibility mode with nSelectIn low and nStrobe high; nSelectIn is never dropped in reverse idle phase; the closing handshake stops only at an event the peripheral owes, as the last look and a watching referee both show, and is complete iff no wait but that for a failed turn of the channel timed out; a printer latches nothing and a sender hands over at most one byte more |
| Negotiation.AskForMode | src/default.c:134-153 | events 0-2: the referee sees what is on the data lines at event 1 as the request, and event 2 exactly if the wait succeeds |
| Negotiation.Requests | src/default.c:117-132 | for every mode: ECPSWE asks for what ECP asks for, EPPSL and EPPSWE for what EPP does, bounded ECP for 0x18, any mode with the extensibility flag for 0x80 and every other for its own low byte; events 30 and 31 go with exactly the requests that have bit 4 set |
| Negotiation.StrobeMode | src/default.c:155-169 | events 3, 4 and 6: the referee sees event 6 exactly if the wait succeeds |
| Negotiation.SetUpEcp | src/default.c:182-198 | events 30 and 31: forward idle phase and channel 0 exactly if event 31 comes |
| Negotiation.Attempt | src/default.c:130-198 | the outcome before any abort: the referee stands at the end of the handshake, at a wrong Select, or at an event the peripheral owes |
| Negotiation.Negotiate | src/default.c:95-207 | returns only OK, NEGFAILED or REJECTED; the mode is the requested one iff OK and compatibility mode otherwise; OK iff the referee saw the whole handshake for what was on the lines at event 1, REJECTED iff it saw events 2 and 6 and the wrong Select, NEGFAILED iff event 2, 6 or 31 was owed and did not come; that is the request for the mode if the drivers are on, and otherwise the peripheral's own levels; after a failure, or for compatibility mode, the port is terminated |
| Nibble.NibblesOfStatus | src/default.c:336-337 | the shifts and masks of the source recover the nibble the lines show |
| Nibble.NibblesInjective | src/default.c:354-367 | different byte strings are different nibble streams, so the stream fixes the bytes |
| Nibble.TakeNibble | src/default.c:329-345 | one interlocked nibble: handed over exactly if both waits succeed |
| Nibble.TakeByte | src/default.c:329-365 | the byte assembled is the one whose low and high nibble were handed over, in that order |
| Nibble.NoMoreData | src/default.c:320-327 | reading stops exactly if nFault is seen high |
| Nibble.NextByte | src/default.c:320-368 | one round: a byte, out of data, or a timeout that leaves compatibility mode; at an even count it is out of data iff its first look sees nFault high |
| Nibble.NextStored | src/default.c:318-369 | one round with its byte stored: the buffer changes in that byte only |
| Nibble.NibbleRead | src/default.c:305-378 | the bytes stored are exactly those handed over nibble by nibble, nothing else in the buffer changes; on a timeout the return value is the number of whole bytes stored and the port is in compatibility mode, with at most one byte in doubt; there is one look at nFault for every even count, the first of them the first look of the call, and the return value counts the bytes stored iff all of them saw nFault low |
| Compat.Strobe | src/default.c:399-415 | the pulse latches exactly what is on the data lines at its falling edge, with the data stable |
| Compat.WriteByte | src/default.c:390-415 | one byte after Busy was seen low, or termination |
| Compat.CompatWrite | src/default.c:380-423 | what is latched on falling nStrobe edges over the whole call, including termination, is what was on the lines at ret edges, each after Busy was seen low and with stable data: exactly buffer[..ret] if the drivers are on, the peripheral's own levels if they are off; the count is short iff a wait timed out |
| ByteTransfer.BeginByte | src/default.c:444-451 | goes on exactly if PError is seen low |
| ByteTransfer.AskForByte | src/default.c:454-467 | events 7-9: with the drivers off the byte read is the one on offer; if none comes in time nAutoFd is high again and the sender has handed over nothing more |
| ByteTransfer.AcknowledgeByte | src/default.c:469-478 | events 10 and 11: the byte counts as handed over exactly if it is withdrawn in time |
| ByteTransfer.EndByte | src/default.c:480-485 | the sender sees one pulse of nStrobe, which disturbs nothing |
| ByteTransfer.NextByte | src/default.c:440-486 | one round writes at most the one byte it was asked for, and ends with a pulse exactly if the byte was handed over; the drivers are left off unless the first look says that there is no data |
| ByteTransfer.Read | src/default.c:425-492 | the bytes counted are exactly those handed over in order, each finished by one pulse of nStrobe; at most one byte beyond the count is touched and only when event 11 was missed; the drivers end up off iff they were off or, for len > 0, the first look saw PError low |
| Epp.BeginRead | src/default.c:508-512 | EPP idle state for reading, which drops nSelectIn |
| Epp.AskForByte | src/default.c:515-523 | events 67 and 58: with the drivers off the byte read is the one on offer |
| Epp.AcknowledgeByte | src/default.c:525-532 | events 63 and 60: handed over exactly if it is withdrawn in time |
| Epp.NextByte | src/default.c:514-535 | one round writes at most the one byte it was asked for |
| Epp.EndRead | src/default.c:536-536 | drivers forward; after a missed event 60 the byte in doubt is the one stored beyond the count |
| Epp.Read | src/default.c:494-540 | the bytes counted are exactly those handed over in order; at most one byte beyond the count is touched, only when event 60 was missed; forward drivers on every exit |
| Epp.PollPort | src/default.c:542-561 | OK iff the last poll matched; at most usec/5+2 polls, exactly as many on a timeout |
| Epp.BeginWrite | src/default.c:572-578 | EPP idle state for writing |
| Epp.PushByte | src/default.c:582-602 | events 62, 58, 63 and 60 for one byte; Busy is high at the end exactly if event 60 was missed |
| Epp.PresentByte | src/default.c:582-591 | events 62 and 58: with the drivers on the byte is given to the receiver; Busy is high exactly if event 58 came; at most four polls, exactly four when it did not |
| Epp.ReleaseByte | src/default.c:593-601 | events 63 and 60: Busy is low exactly if event 60 came; at most three polls, exactly three when it did not |
| Epp.Write | src/default.c:563-608 | the receiver has acknowledged exactly the bytes reported, or stands at the point of the handshake of the next one that the exit names; nAutoFd is low at the end exactly if event 58 was missed |
| Epp.AcknowledgedExactly | src/default.c:580-607 | a conforming receiver has acknowledged exactly buffer[..ret], and one byte more iff event 60 was missed, so the return value is the number of bytes acknowledged iff it was not; the data never changed while nAutoFd was low |
| Rle.DecodeConcat | src/default.c:651-728 | decoding starts afresh at item boundaries |
| Rle.RoundTrip | src/default.c:683-727 | every split of a byte string into literals and runs of 1 to 128 decodes to that string with nothing pending |
| Rle.Boundary | src/default.c:683-727 | a host that waits for no run byte has accepted the encoding of whole chunks |
| Rle.NextChunk | src/default.c:674-690 | what follows whole chunks of an encoding is never a channel command nor a run too long for the rest |
| EcpRead.AwaitItem | src/default.c:655-658 | the wait ends with an item iff its last poll saw nAck low, and gives up only after patience + 1 timed-out waits; an item on offer is always seen, and waiting loses none |
| EcpRead.FetchItem | src/default.c:660-670 | the command flag and byte are those on offer if the drivers are off; after a run count Busy is not looked at |
| EcpRead.AcceptItem | src/default.c:695-711 | the item is handed over exactly if event 45 comes in time |
| EcpRead.BeginReverse | src/default.c:641-649 | false exactly if the channel could not be turned, and then the direction is unknown |
| EcpRead.NextItem | src/default.c:651-715 | an item is accepted, or left on offer for a reason that is one: a channel command, or a run longer than the room |
| EcpRead.Store | src/default.c:683-727 | the buffer stays the decoding of the items accepted; a run never goes past the room checked when its count was accepted; no channel command is among the items |
| EcpRead.ReadItems | src/default.c:651-728 | the loop as a whole |
| EcpRead.Read | src/default.c:624-735 | the buffer receives exactly the decoding of the items accepted, nothing beyond it changes, and those are the items the sender handed over; the call ends on an item boundary unless event 45 was missed; an unwanted command is still on offer with HostAck low; neither a channel command nor a run that does not fit is ever accepted; an item on offer when the call begins is always looked at, and first; the call is still waiting only if more than patience waits timed out and the last poll saw nAck high; all this if the channel is to be turned or the drivers are off: a read in reverse idle phase with the drivers on takes every byte from the host's own register |
| EcpRead.ReadWhole | src/default.c:674-734 | when a conforming sender sends any encoding of a string, a read for exactly the length of the string that no timeout cuts short fills the buffer with that string, unless it is made in reverse idle phase with the drivers on |
| EcpWrite.PutByte | src/default.c:764-769 | event 35; a retry presents the same byte without an edge of HostClk; the receiver is given the byte if the drivers are on and no byte of the host if they are off |
| EcpWrite.AwaitBusy | src/default.c:770-775 | at most a hundred waits for event 36 |
| EcpWrite.Recover | src/default.c:777-793 | recovery succeeds exactly if PError is seen low with nInit high and then high with nInit low; nInit ends low |
| EcpWrite.PresentByte | src/default.c:764-797 | over any number of recoveries the byte is taken at most once; nInit is low afterwards iff there was a recovery or it was low before; a byte is given up exactly when a recovery fails, as the last look shows, and cut short only after patience + 1 recoveries that succeeded; each recovery comes after exactly a hundred timed-out waits |
| EcpWrite.ReleaseByte | src/default.c:797-804 | event 37, and OK exactly if Busy goes low |
| EcpWrite.BeginForward | src/default.c:751-759 | false exactly if the channel could not be turned; HostAck says data or command |
| EcpWrite.SendByte | src/default.c:761-805 | one round: the byte went, or the handshake stands where the exit says |
| EcpWrite.SendAll | src/default.c:761-805 | the loop as a whole |
| EcpWrite.Write | src/default.c:738-896 | for data and for addresses: forward idle phase afterwards; if the channel cannot be turned nothing is sent and the direction is unknown; otherwise the receiver stands exactly where the exit says; the drivers are off during the transfer iff the channel was in forward idle phase with the drivers off; nInit is high at the end iff there was no recovery; all recoveries succeeded but for the last one of a write that gave up |
| EcpWrite.AtMostOneInDoubt | src/default.c:761-811 | over any stalls and recoveries a conforming receiver has taken what it was given for buffer[..ret], and for the next byte iff the write went short and Busy is high at the end, in order, each tagged data or command as asked; with the drivers on it is given these bytes, with the drivers off none of the host; after a missed event 37 answer Busy is high, after a complete write it is low |
| EcpWrite.ClockedInOrder | src/default.c:764-802 | a receiver that latches on rising HostClk has, whether it conforms or not, the same bytes if the drivers are on and the peripheral's own levels if they are off; the host never changed the data while HostClk was low |
| Runs.Call | src/default.c:95-896 | every call keeps nSelectIn and the mode in agreement if made in its mode; EPP transfers keep it exactly then; every call but a byte-mode read and an ECP negotiation with the drivers off keeps the drivers on outside reverse phase and failed turns, and those two break it exactly if the read is not told at once that there is no data, or the negotiation succeeds |
| Runs.ModeRun | src/default.c:138-378 | after every run from a terminated port nSelectIn is high exactly outside compatibility mode, every abort path included |
| Runs.DirectionRun | src/default.c:95-896 | over every run without byte-mode reads that negotiates ECP only with the drivers on, the drivers are off only in reverse phase or after a failed turn, so they are on in forward idle phase |
| Runs.VisitByteMode | src/default.c:425-492 | a visit to byte mode that read something leaves the drivers off in compatibility mode |
| Runs.ByteThenCompat | src/default.c:380-492 | after such a visit for every byte that a compatibility-mode write counts as written a printer has latched the peripheral's own levels |
| Runs.ByteThenEcp | src/default.c:95-896 | after such a visit the request of a negotiation is the peripheral's own levels, and an ECP write gives the receiver no byte of the host |
| Runs.EcpCall | src/default.c:209-303 | every ECP call keeps the phase and the lines in agreement, never drops nSelectIn in reverse idle phase, and never asks for the reverse direction (nInit low) with the data drivers on, Host Transfer Recovery apart |
| Runs.EcpRun | src/default.c:209-811 | the same over every run; reverse data phase is never visible between calls |
| Runs.NegotiateFromReverseIdle | src/default.c:138-198 | negotiating another mode from reverse idle phase keeps phase and lines in agreement iff it fails or is for ECP |
| Runs.ReadSeries | src/default.c:651-734 | reads of any lengths together return the decoding of all items handed over since the first: nothing is lost or duplicated between calls; all the reads are made unless a wait times out, and a full read has its whole length, unless the first is made in reverse idle phase with the drivers on |
| Runs.ReadSplit | src/default.c:651-734 | reads of any lengths from a sender of an encoding return the string from its beginning, and all of it once all of the encoding was sent |
| Runs.ReadAgain | src/default.c:674-690 | what one read leaves unacknowledged the next one sees first: a run that fits now is not refused again, a channel command stops every read |
| Runs.WriteChain | src/default.c:761-811 | a write after complete writes leaves the receiver as one write of everything would |
| Runs.WriteSeries | src/default.c:738-813 | data and addresses written piece by piece leave the receiver as one write of all the pieces, each byte tagged as asked, so they are exactly-once up to one byte of doubt over the whole series |
| DeviceId.IdLength | src/deviceid.c:80-82 | the length asked for fits the buffer for every pair of length bytes, signed or not |
| DeviceId.IdLengthIsBigEndian | src/deviceid.c:80-82 | when exactly the length is the big-endian one |
| DeviceId.ReadLength | src/deviceid.c:73-78 | the short read that returns without terminating leaves compatibility mode all the same; if and only if the first look sees nFault high, the read succeeds without data and the length bytes stay what they were |
| DeviceId.ReadBody | src/deviceid.c:83-85 | the bytes handed over go after the length bytes, and a NUL follows if there is room; the rest of the buffer stays; it ran out of data iff one of the looks at nFault it made at even counts saw it high |
| DeviceId.ReadId | src/deviceid.c:73-85 | the buffer up to the result is what the device handed over iff the first look and the looks at even counts of the second read all saw nFault low; if the first saw it high, the length used is what the buffer held before; a ready sender has handed over exactly the bytes received, or after a timeout at most two nibbles more |
| DeviceId.GetFresh | src/deviceid.c:49-90 | a claimed port is left in compatibility mode on every path; at most len is returned and nothing beyond buffer[..len) changes; otherwise the buffer is as DeviceId.ReadId left it, and the result is two plus the length in its first two bytes cut to the room, or less after a timeout; the request at event 1 is nibble mode with the device-ID flag, and a sender that was ready after the negotiation has handed over the bytes received and at most two nibbles more |
| Lexer.LexPrintLine | doc/interface.xml:148-154 | a printed list of tokens is lexed back |
| Lexer.RoundTrip | src/conf.c:94-196 | lists of tokens free of newline and NUL, every character escaped and the empty token quoted, one list a line under the limit of fgets, come back when the file is read |
| Syntax.SegmentAdds | doc/interface.xml:148-154 | a piece of a token, written bare, in single quotes, in double quotes, or with backslashes outside or inside double quotes, means its text exactly if the text can be written in that way: bare without white space, braces, equals signs, quotes and backslashes, in single quotes without single quotes, in double quotes without double quotes and backslashes |
| Syntax.TokenLexes | doc/interface.xml:148-154 | a token spelled in pieces, however quoted, is read as what it means in front of a blank, tab, newline, brace, equals sign or the end; quoted braces and equals signs, and a `#` that is not its first character, are part of it |
| Syntax.BlankLexes | doc/interface.xml:148-154 | any run of blanks, tabs and newlines means nothing |
| Syntax.TailLexes | doc/interface.xml:148-154 | from `#` at the start of a token to the end of the line there is nothing |
| Syntax.MarkLexes | doc/interface.xml:148-154 | an unquoted brace or equals sign is a token of its own |
| Syntax.LineLexes | doc/interface.xml:148-154 | a line of tokens in any spelling, marks, white space and a comment is read as these tokens |
| Syntax.FileLexes | src/conf.c:62-82 | a file of lines under 999 characters is read line by line |
| Syntax.LongLine | src/conf.c:68-72 | a longer line is cut after 999 characters |
| Syntax.NulCuts | src/conf.c:80-80 | a NUL ends the line |
| Conf.Overrun | src/conf.c:99-103 | on the shortest dangling line, a single backslash, the first pass ends one past the end of the line |
| Conf.Requote | src/conf.c:105-127 | the quote tests of both passes are those of the lexer: a character that is not an escaping backslash either changes the quotes or is part of the token |
| Conf.FindEnd | src/conf.c:94-139 | the first pass ends exactly at the end of the token, and past the end of the line exactly if a dangling backslash of this token ends the line |
| Conf.CopyToken | src/conf.c:145-196 | the second pass yields the dequoted token, which fits the allocation; a backslash that escapes nothing is dropped |
| Conf.SkipSpace | src/conf.c:84-85 | skipping white space skips no token |
| Conf.TakeToken | src/conf.c:84-196 | one token of a line, or none exactly if only space and comment are left; only a dangling line is overrun |
| Conf.ContainsLater | src/conf.c:203-227 | a token that does not begin the instruction can be dropped |
| Conf.Scanner.ReadLine | src/conf.c:62-82 | fgets and strlen move one line from the file to the static state |
| Conf.Scanner.Refill | src/conf.c:52-82 | a used-up line is replaced; no token is lost |
| Conf.Scanner.TakeFromLine | src/conf.c:84-197 | the scanner resumes in the middle of the line |
| Conf.Scanner.GetToken | src/conf.c:39-201 | repeated calls yield exactly the tokens of the one-pass lexer over the whole file, for which the laws of Syntax hold, and NULL exactly at the end; a call that steps past the end of the line still returns the right token |
| Conf.ReadAll | src/conf.c:39-201 | reading any file to its end steps past the end of a line iff some line ends in a dangling backslash; otherwise the tokens are those of the lexer, and in any case a prefix of them |
| Conf.Config.Disallow | src/conf.c:203-227 | handing back the mismatched token loses no occurrence of the instruction; a lost scanner is not asked again |
| Conf.Config.TryReadConfigFile | src/conf.c:229-261 | for any file the scanner is lost iff some line ends in a dangling backslash; otherwise ppdev ends up disallowed iff it was before or `disallow`, `method`, `ppdev` occur in a row anywhere in the file |
| Lifetime.PortHandle.constructor | src/ports.c:148-150 | a new port has the reference of its list |
| Lifetime.PortHandle.Deref | src/ports.c:425-445 | destroyed exactly when the last holder lets go |
| Lifetime.PortHandle.Ref | src/interface.c:31-36 | one holder more |
| Lifetime.PortHandle.Unref | src/interface.c:38-54 | one holder less: an extra reference, or else that of the list; the last reference of an open port is closed |
| Lifetime.PortHandle.Close | src/interface.c:56-70 | INVALIDPORT iff not open; otherwise the open reference goes; claimed stays as it was |
| Lifetime.PortHandle.Open | src/state.c:88-115 | INVALIDPORT iff open already; takes a reference iff the access method's init succeeds |
| Lifetime.PortHandle.Claim | src/interface.c:72-97 | INVALIDPORT iff not open or claimed already |
| Lifetime.ClaimedUntilReleased | src/interface.c:72-143 | over every sequence of calls a port is claimed iff a claim was granted while it was open (or it was claimed to begin with) and no release followed; closing it makes no difference |
| Lifetime.PortList.FreePorts | src/ports.c:410-423 | every port loses the list's reference; those open or otherwise held survive, the others are destroyed |
| Lifetime.Run | src/interface.c:31-70 | over every disciplined run the count is the number of holders, the port is claimed when the books say so, and it is destroyed exactly once, when the last holder lets go |
| Lifetime.NothingAfterDeath | src/ports.c:425-445 | a disciplined run that destroys the port ends there |

## Left out

- EcpRead.Read: the wait for event 43 is unbounded in the source; `patience` bounds the timed-out waits of one item in a run, for every bound, so what holds at a cut holds of every finite part of an endless wait, but that the wait ends is not stated, because the peripheral may never answer.
- EcpWrite.Write: likewise `patience` bounds the recoveries of one byte; the source would retry for ever against a peripheral that recovers and stalls again.
- EcpWrite.Write: models both default_ecp_write_data and default_ecp_write_addr, which differ in the level of nAutoFd only.
- Conf.Scanner.GetToken: is not called again after the call that stepped past the end of a line; the source would then read beyond the string, which has no defined result.
- DeviceId.GetFresh: requires room for at least two bytes, since the source reads two before it looks at the length.
- Ports.Port.WaitStatus: how many polls fit before the deadline is left open there and treated in Deadline.PollUntil.
- Flags and debug output of the transfers: `flags` only selects a debug message in the functions modelled.
- Delays and `udelay`, except for the deadline arithmetic; the millisecond variant for Windows.
- Failure of malloc, and freeing of strings, in the configuration reader; read_config_file, which only builds the path and remembers whether the file could be opened.
- Access methods other than direct I/O, port discovery and sorting, interrupt descriptors, and device IDs from /proc: operating-system plumbing.
- default_epp_read_addr, default_epp_write_addr, default_ecp_read_addr and default_do_nack_handshake, which only return that they are not implemented.
- The other one-line claimed checks of src/interface.c.
