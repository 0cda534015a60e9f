# Verified models of the YARD-ICE firmware

YARD-ICE is the firmware of a JTAG debugger; with it come the headers of its kernel and a few link libraries.
This project models the parts whose correctness does not depend on device registers, and proves properties of
them over every input, every run or every interleaving. `dafny verify dfyconfig.toml` checks everything
(Dafny 4.11).

| file | part of the system |
|---|---|
| Breakpoints.dfy | the breakpoint list of the debugger as a value: pool, free list, least-recently-used order, hardware slots |
| BreakpointPool.dfy | the same on arrays and links, as the debugger runs it |
| Poll.dfy | the handshake between debugger commands and the background poll thread, statement by statement |
| BacnetFrame.dfy | frames of the BACnet point-to-point link as values: escaping, encoding, a receiver fed in portions |
| BacnetPtp.dfy | sender and receiver on their buffers, escapes removed in place |
| BacnetLink.dfy | the stop-and-wait transmitter against an alternating-bit peer over channels that lose frames |
| Crc.dfy | the three cyclic redundancy checks: bit-serial register, shift-xor step, tables |
| Xmodem.dfy | the retrying XMODEM receiver as a function of the line |
| XmodemLink.dfy | that receiver against a standard sender, over a line that damages and loses |
| XmodemReceiver.dfy | its octet-fed and its chunk-fed implementation |
| Loader.dfy | the flash loader and the read-modify-write flash driver |
| MemAccess.dfy | aligned access to target memory |
| MemMap.dfy | the walk over the memory map of a target |
| UartRing.dfy | the two ring buffers between threads and the interrupt handler of the serial port |
| BitVec.dfy | bit vectors in words: shifts, concatenation, comparison |
| WaitQueue.dfy | the thread queues of the kernel |

Code that works in place is a class or a method over arrays, tied by its contract to a function on values; the
theorems are lemmas about those functions. Concurrent code is a state machine whose steps are single
statements, and the theorems quantify over all runs.

## What was found

Some of the properties one would expect do not hold as they stand. The models keep the code as it is, state
exactly when the property holds, and give an input or a family of inputs where it does not.

- **Enabling a breakpoint** leaves its record where it is in the list. Behind the window of hardware slots this
  breaks the slot invariant exactly if a slot is vacant (`Breakpoints.OpKeepsInv`); the next new breakpoint can
  then be reported as set without being armed (`Breakpoints.EnableBehindWindowStarvesSet`).
- **The frame receiver** stops reading a header at five octets and then looks at the sixth. Any frame, whatever
  comes behind it, is returned exactly if its check octet is in the buffer at that moment, or the buffer holds
  the same value by chance (`BacnetFrame.RecvReturnsFrame`); a refused header loses the frame, and a stream comes
  back exactly if that happens to none of its frames and no frame without data but the last is taken by chance
  (`BacnetFrame.StreamRoundTrip`). With reads of one octet each a frame gets through only by chance
  (`BacnetFrame.OctetReadsMissFrame`).
- **An octet 0x55 just before a frame** is taken for the start of its preamble, and the real start is dropped with
  it: the frame is lost (`BacnetFrame.StrayPreambleLosesFrame`). Other noise is dropped and the frame behind it is
  found (`BacnetFrame.NoiseSkipped`).
- **The call after that** moves the rest of the buffer to its front. Exactly if the frame before it had no data
  and was accepted on five octets, there are six octets of five to skip, and the count of what is left is -1
  (`BacnetFrame.NextCallCanStart`). It happens when such a frame comes twice and five octets of the second are
  read with the first (`BacnetFrame.SameFrameTwice`).
- **The transmit array of a frame** has 9 + 2n octets for n octets of data. A frame needs up to 11 + 2n; the
  array suffices exactly if there is no data or at most n + 1 octets are escaped (`BacnetFrame.EncodedFrame`).
  A frame with 16 octets of data attains the bound (`BacnetFrame.FrameOverflows`).
- **The stop-and-wait transmitter** keeps the sequence bit when it gives up. Whatever is on the link then and
  whatever happens next, short of another give-up, the PDUs sent from there on are served in order and without
  loss exactly if the abandoned one has not arrived, no copy of it and no request to repeat it is still on its
  way, and its sender has got as far as transmitting it (`BacnetLink.GiveUpIsHarmless`). Otherwise a later PDU
  can be acknowledged and never passed up (`BacnetLink.GiveUpLosesNextPdu` from start-up), or an empty one is.
- **A sender that has filled the buffer and not yet transmitted** can be overtaken: its PDU is repeated by the
  timer, or a frame or reply with its bit is still on the link, and it is acknowledged. That can happen exactly
  in those cases (`BacnetLink.OvertakenExactly`), happens from start-up on (`BacnetLink.OvertakenFromStart`),
  and whenever it does the peer can be made to pass up an empty PDU that nobody has sent
  (`BacnetLink.OvertakingIsHarmful`).
- **A halt** looks at the window only. After an enable behind the window a breakpoint there can stay in force:
  the slots are all emptied exactly if no record behind the window is active (`Breakpoints.HaltEmptiesExactly`),
  and five calls lead to one that is (`Breakpoints.HaltLeavesSlot`).
- **The XMODEM receiver** sends the octet it sent last once more when nothing comes within its time limit. After a
  block that is ACK, which a sender takes for the block that was lost. Over any line that forges no packet the
  sender so goes past a block that is never returned exactly if it hears two ACKs without a complete packet
  between them at the receiver (`XmodemLink.SkipsExactly`); nothing is returned after that. Damage never leads to
  it (`XmodemLink.DamageNeverSkips`), one lost packet does: if it is the last, the transfer ends well without it
  (`XmodemLink.LastBlockLost`).
- **A sleep or a timed wait of more than 2^31 ms** ends with the first tick, as one of 0 does, because the time left
  is taken for a signed number; every other lasts exactly as long as it says (`WaitQueue.WakesOnTime`).
- **`vec_cmp`** tells equal from different, but where vectors differ it returns the number of the octet plus the
  number of the bit in it plus one, which is the position of the bit exactly if that is in the first octet
  (`BitVec.VecCmp`); differences at bit 1 and at bit 8 give the same result (`BitVec.SamePosition`).
- **Deleting a breakpoint** arms the record that moves up into the window without a look at whether it is armed
  already. Exactly then the slot that this record had remains loaded with nobody to hold it
  (`Breakpoints.OpKeepsLinked`), and no later call gets it back (`Breakpoints.LostForever`), so that active
  records and loaded slots are in step after a run exactly if no call of it did that
  (`Breakpoints.SlotsAccountedForExactly`). It takes an enable behind the window before; five calls on a target
  with two slots are enough (`Breakpoints.DeleteLosesSlot`). That `ice_bp_set` is not tested there does no harm:
  the slot of the deleted record is always free for the next (`Breakpoints.PromotedIsArmed`).
- **Erasing** works on whole pages: bytes outside the loader's range are safe exactly if the range begins and ends
  at pages (`Loader.ErasesRangeExactly`); no write goes outside the range.

## Model

| member | source | states |
|---|---|---|
| `Breakpoints.SlotsAndPoolStayStraight` | src/yard-ice/debugger.c:1488-1712 | Over every run of set, clear, delete, enable, disable, all-enable, all-disable, run and halt from the start, with any choice of slots by the target: pool and free list share out the 16 records, and no two listed records are the same breakpoint. If, besides, no enable of the run concerns an idle record behind the window while a slot is vacant: active records lie in the first bp_max places, their slots are distinct, loaded with their address and size, and are exactly the occupied ones. |
| `Breakpoints.OpKeepsInv` | src/yard-ice/debugger.c:1488-1712 | Each single call keeps the pool shared out, whatever the slots are like, and keeps straight slots straight if and only if it does not enable a record behind the window while a slot is vacant. |
| `Breakpoints.OpKeepsPool` | src/yard-ice/debugger.c:1488-1712 | The first half in every state and with any behaviour of the target: listed and free records share out the 16, no two listed records have the same address and size. |
| `Breakpoints.SetKeepsSlotInv` | src/yard-ice/debugger.c:1488-1534 | Setting a breakpoint always finds a slot: the record at the head is the one asked for, enabled and armed. |
| `Breakpoints.SetEffect` | src/yard-ice/debugger.c:1488-1534 | In every state, setting yields the old order with the chosen or new record moved to the front and enabled. If it was active no other record is switched; otherwise it is armed if and only if there is a vacant slot once the record pushed out of the window has given up its own, and of the others only that one is disarmed. |
| `Breakpoints.DeleteEffect` | src/yard-ice/debugger.c:140-197 | In every state, deleting closes the gap, returns the record to the head of the free list, and arms the record that moves up into the window exactly if the deleted one was armed and it is enabled. |
| `Breakpoints.EnableEffect` | src/yard-ice/debugger.c:1568-1608 | In every state, enabling a listed record changes no place, no free record and no other mark of enabling. If it was active nothing else changes; otherwise it is armed if and only if a slot is vacant once the first record behind the window has given up its own, and of the others only that one is disarmed. |
| `Breakpoints.DisableEffect` | src/yard-ice/debugger.c:1610-1650 | In every state, disabling a listed record leaves it neither enabled nor armed and its slot vacant, and changes no other record, no other slot, no place and no free record. |
| `Breakpoints.StaysOff` | src/yard-ice/debugger.c:140-357 | A breakpoint that has been disabled or cleared is neither enabled nor armed after any further calls but those that set it, enable it or enable all, and no slot is loaded with it while active records and loaded slots are in step. |
| `Breakpoints.IdlePlaceMeansVacancy` | src/yard-ice/debugger.c:256-291 | If some place of the window is idle, a slot is vacant: `ice_bp_set` never lacks one there. |
| `Breakpoints.EnableFromSpec` | src/yard-ice/debugger.c:199-229 | With the slots straight, enabling all is refused nothing, enables every record and arms exactly those in the window. |
| `Breakpoints.EnablesAllMeans` | src/yard-ice/debugger.c:199-229 | In every state, enabling all reports success if and only if every record has been enabled and every one of the window armed. |
| `Breakpoints.RunsAllMeans` | src/yard-ice/debugger.c:309-332 | In every state, letting the target run reports success if and only if every enabled record of the window is armed then. |
| `Breakpoints.DisableFromSpec` | src/yard-ice/debugger.c:231-254 | In every state, disabling all leaves nothing enabled and nothing armed. |
| `Breakpoints.RunThenHalt` | src/yard-ice/debugger.c:309-357 | After any run from the start whose enables leave the slots straight, letting the target run arms exactly the enabled records of the window, and the halt, which looks at the window only, leaves every slot vacant. |
| `Breakpoints.HaltEmptiesExactly` | src/yard-ice/debugger.c:334-357 | Where active records and loaded slots are in step, the halt leaves every slot vacant if and only if no record behind the window is active. |
| `Breakpoints.HaltLeavesSlot` | src/yard-ice/debugger.c:334-357 | A run from the start on two slots, of three sets, a disable and an enable, after which a halt leaves a slot loaded. |
| `Breakpoints.EnableBehindWindowStarvesSet` | src/yard-ice/debugger.c:1596-1601 | With every slot taken: disable the last record of the window, enable one behind it, set a new breakpoint. The call reports success and the breakpoint is not armed. |
| `Breakpoints.TwoBreakpointsOneSlot` | src/yard-ice/debugger.c:1488-1534 | Two calls from start-up on a target with one slot lead to a state in which that happens. |
| `Breakpoints.PromotedIsArmed` | src/yard-ice/debugger.c:170-189 | After any run from the start, whatever has been enabled: once the slot of an active record that is deleted is cleared, a slot is vacant, so that the record promoted in its place is never refused. |
| `Breakpoints.DeleteKeepsLinked` | src/yard-ice/debugger.c:140-197 | Deleting keeps active records and loaded slots in step if and only if the record it promotes is not active already; if it is, the slot it had is the one that is lost. |
| `Breakpoints.OpKeepsLinked` | src/yard-ice/debugger.c:1488-1712 | Every call, an enable behind the window included, keeps active records and loaded slots in step if and only if it does not delete a record and so promote one that is active already. |
| `Breakpoints.SlotsAccountedForExactly` | src/yard-ice/debugger.c:1488-1712 | After any run they are in step if and only if no call of the run did that. |
| `Breakpoints.StraightRunLosesNothing` | src/yard-ice/debugger.c:1488-1712 | The condition on enables is enough for that. |
| `Breakpoints.LostForever` | src/yard-ice/debugger.c:140-357 | Where active records have slot numbers of the target, as in every run from the start: a loaded slot that no active record holds stays loaded and is held by none, over any further run. |
| `Breakpoints.DeleteLosesSlot` | src/yard-ice/debugger.c:170-189 | A run from the start on two slots, of three sets, a disable, an enable and a clear, after which a slot is lost whatever is called. |
| `BreakpointPool.BreakpointControl.SetBreakpoint` | src/yard-ice/debugger.c:1488-1534 | Lookup, allocation, shift of the list and activation, on the arrays, do to the state what the operation on values does, and return 0 whatever the activation says. |
| `BreakpointPool.BreakpointControl.ShiftTo` | src/yard-ice/debugger.c:120-138 | The in-place shift puts the record first and every earlier entry one place back, and touches nothing else. |
| `BreakpointPool.BreakpointControl.Delete` | src/yard-ice/debugger.c:140-197 | The search, the shift, the slot, the promotion and the free list, in place, do what the operation on values does; the promoted record is marked active whether the target has taken it or not. |
| `BreakpointPool.BreakpointControl.Enable` | src/yard-ice/debugger.c:1568-1608 | The record is found and enabled where it is; the result says whether it is armed, and -1 stands for a breakpoint that is not listed. |
| `BreakpointPool.BreakpointControl.EnableAll` | src/yard-ice/debugger.c:199-229 | The two loops do what the operation on values does, up to the record that the target refuses, which stays as it was, with what lies behind it; the result is 0 if and only if there is none. |
| `BreakpointPool.BreakpointControl.ActivateAll` | src/yard-ice/debugger.c:309-332 | The loop does what the operation on values does, up to the record that the target refuses, which stays as it was; the result is 0 if and only if there is none. |
| `BreakpointPool.BreakpointControl.DeactivateAll` | src/yard-ice/debugger.c:334-357 | The loop over the window does what the operation on values does. |
| `BreakpointPool.BreakpointControl.constructor` | src/yard-ice/debugger.c:74-93 | The pool is one chain of free records from the first to the last, and the list is empty. |
| `Poll.PollExclusion` | src/yard-ice/debugger.c:464-571 | In every interleaving, from the return of `poll_stop` to the next call of `poll_start`, the poll thread is neither in `ice_poll` nor in its sleep and has no way back there. |
| `Poll.QuietFromStopToStart` | src/yard-ice/debugger.c:547-571 | That period begins with the return of `poll_stop` and nothing else, and ends with a call of `poll_start` and nothing else. |
| `Poll.OnlyPollerWritesEnabled` | src/yard-ice/debugger.c:464-511 | Only the poll thread writes `poll_enabled`, and only while it holds `poll_mutex`. |
| `Poll.HaltEndsPolling` | src/yard-ice/debugger.c:464-511 | After a poll that reports a halt or a fault there is no other, in any interleaving, until the poll thread starts again, which it does only for a `poll_start` that has asked and not yet returned. |
| `Poll.PollingEndsOnlyFor` | src/yard-ice/debugger.c:492-508 | Polling goes off for a halt, a fault or a stop request, and for nothing else. |
| `Poll.HelperCanStep` | src/yard-ice/debugger.c:464-571 | In every reachable state with a call under way, the thread that the call waits for can move: no wake-up is lost. |
| `Poll.StepProgress` | src/yard-ice/debugger.c:464-571 | No step moves a call away from its end, and each step of the thread it waits for moves it closer. |
| `Poll.CallsReturn` | src/yard-ice/debugger.c:513-571 | In every fair infinite run each call of `poll_start` and `poll_stop` returns. |
| `BacnetFrame.StreamRoundTrip` | src/sdk/libbacnet/bacnet_ptp.c:392-669 | Frames of any types and sizes that fit, sent one after the other and read in portions of any sizes, come back in order with their type, length and PDU, if and only if no call looks at a header with exactly five octets in the buffer, unless the stale sixth octet equals the check and the frame has data or is the last. |
| `BacnetFrame.RecvReturnsFrame` | src/sdk/libbacnet/bacnet_ptp.c:392-545 | For every frame and whatever is behind it: the call returns it, with nothing dropped before it, if and only if the header is not looked at with five octets or the stale sixth octet equals the check; it also leaves exactly the octets behind it for the next call if and only if, in the second case, the frame has data. |
| `BacnetFrame.HeaderAccepted` | src/sdk/libbacnet/bacnet_ptp.c:416-468 | The header of a frame is accepted if and only if six octets are there or the buffer holds the check octet in sixth place already. |
| `BacnetFrame.NoiseSkipped` | src/sdk/libbacnet/bacnet_ptp.c:392-468 | Octets in which the search finds no preamble are dropped, and nothing behind them: the call goes on as one that starts there. |
| `BacnetFrame.StrayPreambleLosesFrame` | src/sdk/libbacnet/bacnet_ptp.c:451-461 | A frame with an octet 0x55 just before it is never returned as it stands, however it is read. |
| `BacnetFrame.CheckDecides` | src/sdk/libbacnet/bacnet_ptp.c:478-545 | Once the header of a frame with data is accepted, the frame is returned if the check behind its PDU is that of the PDU, and refused with -1 if it is not, however it is read and whatever follows. |
| `BacnetFrame.DamagedPduRefused` | src/sdk/libbacnet/bacnet_ptp.c:478-545 | So a frame whose PDU has been changed within two consecutive octets is always refused with -1, unless its header is missed. |
| `BacnetFrame.DamagedHeaderRefused` | src/sdk/libbacnet/bacnet_ptp.c:416-468 | A header with one octet changed is never accepted when six octets are there; the search goes on behind the type. |
| `BacnetFrame.ReturnedIsIntact` | src/sdk/libbacnet/bacnet_ptp.c:392-545 | Whatever was on the wire, a frame that is returned stands in the buffer octet for octet, with its data check, as an unbroken part of what was received, and with its header check, too, unless the header was taken on five octets. |
| `BacnetFrame.ShortFrameReturned` | src/sdk/libbacnet/bacnet_ptp.c:392-545 | A frame without data and with nothing behind it is returned if and only if the header is not looked at with five octets, or the stale sixth octet equals the check. |
| `BacnetFrame.OctetReadsMissFrame` | src/sdk/libbacnet/bacnet_ptp.c:416-464 | With reads of one octet each any frame, whatever is behind it, is returned if and only if the octet left in sixth place before equals its check. |
| `BacnetFrame.EncodedFrame` | src/sdk/libbacnet/bacnet_ptp.c:611-669 | The stream of a frame has no XON or XOFF octet and at most 11 + 2n octets for n octets of data, 7 without; it fits the 9 + 2n of the array if and only if there is no data or at most n + 1 octets are escaped. |
| `BacnetFrame.FrameOverflows` | src/sdk/libbacnet/bacnet_ptp.c:611-616 | For every frame type: 16 octets of data whose frame has 43 octets, which attains the bound and is two more than the array has. |
| `BacnetFrame.NextCallCanStart` | src/sdk/libbacnet/bacnet_ptp.c:406-411 | After a frame is returned its offset lies inside what is buffered, so that the next call can move the rest, if and only if the frame has data or was not accepted with five octets. |
| `BacnetFrame.SameFrameTwice` | src/sdk/libbacnet/bacnet_ptp.c:392-468 | For every frame type, sent twice without data: if the first read ends after five octets of the second, both are returned and the next call finds an offset of six and a count of five. |
| `BacnetFrame.DestuffStuff` | src/sdk/libbacnet/bacnet_ptp.c:631-669 | Removing the escapes gives the octets back and leaves no escape open. |
| `BacnetPtp.FrameSend` | src/sdk/libbacnet/bacnet_ptp.c:611-669 | Header, data and checks, escaped octet by octet into an array of the proved size, are the encoding of the frame. |
| `BacnetPtp.PtpReceiver.DestuffInPlace` | src/sdk/libbacnet/bacnet_ptp.c:429-447 | The escapes of the octets just read are taken out in place, and nothing else in the buffer changes. |
| `BacnetPtp.PtpReceiver.FrameRecv` | src/sdk/libbacnet/bacnet_ptp.c:392-545 | The receiver on its buffer, with the search for a header, the data, the check and every reset, does what the receiver on values does, provided that it finds its offset inside what is buffered, which the result tells; afterwards the offset lies there if and only if the call has not just accepted a frame without data with five octets. |
| `BacnetLink.ExactlyOnceInOrder` | src/sdk/libbacnet/bacnet_ptp.c:1070-1111 | Up to the first give-up and the first overtaken sender, over any loss of frames and replies: what the peer has passed up is what was accepted, in order and each PDU once, at most one PDU short; when the token is back nothing is missing. |
| `BacnetLink.RetransmissionsAgree` | src/sdk/libbacnet/bacnet_ptp.c:903-960 | Up to the first give-up and the first overtaken sender: every transmission, first or repeated, on timeout or on request, is the n-th accepted PDU under the n-th sequence bit, n the number of PDUs acknowledged before. |
| `BacnetLink.StepKeepsInv` | src/sdk/libbacnet/bacnet_ptp.c:848-963 | Every step of sender, link task, channels and peer that neither gives up nor overtakes a sender keeps the invariant of slot, sequence bit, channels and peer. |
| `BacnetLink.AllAttemptsMade` | src/sdk/libbacnet/bacnet_ptp.c:940-1108 | Each PDU that is taken is given all its attempts, whatever the one before it has used up: over any run without its acknowledgement it is in the slot until the timer has run out three times, and given up with the third. |
| `BacnetLink.SlotStep` | src/sdk/libbacnet/bacnet_ptp.c:940-1108 | What goes out while a PDU is in the slot: one copy from its sender and one from each of the first two timers, if the reception of the peer is on, and none if it is off. |
| `BacnetLink.GiveUpIsHarmless` | src/sdk/libbacnet/bacnet_ptp.c:940-961 | At a give-up in any state of the invariant, with any contents of the channels: on every schedule up to the next give-up or overtaken sender the PDUs accepted afterwards are passed up in order and none is missing when the token is back, if and only if the sender has transmitted, the abandoned PDU has not arrived, and no frame and no heeded reply with its bit is on the link. |
| `BacnetLink.AfterGiveUp` | src/sdk/libbacnet/bacnet_ptp.c:957-961 | The shortest such schedule, with nothing on the link: after giving up, the PDU sent next is acknowledged, and passed up if and only if the abandoned one had not arrived. |
| `BacnetLink.GiveUpLosesNextPdu` | src/sdk/libbacnet/bacnet_ptp.c:940-961 | A run from the start in which the second PDU is accepted and acknowledged and never passed up. |
| `BacnetLink.OvertakenExactly` | src/sdk/libbacnet/bacnet_ptp.c:1091-1108 | A sender that has filled the buffer and not transmitted can have its PDU acknowledged before it does, short of a give-up, if and only if a frame or a heeded reply with its bit is on the link, or the PDU is not empty and the timer has attempts left. |
| `BacnetLink.OvertakingIsHarmful` | src/sdk/libbacnet/bacnet_ptp.c:884-898 | Whatever is on the link when such an acknowledgement comes, there is a schedule on which the peer passes up an empty PDU that was never accepted. |
| `BacnetLink.OvertakenFromStart` | src/sdk/libbacnet/bacnet_ptp.c:1091-1108 | A run from the start in which one PDU is accepted and the peer passes up that one and an empty one. |
| `BacnetLink.OvertakenSenderSendsEmptyPdu` | src/sdk/libbacnet/bacnet_ptp.c:1091-1108 | The shortest such schedule, with nothing on the link: timer, peer, acknowledgement, transmission. |
| `BacnetLink.Transmitter.Receive` | src/sdk/libbacnet/bacnet_ptp.c:848-913 | The transmitter's fields change on an arriving frame as the function on values says: only the matching acknowledgement with XON advances the sequence number, frees the slot and returns the token. |
| `BacnetLink.Transmitter.TimeOut` | src/sdk/libbacnet/bacnet_ptp.c:940-961 | Retransmission or give-up on the fields: a frame goes out exactly if attempts are left and reception is on; giving up frees the slot, returns the token and keeps the sequence number. |
| `Crc.ShiftXorIsSerial` | src/sdk/include/crc.h:29-36 | The shift-xor step is eight clocks of the CCITT register with the octet taken in, for every register and octet. |
| `Crc.Crc16Ccitt` | src/uart-xflash/crc16ccitt.c:27-45 | The loop over a message is the bit-serial check of the message, for every length; from zero it is the check that the XMODEM receiver compares. |
| `Crc.LookUpIsSerial` | src/sdk/libbacnet/bacnet_ptp.c:165-174 | One look-up in the 256-entry table is eight clocks of the reflected register. |
| `Crc.BacnetCrc8` | src/sdk/libbacnet/bacnet_ptp.c:79-128 | The table loop of the header check is the bit-serial check of its polynomial; from all ones, and complemented, it is the check of a header. |
| `Crc.BacnetCrc16` | src/sdk/libbacnet/bacnet_ptp.c:130-174 | The table loop of the data check is the bit-serial check of its polynomial; from all ones, and complemented, it is the check of a PDU. |
| `Crc.XmodemCrcDetectsBurst` | src/sdk/include/crc.h:29-36 | Two messages of the same length that differ, and only within two consecutive octets, never have the same XMODEM check. |
| `Crc.DataCrcDetectsBurst` | src/sdk/libbacnet/bacnet_ptp.c:130-174 | The same for the BACnet data check. |
| `Crc.HeaderCrcDetectsOctet` | src/sdk/libbacnet/bacnet_ptp.c:79-128 | Two headers that differ in one octet never have the same check. |
| `Crc.XmodemCheckValue` | src/uart-xflash/crc16ccitt.c:27-45 | The published check value of the digits 1 to 9 for XMODEM. |
| `Crc.HeaderCheckValue` | src/sdk/libbacnet/bacnet_ptp.c:79-128 | The example of Annex G for the header check. |
| `Crc.DataCheckValue` | src/sdk/libbacnet/bacnet_ptp.c:130-174 | The example of Annex G for the data check. |
| `Xmodem.BlockComesFromPacket` | src/uart-xflash/xflash.c:97-217 | A block is returned only on account of an intact packet under the expected number, which is the last thing read; then the next number is expected, with ten retries and ACK. |
| `Xmodem.BlocksAreNumbered` | src/uart-xflash/xflash.c:206-217 | The n-th block returned carries number n mod 256, with matching complement and check. |
| `Xmodem.BlocksInOrder` | src/uart-xflash/xflash.c:161-217 | If every intact packet heard is within 127 blocks of the one expected, the blocks returned are the sender's, in order, without gap or repeat. |
| `Xmodem.GivesUpExactly` | src/uart-xflash/xflash.c:83-240 | Every call ends; it gives up if and only if the failed attempts use up the retries: the 15th before the first block, the 10th since the last one. |
| `Xmodem.CleanTransfer` | src/uart-xflash/xflash.c:97-217 | An undisturbed transfer of any blocks of 128 or 1024 octets returns them all. |
| `Xmodem.PacketAnswered` | src/uart-xflash/xflash.c:97-240 | On the line: a complete packet, behind any octets that start nothing, is returned if it is intact and the expected one, answered with ACK if it is an intact copy of the one before, and with NAK otherwise; NAK goes out behind the next pause, takes one retry, and with the last retry it is three cancels. |
| `Xmodem.DamageAnswered` | src/uart-xflash/xflash.c:153-224 | A packet whose data has been changed within two consecutive octets is answered with NAK, always. |
| `Xmodem.PauseAnswered` | src/uart-xflash/xflash.c:97-240 | A pause before or within a packet takes one retry, and the octet sent last is sent again. |
| `Xmodem.EndAnswered` | src/uart-xflash/xflash.c:121-128 | The end of the transmission is answered with two ACKs, and the call returns 0. |
| `Xmodem.AckNeedsPacket` | src/uart-xflash/xflash.c:97-240 | A call that did not begin with ACK sends none, but for the two at the end, unless an intact copy of the block before the expected one has been on the line. |
| `Xmodem.FirstCallAsks` | src/uart-xflash/xflash.c:73-86 | With nobody there, the first call asks fifteen times and cancels. |
| `XmodemLink.ReturnsFirstBlocks` | src/uart-xflash/xflash.c:97-240 | Against a sender that repeats its block on NAK, on the first request and on silence, and goes on after ACK: whatever packets and answers the line damages, loses or cuts short, the blocks returned are the first of the sender, in order, without gap or repeat. |
| `XmodemLink.SkipsExactly` | src/uart-xflash/xflash.c:97-240 | The sender goes past a block that is never returned if and only if it hears two ACKs without the receiver hearing a complete packet between them. |
| `XmodemLink.DamageNeverSkips` | src/uart-xflash/xflash.c:161-224 | If every attempt hears a complete packet, however damaged, or the end, no block is skipped, whichever answers are lost. |
| `XmodemLink.EndsWell` | src/uart-xflash/xflash.c:97-240 | A transfer that ends with the end that the sender sent has returned every block if and only if none was skipped so. |
| `XmodemLink.LastBlockLost` | src/uart-xflash/xflash.c:224-229 | For any two blocks or more: a line on which only the last packet is lost, and no answer, ends the transfer with success and without the last block. |
| `XmodemReceiver.Receiver.RcvPkt` | src/uart-xflash/xflash.c:97-240 | The octet-fed receiver: result, block, state, octets sent and line left are those of the function, for any sizes of the reads of a packet; what that function answers is in the rows of Xmodem and XmodemLink. |
| `XmodemReceiver.Receiver.UsbRcvPkt` | src/usb-xflash/xflash.c:112-279 | The chunk-fed receiver: the same results, blocks, answers and line left, for any splitting into reads of at most 128 octets, but that at the end of the transmission at most 127 octets, read together with it and without a silence between them, are dropped. |
| `XmodemReceiver.Receiver.ScanChunks` | src/usb-xflash/xflash.c:136-188 | What the chunk-fed search leaves in its chunk, at most 127 octets, and on the line is what lies behind the start octet. |
| `Loader.Flash.Write` | src/uart-xflash/stm32l-flash.c:135-196 | Half pages read, patched and programmed back leave the data in place and every other byte as it was, for every offset and length. |
| `Loader.Flash.Erase` | src/uart-xflash/stm32l-flash.c:56-86 | Exactly the pages that the range touches are blanked, and their size is returned. |
| `Loader.ErasesRangeExactly` | src/uart-xflash/stm32l-flash.c:56-86 | No octet outside the range changes, whatever the flash holds, if and only if the range begins and ends at pages. |
| `Loader.Uploader.Round` | src/uart-xflash/xflash.c:254-291 | One pass leaves the flash erased, but for exactly the first min(total, size) octets of the concatenated blocks, at the place for them; it returns what its last call returns, and leaves the line where that call leaves it. |
| `Loader.Uploader.Xflash` | src/uart-xflash/xflash.c:242-300 | The loader leaves its loop behind the first pass that ends with the end of the transmission and has received something: the flash holds exactly what that pass has received, as far as it fits, nothing outside the erased pages has changed, and the line is where that pass leaves it. |
| `Loader.LastPassExactly` | src/uart-xflash/xflash.c:250-297 | That pass is the k-th for some k: it starts on an end piece of the line, no pass before it has ended without an error and received something, and it has, unless the line has run dry. |
| `MemAccess.Target.MemRead` | src/yard-ice/ice_drv.c:35-101 | For every address and length: aligned accesses of 1, 2 and 4 bytes that tile the range once and in order, the length returned, and the bytes that byte-by-byte reading gives. |
| `MemAccess.Target.MemWrite` | src/yard-ice/ice_drv.c:103-164 | The same for writing: memory afterwards is as after writing byte by byte. |
| `MemAccess.Target.MemErase` | src/yard-ice/ice_drv.c:166-212 | The same for clearing: zeros in the range, everything else as it was. |
| `MemAccess.WriteThenRead` | src/yard-ice/ice_drv.c:35-164 | What has been written is read back, also across the end of the address space. |
| `MemMap.Target.MemRead` | src/yard-ice/ice_drv.c:220-315 | Over a sorted, disjoint, non-wrapping table: exactly the longest mapped prefix of the range is transferred, as a flat memory holds it, and every driver call it makes stays inside one block. |
| `MemMap.Target.MemWrite` | src/yard-ice/ice_drv.c:317-407 | Exactly the longest mapped and writable prefix is written; -1 if and only if it ends at a read-only region; every driver call it makes stays inside one block that is not. |
| `MemMap.Target.MemErase` | src/yard-ice/ice_drv.c:409-522 | Bytes advanced and bytes remaining add up to the length whatever drivers return, also if they erase more than asked; every call starts where the calls before it have got to; with exact drivers the calls so tile the longest writable prefix, block by block, or -1 is returned as for a write. |
| `MemMap.TiledCovers` | src/yard-ice/ice_drv.c:459-515 | Exact calls that tile cover each address up to where they get to once, and no other. |
| `MemMap.ReachIsLongest` | src/yard-ice/ice_drv.c:220-315 | The prefix that these contracts speak of: all of it is mapped, and the address behind it is not. |
| `UartRing.SentInOrder` | src/u2s-485/serial.c:119-155 | For every interleaving of writer and interrupts, with indices that wrap at 2^32: head - tail stays within 0..64, what is sent is a prefix of what was written, in order, a writer that waits for the flag has the transmit interrupt enabled, and a call that has returned has put all its octets in the ring. |
| `UartRing.BlockedWriterRunsAgain` | src/u2s-485/serial.c:270-291 | Such a writer runs again after as many transmit interrupts as there are octets in the ring, plus one, and all of them are sent by then. |
| `UartRing.AllIsSent` | src/u2s-485/serial.c:119-291 | After a call only a bounded number of steps of writer and interrupt are possible before the next, in whatever order; when there is none left, the writer has returned and every octet that was given to it has been sent. |
| `UartRing.WriterTakesAllItCan` | src/u2s-485/serial.c:134-142 | Each turn of the writer uses as many places as it has octets left or as are free, whichever is less. |
| `UartRing.ReadInOrder` | src/u2s-485/serial.c:72-117 | The same for reception: what `serial_read` returns is a prefix of what the handler accepted, in order; each call that returns octets returns exactly as many as it was asked for or as waited when it looked, whichever is less; no reader sleeps while more than 33 octets wait. |
| `UartRing.HandlerKeepsWhatFits` | src/u2s-485/serial.c:247-276 | The receive interrupt drops an octet if and only if 64 wait, and tells the reader if and only if more than 32 waited. |
| `UartRing.CallReturns` | src/u2s-485/serial.c:72-117 | Every call of `serial_read` returns within a number of steps that is bounded but for the interrupts that come meanwhile, and until it has returned one more is possible. |
| `UartRing.RxneKeepsRxInv` | src/u2s-485/serial.c:247-276 | The receive interrupt stores an octet or drops it when the ring is full, and gives the flag above the water mark, and keeps the invariant wherever the reader is. |
| `BitVec.VecLshift` | src/sdk/libbitvec/vec_lshift.c:28-45 | As one number, the vector times 2^bits modulo 2^(32n), also in place. |
| `BitVec.VecRshift` | src/sdk/libbitvec/vec_rshift.c:28-46 | As one number, the vector divided by 2^bits, in words of 32 bits, also in place. |
| `BitVec.VecCat` | src/sdk/libbitvec/vec_cat.c:29-58 | Bit by bit and as numbers: the low bits of the destination stay, the bits of the source follow them, and no octet behind those written changes. |
| `BitVec.CatBits` | src/sdk/libbitvec/vec_cat.c:29-58 | A number put together in that way has the bits of its two parts, one after the other. |
| `BitVec.BitOfNumber` | src/sdk/libbitvec/vec_cat.c:29-58 | The bits of the number of a vector are the bits of its octets. |
| `BitVec.VecCmp` | src/sdk/libbitvec/vec_cmp.c:29-54 | 0 if and only if the first len bits agree; otherwise the octet of the first difference plus the bit in it plus one, which is the position of the bit, counted from one, if and only if that is in the first octet. |
| `BitVec.SamePosition` | src/sdk/libbitvec/vec_cmp.c:29-54 | Two pairs of vectors, different at bit 8 and at bit 1, for which the result is the same. |
| `WaitQueue.RunKeepsInv` | src/sdk/include/thinkos_sys.h:618-711 | Over any run of waits, timed waits, sleeps, wakes, flag and semaphore calls and ticks: each thread is in the ready queue, in exactly one object queue, or in the clock queue only, as its status names it; the clock runs only for threads that wait or sleep, and their status says so; nobody waits on a set flag. |
| `WaitQueue.WaitOnSetFlag` | src/sdk/include/thinkos_sys.h:660-667 | Queueing a ready thread keeps all this if and only if the object is not a set flag; if it is, giving the flag again changes nothing and leaves the thread asleep, and otherwise it wakes the lowest waiter. |
| `WaitQueue.RunFromStartUp` | src/sdk/include/thinkos_sys.h:618-711 | From start-up, with all threads ready and no clock running, all this holds over any run. |
| `WaitQueue.WakesOnTime` | src/sdk/libthinkos/thinkos_core.c:173-215 | After a sleep or a timed wait of ms ticks, over any run in which no call makes the thread ready: it is not ready after fewer ticks than ms and is ready after exactly ms, also where the tick counter wraps; with 0, or more than 2^31, it is ready after the first. |
| `WaitQueue.SleepsOnTime` | src/sdk/libthinkos/thinkos_sleep.c:28-47 | A sleeping thread wakes so in every run: no call makes it ready. |
| `WaitQueue.WokenByCall` | src/sdk/include/thinkos_sys.h:695-711 | A thread that waits for an object is made ready, short of the clock, if and only if its flag is set, or a give, a post or a wake of its queue finds no lower number there. |
| `WaitQueue.NothingLost` | src/sdk/include/thinkos_irq.h:89-136 | A post that wakes nobody is counted and a flag that is given to nobody is set; nothing else changes a count or sets a flag, and only a take or a clear clears one. |
| `WaitQueue.Runtime.Wakeup` | src/sdk/include/thinkos_sys.h:695-711 | Waking one thread from its queue makes it ready and changes no other thread and no other queue. |
| `WaitQueue.Runtime.GoToSleep` | src/sdk/libthinkos/thinkos_sleep.c:28-47 | A ready thread goes to the clock queue, with its time and status set, and the invariant is kept. |
| `WaitQueue.Runtime.Set` | src/sdk/include/thinkos_irq.h:117-136 | The loop ends with the queue of the flag empty and every waiter ready, and with the flag set. |
| `WaitQueue.Runtime.Give` | src/sdk/include/thinkos_irq.h:89-109 | Giving a flag wakes the first waiter and leaves the flag clear, or else sets it. |
| `WaitQueue.Runtime.SysTick` | src/sdk/libthinkos/thinkos_core.c:173-215 | The loop over the clock bitmap makes exactly those threads ready whose time is over, out of whatever queue they wait in, or out of the clock queue alone; when that is, WakesOnTime says. |

## Left out

- Registers: USART, USB, flash controller, systick and JTAG are abstract steps; erasing and programming succeed.
- The debugger's connection state (`ERR_STATE` returns), the default size that stands in for a size of zero, watchpoints, `target_connect`, `target_release`, the `halt_cond` wait.
- The union that lays the free link over the record's fields: a free record keeps its last contents in the model, which nothing reads before it is set again.
- `Breakpoints.Set`: needs room for a new breakpoint, because `dbg_bp_new` follows a null pointer when all 16 records are listed.
- `BreakpointPool.BreakpointControl.Delete`: takes a listed record; the original aborts on any other. The record joins the free list before its slot is cleared instead of after, with nobody to see the difference.
- `ice_bp_set` succeeds exactly when a slot is vacant and may choose any; invalid sizes and a link that is being polled are not modelled there.
- `poll_stop`, `poll_start` and the poll thread: `ice_signal` and the console octets polled on the way have no effect in the model; mutexes hand over to the thread that waits.
- BACnet connection set-up and tear-down, the OUTBOUND state, `bacnet_ptp_recv`, heartbeats and idle timers, recovery after arbitrary line noise; that a copy of the buffer to its own front behaves as `memmove` is taken for granted.
- `BacnetPtp.PtpReceiver.FrameRecv`: reports that it cannot start when its offset lies behind what is buffered; what `memcpy` does with a count of -1 then is not part of the model.
- The peer of `BacnetLink` is a standard alternating-bit receiver, because the code's own receiver does not look at sequence bits. Several senders at once, and PDUs longer than the buffer, are left out.
- `XmodemLink`: the sender is not part of the repository; it is the plain one of the protocol, and it never gives up.
- XMODEM: one kind of silence stands for all three time limits; the checksum mode, which is compiled out; failing sends.
- `Loader.Uploader.Xflash`: reports a line that has run dry, where the original goes on asking for ever; the USB loader's loop is the same and not repeated. Half pages are octets rather than words in memory order.
- `MemAccess.Target.MemRead`: the count returned is not cut to 31 bits. The fallbacks for wide accesses that use one address twice are not the meaning of an access here.
- `MemMap`: a region does not run over the end of the address space (one of the whole space has a 32-bit size of zero, and is skipped as in the code); the address does not wrap to 0 behind a region that ends the address space, where no later region could hold it anyway; lookup by name.
- `UartRing`: `serial_drain`, line errors, the RS-485 direction switch and transmission-complete interrupts; the flag calls are single steps, though the kernel clears a taken flag just after it allows interrupts again.
- `WaitQueue`: time sharing, the idle thread, flag locks, allocation of objects, the values that woken threads get, contexts and the switch between them.
- The other files of `libbitvec` fill, print or compare with constants.
