# Verified models of the Nokia SONiC platform code

Dafny models of the stateful parts of the chassis and 7220 D4 platform drivers,
with proofs about every run, every input or every interleaving of each part.

| file | what it models |
|---|---|
| `MdIpc.dfy` | the shared-memory channels between transceiver drivers and the NDK process: allocation, request and answer, freeing |
| `MdIpcTimeouts.dfy` | what a timeout leads to on them: an answer taken by somebody else, a channel stranded |
| `MdIpcAnswers.dfy` | whose answer a thread takes on them, after any number of timeouts |
| `MdIpcCalls.dfy` | what single calls do on them: the search, the message number, the wait, the outcome counted |
| `ChassisSfp.dfy` | the transceiver object: the page cache, reading, writing, flushing |
| `EplChain.dfy` | the buffer that combines writes to a module's extended-payload pages into one chained message |
| `ChassisEvents.dfy` | the chassis presence poller, which makes a swapped port's object forget its cache |
| `BdbBus.dfy` | the BDB bus driver: slot locks, the bus lock, the shared control register, overlapping transactions |
| `BdbTickets.dfy` | what is on the bus in either mode after any number of timeouts: each call's request, at most once |
| `BdbReplies.dfy` | whose response a thread on the parallel bus goes by and takes, before and after timeouts |
| `BdbSerial.dfy` | whose response a read on the serial bus goes by |
| `BdbWindow.dfy` | the one-entry cache of the switch devices' address window |
| `TlvInfo.dfy` | the validator and the decode loop of the ONIE TlvInfo image, and a printer for it |
| `Crc32.dfy`, `CrcDivision.dfy` | the CRC-32 bit by bit, and the polynomial division by which section 3.2.9 of IEEE 802.3 defines it |
| `TlvCorruption.dfy` | which corruptions of an image the validator catches |
| `Thermal.dfy` | the D4 fan-level controller and the action that commands the fans |
| `ResetHandshake.dfy` | the D4 port-reset handshake between `Sfp.reset` and the presence poller |
| `SfpEvents.dfy` | the D4 presence poller over all ports, and its change dictionaries |
| `PortLists.dfy`, `Runs.dfy`, `Wrappers.dfy` | presence lists and their differences, finite runs of a state machine, and an option type, for the others |

Where threads or processes interleave (`MdIpc`, `BdbBus`, `BdbWindow`,
`ResetHandshake` and what builds on them), the model is a state machine on values whose steps are single
accesses to a shared word, register, lock or device file, and a run is any
sequence of enabled steps of any number of threads. Everything else is sequential
code in the source and is a class or a method with loops here. Fields that a
comment calls history variables only record what happened; no step depends on
them.

## What is assumed of the surroundings

- The NDK process writes nothing but `NOS_RSP` to an owner word, and never an owner
  id, but it does so whenever it likes (`NdkRogue`). Only the lemmas about whose
  answer is taken (`AnswersAreOwn`, `OwnAnswerIff`) further assume that it answers
  requests it has picked up, each once, however late (`PeerAnswersRequests`).
- Locks exclude. Thread ids are unique and not 0.
- A successful chained message puts its payload at the start of the module's 2048
  extended-payload bytes, and a page write there puts its bytes at its page and
  offset (CDB messaging, section 7.2 of OIF-CMIS-05.0). A write that runs past
  offset 255 spills into the next page.
- The clocks of `ModuleLink` never go back. What becomes of an object's messages is an
  arbitrary sequence, one reply per message (`Link.replies`): no channel, no answer in
  time, or any status with any bytes.
- The BDB bridge keeps the configuration bits last written to its control register,
  and shows the head of a response FIFO in the status bits; a window access issues
  one request, to what the register names at that moment; reads are always
  answered, writes in parallel mode only, in any order; reading the posted-read
  register takes the head off. `bdb_parallel` is fixed.
- An access at offset 0x7000 of a device's base goes through its window register.
- `binascii.crc32` is the CRC-32 of IEEE 802.3, the low bit of each byte first.
- `is_valid_tlv` means that the two header bytes and the whole value fit; the
  vendor extension has type 0xFD and the CRC type 0xFE.

## What the proofs brought to light

- An answer that comes after a timeout can be taken by the channel's next user:
  `free_channel` runs while NDK still owes the answer. At the moment a request is
  written, whatever that call comes to read or copy is its own answer in every
  continuation if and only if the peer owes nothing on the channel (`OwnAnswerIff`).
  `LateAnswerHappens` gets to a foreign answer from idle threads.
- If such an answer comes while the channel is free and nobody is about to claim
  it, the owner word stays `NOS_RSP` and nobody can ever obtain the channel again
  (`StrandsIff`, `StrandedForGood`, `StrandingHappens`); ten of these exhaust the pool
  (`PoolExhaustionHappens`, `PoolExhausted`).
- On the parallel bus, in any run, whatever timeouts and pops there were before and
  will be, a thread goes by its own response if and only if its slot owes nothing at
  its window access (`OwnResponseIff`), as long as no other thread pops the FIFO
  between its look at the head and its own pop: the wait and the pop are outside the
  bus lock. A call whose slot owed nothing takes its own response if and only if no
  other thread does pop there (`CallTakesOwnIff`); where one does, it can take a
  response from another slot and report success (`BlindPopMisleads`).
- On the serial bus a read takes whatever response comes, from any slot: it goes by
  its own if and only if at its window access no other read is pending and the FIFO
  is empty (`OwnReadIff`). Up to the first timeout that is always so
  (`SerialReadsGetTheirOwn`). A read that timed out leaves its request pending, and the
  flush at the start of the next one clears at most one response.
- `write_eeprom` line 1026: by operator precedence the offset test guards pages
  161..175 only. A whole page at another offset of page 160 is collected as if it
  were at 128.
- Line 1031 trusts the length of the buffer: one that is not `num_bytes` long
  resizes the 2048-byte cache by the difference. With too short a buffer a message
  raises in `msg_send`, line 275, with its channel still held, and nobody ever gets
  that channel again (`RaisingStrands`, `RaisingHappens`); raised by the pending chain
  in front of a page-159 write, the chain stays pending.
- A chained message that fails when page 159 is written is only logged: the call
  returns the result of the page-159 write alone.
- A soft flush does not make upper page 0 be read again; a hard one does. So after a
  successful write a byte of upper page 0 is served as it was held before the write if
  that half was held then, no hard flush has come since, and the read does not go to
  the module; in every other case the read returns nothing older than the write
  (`WriteThenRead`).
- `iproc_map_addr` ignores the result of the window write. A call goes astray if and
  only if, when it compares, the window does not hold its page and either the note
  says it does or its own window write fails (`CallGoesAstrayIff`); after a failed
  write every later access to the same page goes astray, until another page is asked
  for.
- The header byte at index 7 is not looked at by the validator, and the checksum
  covers all but the last four bytes wherever the CRC TLV is; in an image whose
  last TLV is not the CRC, a change within the last four bytes goes unseen. There
  are such images with the CRC-32 itself (`UnseenChangeHappens`). A changed length
  before the CRC goes unseen only if the TLV boundaries after it never meet the old ones
  again, and there are such images too (`LengthChangeSeenIff`, `UnseenLengthHappens`).
- A vendor extension of fewer than four bytes, or with text that is not ASCII, makes
  the decode loop raise on an image that the validator accepts.
- A reset marked while the poller is about to clear an earlier one is lost; it can
  only time out, and then leaves the reset line held. One marked before the poller
  has read the earlier one's 3 is not lost, but the two are reported as one.
- The reset lines of eight ports share one register, written by an unlocked read
  and write back. A port's line is what its resets made it, at every moment, if and
  only if no neighbour that read the register before the port's last write puts
  another value back (`LineObeysIff`). Where one does, the line can be let go before
  the poller has seen the mark (`EarlyReleaseHappens`), or be held again after the
  reset has returned success (`HeldAfterSuccessHappens`).
- The chassis poller starts from a list one longer than the number of ports, so its
  first round always reports. A failed request gives an empty list, and the loop
  over the ports then raises.
- A fan that is absent when the level changes misses the one command of that
  change. So a rise of the level can slow a fan down: exactly if the last level it was
  told of lies above the one now reached (`RiseSlowsIff`, `SlowingRiseHappens`).

## Model

| member | source | states |
|---|---|---|
| MdIpc.StepKeepsInv | chassis/sonic_platform/sfp.py:175-344 | every single-word step of any thread, and anything the peer does, keeps the channel invariant: who holds which lock, channel and owner id at which program point, and balanced counters |
| MdIpc.RunKeepsInv | chassis/sonic_platform/sfp.py:175-344 | the invariant holds in every state of every run from idle threads |
| MdIpc.MutualExclusion | chassis/sonic_platform/sfp.py:175-220 | in no run, whatever the peer posts and however late, do two threads occupy the same channel |
| MdIpc.OwnerWordsTellTheTruth | chassis/sonic_platform/sfp.py:181-220 | while a thread occupies a channel its owner word never says free, and the owner id is that thread's except inside the allocator's critical section and just before the very last freeing write |
| MdIpc.EveryMessageAccountedFor | chassis/sonic_platform/sfp.py:289-335 | per process and channel, messages = success + fail + notpresent + unknown + timeouts + (1 if one is in flight), although the counters are bumped by unlocked loads and stores |
| MdIpc.ErrorBranchesUnreachable | chassis/sonic_platform/sfp.py:186-216 | the "already in use" and "bogus ownerID" branches are never taken |
| MdIpc.StepKeepsReply | chassis/sonic_platform/sfp.py:241-344 | every step, with a peer that answers only what it picked up, keeps the account of how far the peer has got with each holder's request |
| MdIpc.AnswersAreOwn | chassis/sonic_platform/sfp.py:297-344 | if the peer owed nothing on the channel when the request was written, and so always on channels nobody ever gave up on, the status counted and the data returned are those of the thread's own request |
| MdIpcTimeouts.PostsRequest | chassis/sonic_platform/sfp.py:269-295 | from writing a request four steps lead to polling with the request posted and the peer's debts as they were |
| MdIpcTimeouts.GivingUpLeavesDebt | chassis/sonic_platform/sfp.py:300-310 | after the last poll a thread frees the channel completely while the peer's debt stands |
| MdIpcTimeouts.LateAnswerCanBeTaken | chassis/sonic_platform/sfp.py:305-312 | if the peer still owes an answer to another request when a request is written, a run exists in which that very call takes something that is not its answer |
| MdIpcTimeouts.LateAnswerHappens | chassis/sonic_platform/sfp.py:175-344 | such a run exists from idle threads and a free channel with none before it that looks free, with a peer that answers only what it picked up: claim, post, 3000 polls in vain, give up, claim again, and read the late answer |
| MdIpcTimeouts.StrandedStays | chassis/sonic_platform/sfp.py:175-344 | a channel that nobody works on or is about to claim, or that was left by a call that raised, and whose owner word is not "free", stays so under every step of any thread and of the peer |
| MdIpcTimeouts.StrandsIff | chassis/sonic_platform/sfp.py:175-344 | a step strands a channel that was not if and only if it is the peer's signal on a channel that nobody works on or has seen free, or a call's raising on it, or the one thread that has seen it free passing it over for its owner id after the peer has signalled |
| MdIpcTimeouts.StrandedOnlyIfGivenUp | chassis/sonic_platform/sfp.py:175-344 | a channel that was free at the start is not stranded in any run, with a peer that answers only what it picked up, unless a call on it has timed out or raised |
| MdIpcTimeouts.RaisingStrands | chassis/sonic_platform/sfp.py:269-275 | a write with too little data raises with its channel claimed, and strands it at once |
| MdIpcTimeouts.RaisingHappens | chassis/sonic_platform/sfp.py:175-275 | from idle threads, on any channel before which none looks free, one such call does |
| MdIpcTimeouts.StrandedForGood | chassis/sonic_platform/sfp.py:181-220 | in no continuation does any thread get that channel again |
| MdIpcTimeouts.PoolExhausted | chassis/sonic_platform/sfp.py:181-204 | with every channel stranded no thread ever sends a message again |
| MdIpcTimeouts.StrandingHappens | chassis/sonic_platform/sfp.py:305-310 | from idle threads, on any channel before which none looks free, an answer signalled after its request was given up on and its channel freed strands the channel, and leaves all others as they were |
| MdIpcTimeouts.PoolExhaustionHappens | chassis/sonic_platform/sfp.py:175-344 | from idle threads and ten free channels, one thread and a peer that is late ten times strand every channel |
| MdIpcAnswers.StepKeepsDebts | chassis/sonic_platform/sfp.py:175-344 | every step, with a peer that answers only what it picked up, keeps: on every channel that can be used, what the peer serves or may come to serve is a request already written, and calls under way have tickets of their own |
| MdIpcAnswers.RunKeepsDebts | chassis/sonic_platform/sfp.py:175-344 | so in every state of every such run, after any number of timeouts |
| MdIpcAnswers.DebtIsForeign | chassis/sonic_platform/sfp.py:269-295 | what the peer owes on a channel when a request is about to be written there is an answer to another request |
| MdIpcAnswers.OwnAnswerTaken | chassis/sonic_platform/sfp.py:297-344 | if the peer owes nothing then, whatever status or data that call takes, in any continuation, is of its own answer |
| MdIpcAnswers.OwnAnswerIff | chassis/sonic_platform/sfp.py:269-344 | the two as an if-and-only-if, at the writing of any request of any run |
| MdIpcCalls.MarksTellTheTruth | chassis/sonic_platform/sfp.py:186-216 | a thread about to test the in-use mark finds it down, one about to test the owner id finds its own, and the mark is up in between: both error branches are dead for want of their condition, not just uncounted |
| MdIpcCalls.SearchIsThorough | chassis/sonic_platform/sfp.py:181-204 | a search gives up, or settles for a channel, only after this very call has seen of every channel before, one by one, that it is not free or still bears an owner |
| MdIpcCalls.ClaimsOnlyUnowned | chassis/sonic_platform/sfp.py:183-193 | and it claims only a channel whose owner id is 0, still at the moment of the claim |
| MdIpcCalls.MessagesAreNumbered | chassis/sonic_platform/sfp.py:253-255 | in every run a channel's message number goes up by exactly one with each message, although it is loaded and stored without a lock, and never otherwise |
| MdIpcCalls.RequestsLead | chassis/sonic_platform/sfp.py:269-287 | in every run a request is handed over and waited for only in calls that read, ask for the presence or write with enough data; a call that frees its channel otherwise is an unknown operation or a write without data, and takes nothing |
| MdIpcCalls.RequestSplits | chassis/sonic_platform/sfp.py:269-287 | which of handing over, refusing and raising it is depends on the operation and the data as stated, and only the first writes to the channel |
| MdIpcCalls.LooksAreCounted | chassis/sonic_platform/sfp.py:293-303 | the poll counter is the number of looks at the owner word taken in vain since the hand-over, and never above 3000 |
| MdIpcCalls.OutcomeIff | chassis/sonic_platform/sfp.py:293-335 | in every run with any peer, a posted call gives up if and only if its 3001st look finds no answer, and is then counted as a timeout and takes nothing; otherwise it is counted by the status word it reads after that look (0 success, 1 failure or for a presence query success, 2 not present, else unknown), and what it takes is what the message words hold at its copy |
| MdIpcCalls.CountedOnce | chassis/sonic_platform/sfp.py:289-332 | a process's counters for a channel change only at those two places, one counter by one each time, the second time the one that the outcome falls under |
| EplChain.NextLinked | chassis/sonic_platform/sfp.py:1026-1076 | every call, with a buffer of any length, keeps: a chain is pending exactly when the last accepted page is 160..174 |
| EplChain.NextValid | chassis/sonic_platform/sfp.py:1026-1076 | and with buffers long enough, the collecting buffer keeps at least its 2048 bytes |
| EplChain.BufferKeepsSizeIff | chassis/sonic_platform/sfp.py:1029-1031 | an accepted page resizes the buffer by the difference between the argument and num_bytes: it does not shrink if and only if the argument is long enough, and keeps its size if and only if it fits |
| EplChain.Handed | chassis/sonic_platform/sfp.py:1042-1079 | the messages of a call are handed over up to the first that holds fewer bytes than it makes room for |
| EplChain.NeverRaises | chassis/sonic_platform/sfp.py:1026-1079 | with arguments long enough throughout, no call raises |
| EplChain.CollectedBytes | chassis/sonic_platform/sfp.py:1027-1034 | an accepted page's bytes follow on from the pending ones, or start afresh on page 160 |
| EplChain.FaithfulStepRefines | chassis/sonic_platform/sfp.py:1026-1079 | after a faithful call the module's bytes under the pending pages are what a plain page write would have made of them |
| EplChain.UnfaithfulStepDiffers | chassis/sonic_platform/sfp.py:1026-1063 | for every other call there are module contents for which they are not |
| EplChain.CollectingInvisibleIff | chassis/sonic_platform/sfp.py:1026-1079 | collecting is invisible on a call, for all module contents, if and only if it neither misplaces a whole page of page 160 nor throws away collected bytes that it does not itself rewrite |
| EplChain.RunRefines | chassis/sonic_platform/sfp.py:1026-1079 | over any run of faithful calls the coalesced module, under the pending pages, equals the one that got every write on its own; with nothing pending the two are equal |
| EplChain.StepConserves | chassis/sonic_platform/sfp.py:1026-1076 | one call moves bytes between pending, sent and dropped without losing or inventing any |
| EplChain.EveryAcceptedByteAccountedFor | chassis/sonic_platform/sfp.py:1026-1076 | over every run the accepted bytes, in order, are those sent, those dropped by a restart, an out-of-order page or the two-second rule, and those still pending |
| EplChain.EveryBatchSentOnce | chassis/sonic_platform/sfp.py:1042-1068 | over every run the chained messages carry exactly the batches accounted as sent, in order, each once |
| EplChain.StampedByLastAccepted | chassis/sonic_platform/sfp.py:1050-1053 | over every run, while a chain is pending its stamp is the time of the last page taken into the buffer |
| EplChain.PendingForTwoSeconds | chassis/sonic_platform/sfp.py:1056-1064 | over every run, a call on a page outside 159..175 leaves the pending bytes exactly as they are if it comes within 2000000 us of the last page taken, and drops them otherwise |
| EplChain.WaitsForTwoSeconds | chassis/sonic_platform/sfp.py:1027-1064 | the shortest such run, from any state: a whole page taken at one time and any such call at another |
| EplChain.DroppedOnlyWhenLate | chassis/sonic_platform/sfp.py:1056-1064 | over every run that starts with nothing pending, whatever is dropped for lateness is dropped more than 2000000 us after the last page taken |
| EplChain.NextPageOutcome | chassis/sonic_platform/sfp.py:1027-1054 | the next page of a payload either completes it and sends it whole, or waits with the payload's prefix pending |
| EplChain.PayloadArrivesInOneMessage | chassis/sonic_platform/sfp.py:1026-1079 | from any buffer state and at any times, a payload of 1..2048 bytes written in ascending pages and then a page-159 write produce exactly two messages: one that puts the payload at the front of the module's bytes, then the page-159 write |
| ModuleLink.Link.Read | chassis/sonic_platform/sfp.py:241-344 | a read message takes the next reply, returns bytes if and only if that is an answer with status 0, and then exactly the number asked for, or 128 of more on pages below 160, each as it stands in the window; the trace says so |
| ModuleLink.Link.Write | chassis/sonic_platform/sfp.py:241-344 | a write message raises if and only if it holds too little data, and is then not handed over; otherwise it takes the next reply, and succeeds if and only if that is an answer with status 0; the trace says so |
| ModuleLink.Link.Exchange | chassis/sonic_platform/sfp.py:241-344 | every message has a reply of its own, the next one of the sequence |
| ModuleLink.MatchesMore | chassis/sonic_platform/sfp.py:241-344 | so the whole trace of an object stays true to the replies: every exchange on it is with the reply of its number, bytes and outcome are that reply's, and none is missing |
| PageCache.CachePage.constructor | chassis/sonic_platform/sfp.py:352-361 | a new page is invalid and backed by any trace |
| PageCache.CachePage.Fresh | chassis/sonic_platform/sfp.py:366-372 | a page is live if and only if it was valid and its fill is younger than the limit, and an expired one is dropped |
| PageCache.CachePage.Cache | chassis/sonic_platform/sfp.py:374-461 | a page that is live is left as it is and the module is not asked; any other is asked for from the module first, and is valid afterwards only with bytes read in this call and dated by a clock reading of this call; every byte it could serve was delivered by a device read with no flush since, and the fill that dates it is the first of the page since that read; if it fails the last thing that happened is a failed read of the page; upper page 0 once read is not read again |
| PageCache.CachePage.FillPage0 | chassis/sonic_platform/sfp.py:408-456 | the fill of page 0 reads the lower half and spares an upper half already there; both or nothing |
| PageCache.CachePage.FillUpper | chassis/sonic_platform/sfp.py:408-456 | the fill of any other page reads its upper half |
| PageCache.CachePage.Stamp | chassis/sonic_platform/sfp.py:451-456 | a page that is filled is dated by one fresh reading of the clock |
| PageCache.CachePage.ReadLower | chassis/sonic_platform/sfp.py:405-424 | the lower half of page 0 is read into its place, or the failure is the last thing on the trace |
| PageCache.CachePage.ReadAdmin | chassis/sonic_platform/sfp.py:428-437 | the administrative half is fetched, or not, without touching the lower half |
| PageCache.CachePage.Flush | chassis/sonic_platform/sfp.py:463-466 | a hard flush drops the page, and the administrative half of page 0 and of no other |
| ChassisSfp.OffsetSplits | chassis/sonic_platform/sfp.py:939-944 | the linear offset is recovered from page and page offset, and the latter is in 128..255 on every page but 0 |
| ChassisSfp.Sfp.constructor | chassis/sonic_platform/sfp.py:564-572 | a new object has 256 pages of its own, none of them valid, each good for two seconds, and an empty chain |
| ChassisSfp.Sfp.SmartCache | chassis/sonic_platform/sfp.py:892-904 | pages 3, 5, 16..18, 23, 44 and from 159 on, and positions of page 0 within 3..127, touch neither cache nor module; any other page is kept if live and read anew if not |
| ChassisSfp.Sfp.GetCachedPage | chassis/sonic_platform/sfp.py:611-622 | a page is handed out if and only if it is live by a reading of the clock, with its own data |
| ChassisSfp.Sfp.Cached | chassis/sonic_platform/sfp.py:952-958 | the three in a row, with the override: while it is on, positions 3..84 of page 0 and 128 of page 17 get nothing from the cache, and nothing else is refused |
| ChassisSfp.Sfp.ReadModule | chassis/sonic_platform/sfp.py:960-978 | a read of the module is one message with the bytes of its reply, and moves no page |
| ChassisSfp.Sfp.ByteIsServed | chassis/sonic_platform/sfp.py:351-466 | every byte of a live page of a valid object is vouched for by a device read in the trace |
| ChassisSfp.Sfp.SliceIsServed | chassis/sonic_platform/sfp.py:981-993 | so is a slice of it, with the length and positions of the offset-to-page mapping |
| ChassisSfp.Sfp.ReadEeprom | chassis/sonic_platform/sfp.py:923-999 | a read of a live page returns that page's bytes, unchanged, without the module being asked; if the page is not live the module is asked for it first, or, where nothing is cached, for the bytes themselves; overridden positions always come from the module; cached bytes are as many as asked for and on the page, each in its place, delivered by a device read whose own fill is within the limit (upper page 0: since the last hard flush); it fails only after a failed device read |
| ChassisSfp.Sfp.PageCacheFlush | chassis/sonic_platform/sfp.py:624-648 | every page is dropped; a hard flush drops upper page 0 too, and a soft one leaves it as it is |
| ChassisSfp.Sfp.FlushPage | chassis/sonic_platform/sfp.py:624-637 | the single-page branch drops that page and no other, and ends the process or raises if and only if there is no such page |
| ChassisSfp.Sfp.HasBeenTransitioned | chassis/sonic_platform/sfp.py:486-493 | a reported port transition flushes the object hard |
| ChassisSfp.Sfp.CollectPage | chassis/sonic_platform/sfp.py:1026-1054 | the collecting branch makes the chain's step with a fresh clock reading if it leaves the chain pending, sends its message, if any, or raises for want of data, and flushes nothing |
| ChassisSfp.Sfp.SettleChain | chassis/sonic_platform/sfp.py:1056-1076 | the other branch makes the chain's step, with a fresh clock reading if a chain is pending and the page is not 159, and sends a pending chain first if it is; if that raises the chain stays pending |
| ChassisSfp.Sfp.PlainWrite | chassis/sonic_platform/sfp.py:1078-1093 | the write message is handed over unless it raises, succeeds if and only if its reply is an answer with status 0, and is then followed by a soft flush |
| ChassisSfp.Sfp.WritePage | chassis/sonic_platform/sfp.py:1056-1093 | the two together, for a page that is not collected |
| ChassisSfp.Sfp.WriteEeprom | chassis/sonic_platform/sfp.py:1001-1093 | for a buffer of any length a write is one step of the chain at a clock reading of the call, hands over exactly that step's messages in order up to the first that raises, one reply each; which of them succeeded is which replies were answers with status 0; it returns the result of the last one, and flushes softly if and only if that was a plain write that succeeded |
| ChassisSfp.WriteThenRead | chassis/sonic_platform/sfp.py:923-1093 | read your writes: after a plain write returns true, whatever is read, written or swapped next, nothing that a later read returns was delivered by the module before the write; the one exception is upper page 0, if it was held at the write and no hard flush has come since: then the read comes straight from the module or returns exactly what was held |
| ChassisSfp.UseThenRead | chassis/sonic_platform/sfp.py:923-999 | the same of any flush that has just happened, upper page 0 included if the flush was hard, or its half was not held then, or a hard flush has come since; otherwise that half is served as it was held |
| ChassisSfp.FreshAfterFlush | chassis/sonic_platform/sfp.py:923-999 | what a read has just returned was delivered after every flush in the trace, with upper page 0 set aside for the soft ones |
| ChassisSfp.UpperFresh | chassis/sonic_platform/sfp.py:392-461 | if what is held of upper page 0 was read since, or nothing is, a read is as fresh there as elsewhere |
| ChassisSfp.UpperHeld | chassis/sonic_platform/sfp.py:923-999 | if it was held all along, a read that does not come straight from the module returns just that |
| ChassisEvents.SfpEvent.constructor | chassis/sonic_platform/sfp_event.py:72-73 | the poller starts with all ports absent and one entry too many, and nothing in the shared presence array |
| ChassisEvents.SfpEvent.Report | chassis/sonic_platform/sfp_event.py:214-229 | exactly the objects of the changed ports are flushed, each once, and their presence passed on; it raises if and only if the answer has too few ports |
| ChassisEvents.SfpEvent.ReportPort | chassis/sonic_platform/sfp_event.py:215-225 | one turn of that loop |
| ChassisEvents.SfpEvent.Transition | chassis/sonic_platform/sfp.py:486-499 | the object of the port, and no other, is flushed, its entry in the presence array, and no other, is set, and its module API is built anew if and only if the port is present and the array had it absent |
| ChassisEvents.SfpEvent.PassedIs | chassis/sonic_platform/sfp.py:491-499 | after a report the presence array has the new status of every changed port with an object and is otherwise as it was |
| ChassisEvents.SfpEvent.AgreesAgain | chassis/sonic_platform/sfp_event.py:214-229 | so an array that agreed with the old list agrees with the new one |
| ChassisEvents.SfpEvent.RebuiltIffInserted | chassis/sonic_platform/sfp.py:491-499 | a report on an array that agreed with the old list has the API built anew for exactly the inserted modules with an object, in port order, each once |
| PortLists.NotedIsDiff | chassis/sonic_platform/sfp_event.py:215-221 | the dictionary filled port by port is the caller's with the difference of the two lists laid over it |
| ChassisEvents.SfpEvent.CheckSfpStatus | chassis/sonic_platform/sfp_event.py:178-241 | it reports at the first list that differs, flushing exactly the swapped ports' objects, and until then flushes nothing; it runs out of time only with less than a second left |
| ChassisEvents.ReportThenRead | chassis/sonic_platform/sfp_event.py:178-241 | hot-swap safety end to end: once the poller has reported that a port changed, whatever is read, written or swapped next, nothing that a later read from the port's object returns, upper page 0 included, was delivered before the report |
| BdbRegs.ControlWordDecodes | chassis/modules/nokia-kernel-bdb.c:453-456 | the control word written sends a window access to exactly the slot and 32-bit address asked for |
| BdbRegs.PollWordDecodes | chassis/modules/nokia-kernel-bdb.c:373-384 | a depth poll selects its slot and leaves the address bits alone |
| BdbRegs.ReadBackKeepsFields | chassis/modules/nokia-kernel-bdb.c:378-379 | reading the register back yields the slot and address fields last written |
| BdbRegs.ReadBackDecodes | chassis/modules/nokia-kernel-bdb.c:404-412 | its status bits tell whether, for which slot and how a response is waiting |
| BdbBus.StepKeepsInv | chassis/modules/nokia-kernel-bdb.c:355-596 | every step keeps: locks are held exactly between their program points, one holder each, and a thread about to touch the window has its own slot and address in the control register |
| BdbBus.RunKeepsInv | chassis/modules/nokia-kernel-bdb.c:355-596 | so in every state of every run, in either mode |
| BdbBus.WindowAccessHitsItsTarget | chassis/modules/nokia-kernel-bdb.c:447-461 | at the instant of the window access the control register names the thread's own slot and high address bits, and the request issued is the one asked for, whatever other threads do |
| BdbBus.WriteFoundRoom | chassis/modules/nokia-kernel-bdb.c:544-552 | a write comes to the window only from a look at the FIFO depth that found room, in the same call, and in parallel mode with its own slot in the control register at that look |
| BdbBus.LocksAreExclusiveAndReturned | chassis/modules/nokia-kernel-bdb.c:447-496 | at most one thread is inside the bus lock and one on a slot, and a thread that is through holds neither, by every path |
| BdbBus.GoKeepsReply | chassis/modules/nokia-kernel-bdb.c:390-596 | a step before the first timeout keeps: at most one entry per slot between bus and FIFO, each its waiting thread's, bar a stale head |
| BdbBus.ResponsesReachTheirRequesters | chassis/modules/nokia-kernel-bdb.c:390-499 | in parallel mode, in every run up to the first timeout, errors included, the response a thread takes is the one to the request it issued |
| BdbTickets.StepKeepsTickets | chassis/modules/nokia-kernel-bdb.c:355-596 | every step in either mode, timeouts and pops of any kind included, keeps: calls have tickets of their own, nothing on the bus bears a call's ticket before its window access, and no two entries bear the same |
| BdbTickets.RunKeepsTickets | chassis/modules/nokia-kernel-bdb.c:355-596 | so in every state of every run |
| BdbTickets.GoneByIsTaken | chassis/modules/nokia-kernel-bdb.c:390-499 | in either mode, what a thread goes by is what it takes: the pop takes off that very response, and its error decides |
| BdbTickets.SuccessIff | chassis/modules/nokia-kernel-bdb.c:390-499 | in every run, either mode, after any number of timeouts: a call other than a serial write has succeeded if and only if the look with which its wait ended showed a response for it (in parallel mode one from its slot, in serial mode any) without an error; a wait that ran out of time is a failure; a read takes a response if and only if it has succeeded, a posted write always takes one |
| BdbTickets.CallReturns | chassis/modules/nokia-kernel-bdb.c:477-499 | the last step of a call hands its verdict and answer on; a failed read has taken no answer, a serial write has succeeded without one |
| BdbReplies.StepKeepsCalm | chassis/modules/nokia-kernel-bdb.c:355-596 | every orderly step, in which no timed-out thread pops between another thread's look and its pop, keeps: a thread between its look and its pop has its slot's response at the head |
| BdbReplies.RunKeepsCalm | chassis/modules/nokia-kernel-bdb.c:355-596 | so in every state of every orderly run, with any number of timeouts |
| BdbReplies.OwnIfNothingOwed | chassis/modules/nokia-kernel-bdb.c:390-499 | from any state: if its slot owes nothing at the window access, a thread goes by its own response in every continuation in which nobody else pops between its look and its pop, whatever timeouts and other pops there are |
| BdbReplies.ForeignIfOwed | chassis/modules/nokia-kernel-bdb.c:415-432 | from any state: if its slot owes anything, unanswered or waiting in the FIFO, there is a continuation, orderly and with nobody popping between its look and its pop, in which the thread, reading or writing, goes by a response that is not its own |
| BdbReplies.OwnResponseIff | chassis/modules/nokia-kernel-bdb.c:390-596 | the two as an if-and-only-if, at any window access of any run in parallel mode |
| BdbReplies.OrderlyIsQuiet | chassis/modules/nokia-kernel-bdb.c:390-499 | in an orderly run no step of another thread pops between a thread's look and its pop |
| BdbReplies.OrderlyResponseIff | chassis/modules/nokia-kernel-bdb.c:390-596 | so the same if-and-only-if holds of orderly runs and all their orderly continuations |
| BdbReplies.TakesOwnIff | chassis/modules/nokia-kernel-bdb.c:404-432 | a thread that has seen its own response at the head takes it, whatever other threads do in the meantime, if and only if none of them pops |
| BdbReplies.CallTakesOwnIff | chassis/modules/nokia-kernel-bdb.c:390-499 | a whole call: one that found its slot owing nothing at its window access takes its own response if and only if no other thread pops between the look that ended its wait and its pop |
| BdbReplies.PunctualMeansClear | chassis/modules/nokia-kernel-bdb.c:390-596 | up to the first timeout every step is orderly and every window access finds its slot owing nothing |
| BdbReplies.ForeignResponseHappens | chassis/modules/nokia-kernel-bdb.c:415-432 | from idle threads, on any slot, a thread that once gave up can come to go by the response it gave up on |
| BdbReplies.BlindPopMisleads | chassis/modules/nokia-kernel-bdb.c:421-430 | from idle threads, a timed-out thread that pops between another's look and its pop makes the latter take another slot's response and report success, though its slot owed nothing |
| BdbSerial.StepStaysAlone | chassis/modules/nokia-kernel-bdb.c:390-499 | every step in serial mode keeps: once at its window access with nothing due, only its own response can come to a read until it is through |
| BdbSerial.ForeignIfDue | chassis/modules/nokia-kernel-bdb.c:390-432 | if a read is pending or the FIFO is not empty at the window access of a read, there is a continuation in which it goes by a response that is not its own |
| BdbSerial.OwnReadIff | chassis/modules/nokia-kernel-bdb.c:390-499 | at any window access of a read, in any run in serial mode, it goes by its own response in every continuation if and only if no read is pending and the FIFO is empty |
| BdbSerial.RunKeepsSerial | chassis/modules/nokia-kernel-bdb.c:355-499 | in serial mode up to the first timeout: at most one response waits, no read is pending while the bus is free, and whoever has the bus has nothing due from the flush to the window access and only its own after it |
| BdbSerial.SerialReadsGetTheirOwn | chassis/modules/nokia-kernel-bdb.c:355-499 | so in every run up to the first timeout, whatever responses failed reads have left behind, nothing is due at a window access and every read takes the response to its own request |
| BdbSerial.ForeignReadHappens | chassis/modules/nokia-kernel-bdb.c:390-499 | from idle threads, a thread whose read of slot 0 timed out can come to go by that response when reading any slot |
| BdbWindow.StepKeepsInv | chassis/modules/nokia-kernel-bdb.c:622-718 | every step keeps the note of the loaded page right, outside the three accesses that change it and unless the register is dirty |
| BdbWindow.RunKeepsInv | chassis/modules/nokia-kernel-bdb.c:622-718 | so in every state of every run |
| BdbWindow.WindowedAccessReachesIff | chassis/modules/nokia-kernel-bdb.c:633-645 | in 32-bit arithmetic a windowed access reaches the address named if and only if the window holds its page |
| BdbWindow.WhichWindow | chassis/modules/nokia-kernel-bdb.c:627-645 | addresses 0x10231000..0x10231fff and 0x18013000..0x18013fff go to offset 0x6000 of the device, all others to 0x7000, plus the low twelve bits; two addresses that come out at the same place are of one kind and agree in these bits |
| BdbWindow.FixedNeverLoads | chassis/modules/nokia-kernel-bdb.c:627-630 | in no run does an access to one of the two ranges touch the window register or the note |
| BdbWindow.CachedWindowIsRight | chassis/modules/nokia-kernel-bdb.c:622-718 | over every interleaving on every device, with units added in between, a windowed access made while no window write has failed reaches exactly the address named |
| BdbWindow.CallGoesAstrayIff | chassis/modules/nokia-kernel-bdb.c:622-645 | whatever other calls do in between, a call goes astray if and only if, when it compared, the window did not hold its page, and either the note said it did or the call's own window write failed |
| BdbWindow.FailedLoadMisdirects | chassis/modules/nokia-kernel-bdb.c:633-637 | in particular three steps after a failed window write lead to an access that goes elsewhere, with the note claiming that the page is loaded |
| BdbWindow.AstrayForGood | chassis/modules/nokia-kernel-bdb.c:633-645 | from then on every access to that page, by any thread, goes elsewhere, until another page is asked for or the register or unit is set anew |
| BdbWindow.FailedLoadHappens | chassis/modules/nokia-kernel-bdb.c:622-718 | from the start, the first access to any page the window does not happen to hold comes to that if its load fails |
| Folds.FoldInjective | chassis/sonic_platform/eeprom.py:170 | a checksum step that loses nothing keeps registers that differ apart under any further bytes |
| Folds.FoldDiffers | chassis/sonic_platform/eeprom.py:170 | texts whose middles part the registers have different checksums |
| Folds.FoldUnfolds | chassis/sonic_platform/eeprom.py:170 | a checksum step that can be undone can be run backwards over any bytes |
| Crc32.ShiftBitLinear | chassis/sonic_platform/eeprom.py:170 | a bit step is linear over exclusive or |
| Crc32.StepIsInjective | chassis/sonic_platform/eeprom.py:170 | a byte step loses nothing of the register |
| Crc32.FourBytesInjective | chassis/sonic_platform/eeprom.py:170 | four bytes in a row are determined by the register they lead to |
| Crc32.FourBytesSurjective | chassis/sonic_platform/eeprom.py:170 | four bytes lead from any register to any other |
| Crc32.BurstChangesCrc | chassis/sonic_platform/eeprom.py:170 | texts that differ, and only within four bytes in a row, have different CRCs |
| Crc32.CrcReaches | chassis/sonic_platform/eeprom.py:170 | four bytes, anywhere in a text, can give it any CRC |
| Crc32.ValueInjective | chassis/sonic_platform/eeprom.py:170 | different registers are different numbers |
| Crc32.BurstChangesIeee | chassis/sonic_platform/eeprom.py:170 | the same of the number that is compared |
| Crc32.IeeeReachesZero | chassis/sonic_platform/eeprom.py:170 | and can make the number that is compared zero |
| Crc32.CheckValue | chassis/sonic_platform/eeprom.py:170 | the checksum of the nine digits is the check value 0xCBF43926 |
| Crc32.Residue | chassis/sonic_platform/eeprom.py:170 | a text followed by its own checksum, low octet first, always leaves the register at 0xDEBB20E3 |
| Division.BitsDivide | chassis/sonic_platform/eeprom.py:170 | any register in which a bit step is a step of the long division holds, after any bits, the remainder of these bits with 32 zeros behind them, what the register held at first added to the first 32, divided by the generator |
| Division.DivisionUnique | chassis/sonic_platform/eeprom.py:170 | quotient and remainder of a division by the generator are unique |
| CrcDivision.TextFeeds | chassis/sonic_platform/eeprom.py:170 | the checksum taken byte by byte is the one taken bit by bit, each byte's lowest first |
| CrcDivision.CrcIff | chassis/sonic_platform/eeprom.py:170 | a number is the checksum computed if and only if its complement is the remainder of the text, its first 32 bits complemented and 32 zeros behind it, divided by x^32 + x^26 + x^23 + x^22 + x^16 + x^12 + x^11 + x^10 + x^8 + x^7 + x^5 + x^4 + x^2 + x + 1 |
| TlvInfo.TilingUnique | chassis/sonic_platform/eeprom.py:139-158 | a body tiles into TLVs in at most one way |
| TlvInfo.NextTlv | chassis/sonic_platform/eeprom.py:148-157 | any tiling goes on, after the part read so far, with the TLV that the next bytes spell out |
| TlvInfo.Validate | chassis/sonic_platform/eeprom.py:106-174 | the validator accepts exactly the images whose header, version and length match, whose body tiles, whose CRC TLVs have four bytes, and whose last CRC is the checksum of all but the last four bytes |
| TlvInfo.AcceptedByTiling | chassis/sonic_platform/eeprom.py:139-174 | with any one tiling of the body in hand, acceptance is the CRC condition on that tiling |
| TlvInfo.RejectedWithin | chassis/sonic_platform/eeprom.py:144-162 | an image in which no TLV fits at some position, or a CRC has the wrong length, is not acceptable by any tiling |
| TlvInfo.SmallestImageIff | chassis/sonic_platform/eeprom.py:106-174 | an image of 17 bytes is accepted if and only if, spelled out in numbers, it is the magic, any byte, version 1, length 6, a CRC TLV, and the checksum of the first 13 bytes, the high byte first |
| TlvInfo.Decode | chassis/sonic_platform/eeprom.py:80-104 | on any image the decode loop visits a list that spells out the start of the body and ends with the first CRC, or where no further TLV can be had, or, raising, in front of a bad vendor extension; on an image that tiles with a CRC it raises if and only if there is one before the CRC, and otherwise visits exactly the list through the first CRC |
| TlvInfo.BadVendorStops | chassis/sonic_platform/eeprom.py:93-96 | a bad vendor extension met before any CRC is among the TLVs to be decoded, however the body tiles |
| TlvInfo.BadVendorSpelled | chassis/sonic_platform/eeprom.py:93-96 | a bad vendor extension in bytes: 0xFD and a length below four or a byte from 128 on behind the first four |
| TlvInfo.DictHoldsLast | chassis/sonic_platform/eeprom.py:98-100 | the dictionary holds, under each type that was visited and no other, the value of the last TLV of that type |
| TlvInfo.VisitOne | chassis/sonic_platform/eeprom.py:85-104 | one turn of that loop extends the list visited and the dictionary |
| TlvInfo.EncodeIsAccepted | chassis/sonic_platform/eeprom.py:106-174 | every list free of type 0xFE that fits the 16-bit length prints to an accepted image |
| TlvInfo.DecodePrinted | chassis/sonic_platform/eeprom.py:80-104 | decoding a printed list raises if and only if the list has a bad vendor extension, and otherwise visits exactly that list, in order, and then the CRC |
| TlvInfo.AcceptedIsEncoded | chassis/sonic_platform/eeprom.py:106-174 | an accepted image whose only CRC comes last, and whose unexamined header byte is 0, is the print of its list |
| TlvCorruption.IeeeCrcSeesBursts | chassis/sonic_platform/eeprom.py:170-171 | the CRC-32 of IEEE 802.3 is a checksum that tells apart any texts that differ within four bytes in a row |
| TlvCorruption.CorruptionUpToCrc | chassis/sonic_platform/eeprom.py:143-174 | replacing a non-CRC value by another of the same length leaves only the checksum comparison to decide |
| TlvCorruption.OneByteCorruption | chassis/sonic_platform/eeprom.py:143-174 | an accepted image with one byte of a non-CRC value changed is still accepted if and only if the byte is among the image's last four |
| TlvCorruption.IeeeOneByteCorruption | chassis/sonic_platform/eeprom.py:143-174 | that, with the CRC-32 of IEEE 802.3 itself |
| TlvCorruption.LastFourUnseen | chassis/sonic_platform/eeprom.py:143-174 | in an accepted image that ends with another TLV than a CRC, any one of the last four bytes can become anything unseen |
| TlvCorruption.UnseenChangeHappens | chassis/sonic_platform/eeprom.py:106-174 | there is an accepted image of 27 bytes, with the CRC-32 of IEEE 802.3 itself, to which that applies |
| TlvCorruption.BurstCorruptionCaught | chassis/sonic_platform/eeprom.py:143-174 | with the CRC last, every corruption of a value within four bytes in a row is rejected |
| TlvCorruption.AnyByteCaught | chassis/sonic_platform/eeprom.py:116-174 | in an accepted image whose one CRC comes last, changing any one byte, other than the length of a TLV before the CRC, is rejected: header, unexamined byte, types, values, and the CRC's type, length and value |
| TlvCorruption.IeeeAnyByteCaught | chassis/sonic_platform/eeprom.py:116-174 | that, with the CRC-32 of IEEE 802.3 itself |
| TlvCorruption.LengthChangeRetiles | chassis/sonic_platform/eeprom.py:139-158 | a changed length leaves the TLVs before it and its own type, gives its own the new length, and moves the next start accordingly |
| TlvCorruption.MeetingTilingsAgree | chassis/sonic_platform/eeprom.py:139-158 | where the new boundaries meet the old ones beyond the change, the two go on alike |
| TlvCorruption.LengthChangeSeenIff | chassis/sonic_platform/eeprom.py:139-174 | an accepted image whose one CRC comes last, with a length before it changed and the body tiling anew, is still accepted if and only if the new boundaries never meet the old ones again, the CRC's own included, and the CRCs they make out are well shaped and the last one matches; then it does not end with the CRC it had |
| TlvCorruption.UnseenLengthHappens | chassis/sonic_platform/eeprom.py:106-174 | there is such an image, with the CRC-32 of IEEE 802.3 itself, that stays accepted when one length is set to zero |
| FanLevels.DemandBelowAllowance | ixr7220d4/sonic_platform/thermal_infos.py:117-127 | with rows that rise and down below up, the level asked for never exceeds the level allowed |
| FanLevels.CollectClamps | ixr7220d4/sonic_platform/thermal_infos.py:113-133 | without a failed fan a collect clamps the old level between the level asked for and the level allowed |
| FanLevels.CollectSettles | ixr7220d4/sonic_platform/thermal_infos.py:113-152 | collecting the same readings again changes nothing |
| FanLevels.CollectIff | ixr7220d4/sonic_platform/thermal_infos.py:113-133 | with rows that rise, a collect without a failed fan leaves the level at l if and only if l lies above every row that some sensor exceeds and not above a row that all sensors are below, is no higher than before unless a sensor exceeds the row under it, and no lower unless all sensors are below its row |
| FanLevels.ConcreteTablesWellFormed | ixr7220d4/sonic_platform/thermal_infos.py:154-173 | both concrete tables have rising rows and down thresholds below up thresholds for all seven sensors |
| FanLevels.RiseMeansHot | ixr7220d4/sonic_platform/thermal_infos.py:120-133 | a rise above level l has some sensor above up[l] |
| FanLevels.FallMeansAllCool | ixr7220d4/sonic_platform/thermal_infos.py:123-133 | a fall to level l has every sensor below down[l] |
| FanLevels.NoChatter | ixr7220d4/sonic_platform/thermal_infos.py:117-152 | over whole runs, between a rise above l and a later fall to l or below some one sensor went from above up[l] to below down[l] |
| FanControl.Scan | ixr7220d4/sonic_platform/thermal_infos.py:113-127 | the double loop finds the level asked for and the lowest level all sensors let go to, as defined without it |
| FanControl.ThermalInfo.constructor | ixr7220d4/sonic_platform/thermal_infos.py:88-91 | the controller starts below every level with no request up |
| FanControl.ThermalInfo.FindLevel | ixr7220d4/sonic_platform/thermal_infos.py:113-138 | the new level follows from the readings and the old one, or is 3 if any fan has failed |
| FanControl.ThermalInfo.DecideSpeed | ixr7220d4/sonic_platform/thermal_infos.py:142-150 | exactly the new level's request is raised if the level changed, none otherwise |
| FanControl.ThermalInfo.Collect | ixr7220d4/sonic_platform/thermal_infos.py:93-152 | a collect moves the level, raises the new level's request if and only if it changed, and raises an exception, levels untouched, if and only if there are no sensors or some has no threshold |
| FanControl.FanBank.SetAll | ixr7220d4/sonic_platform/thermal_actions.py:51-56 | each present fan gets exactly one command with the speed, in whatever order the set is walked, and no other any |
| FanControl.Execute | ixr7220d4/sonic_platform/thermal_actions.py:203-221 | each of the four requests gives the present fans its own configured speed, once, a higher request before a lower one; with no request nothing is commanded |
| FanControl.Round | ixr7220d4/sonic_platform/thermal_actions.py:203-221 | one collect, raising or not, and one execute command a present fan exactly when the level changes: to the default speed at level 0, the threshold-one and threshold-two speeds at 1 and 2, and the high-temperature speed at 3 |
| FanControl.LastAttendedIs | ixr7220d4/sonic_platform/thermal_actions.py:203-221 | the level a fan was last told of is that reached in the last level change for which it was there |
| FanControl.NoneMissed | ixr7220d4/sonic_platform/thermal_actions.py:203-221 | a fan that has missed no change since one it was there for was told of the current level |
| FanControl.Control | ixr7220d4/sonic_platform/thermal_actions.py:203-221 | over any number of rounds, with fans coming and going and collects that may raise, a fan gets exactly one command per level change for which it is there; its last command is the speed of the level reached in the last of them and, if the speeds differ, that of the current level if and only if the two levels are the same |
| FanControl.ToldAlways | ixr7220d4/sonic_platform/thermal_actions.py:203-221 | at every moment of such a run a fan runs at the speed of the last level it was told of, or as it did at the start |
| FanControl.RiseNeverSlows | ixr7220d4/sonic_platform/thermal_actions.py:203-221 | with speeds that rise with the level, a rise never slows down a present fan that has missed no change since one it was there for |
| FanControl.RiseSlowsIff | ixr7220d4/sonic_platform/thermal_actions.py:203-221 | with speeds that differ, a rise slows a present fan down if and only if the last level it was told of lies above the one now reached |
| FanControl.SlowingRiseHappens | ixr7220d4/sonic_platform/thermal_infos.py:113-152 | it happens: an intake box with a failed fan, then cool readings while fan 0 is out, then one sensor at 40 degrees takes that fan from 100 to 60 percent on a rise |
| FanControl.FailedFanMeansHighSpeed | ixr7220d4/sonic_platform/thermal_infos.py:134-150 | in every run, a collect that finds a failed fan puts the level at 3, and if that is a change every present fan at the high-temperature speed |
| ResetHandshake.ReleasedOnlyWhenAbsent | ixr7220d4/sonic_platform/sfp.py:157-177 | in every run, with any number of resets one after the other, neighbours writing the shared register and the module plugged and pulled at will, a port's resets let the line go only while the port stands as absent with the poller |
| ResetHandshake.LineObeysIff | ixr7220d4/modules/d4_cpld1.c:240-261 | in every run the line is at every moment what the port's resets last wrote if and only if no neighbour that read the register before that write puts another value back |
| ResetHandshake.LineReleasedOnlyWhenAbsent | ixr7220d4/sonic_platform/sfp.py:157-177 | as long as none does, the line itself is held until the port stands as absent |
| ResetHandshake.EarlyReleaseHappens | ixr7220d4/modules/d4_cpld1.c:240-261 | from rest, a neighbour's write can release the line while the mark is unread and the port stands as it did |
| ResetHandshake.HeldAfterSuccessHappens | ixr7220d4/modules/d4_cpld1.c:240-261 | from rest, a neighbour's write can leave the line held after a reset that returned success |
| ResetHandshake.StepKeepsInv | ixr7220d4/sonic_platform/sfp_event.py:58-75 | every step of a reset of a module that stays, or of the poller, keeps flag, line and verdict in step and moves events from those to come to those reported |
| ResetHandshake.RunKeepsInv | ixr7220d4/sonic_platform/sfp_event.py:58-75 | so at every moment the events reported and those to come are together those to come at the mark |
| ResetHandshake.HandshakeIsSafe | ixr7220d4/sonic_platform/sfp.py:157-177 | for a reset marked in any state in which the mark is not lost: it lets the line go only after the poller judged the port absent, the events are at every moment a beginning of those to come at the mark, a completed reset has released the line and one that gave up has left it held; and the line itself is so at every moment if and only if no neighbour that read the register before the port's last write puts another value back |
| ResetHandshake.EventsClassified | ixr7220d4/sonic_platform/sfp_event.py:98-109 | those events are a removal and an insertion if and only if the port had been shown present at the mark, and an insertion alone, or with the two before it, otherwise |
| ResetHandshake.OneRemovalOneInsertion | ixr7220d4/sonic_platform/sfp_event.py:58-75 | once a completed reset has been cleared and reported, exactly one removal and then one insertion have been reported since the mark if and only if the port had been shown present |
| ResetHandshake.TwoRoundsReport | ixr7220d4/sonic_platform/sfp_event.py:58-75 | wherever the poller is when a reset completes, two more rounds are enough to clear it and report all that was to come |
| ResetHandshake.EndsIff | ixr7220d4/sonic_platform/sfp.py:148-177 | in every run a reset fails if and only if there is no module when it starts, and then it touches nothing, or its ninth look finds no 2; it goes on to release the line if and only if a look finds a 2, and succeeds only after that, with the flag at 3 |
| ResetHandshake.LostForGood | ixr7220d4/sonic_platform/sfp.py:166-175 | a mark that the poller wipes out is never answered, in any continuation: the reset never releases the line |
| ResetHandshake.MarkLostIff | ixr7220d4/sonic_platform/sfp_event.py:70-73 | whatever the flag was, a mark is lost if and only if the poller has read an earlier 3 and is about to clear it; from anywhere else the poller answers it |
| ResetHandshake.LostResetHappens | ixr7220d4/sonic_platform/sfp.py:157-177 | from rest, a reset called again as soon as it has returned can be lost |
| ResetHandshake.SecondResetCanGoUnreported | ixr7220d4/sonic_platform/sfp_event.py:58-75 | from rest, two resets can be reported as one, if the second is marked before the poller has read the first one's 3 |
| SfpEvents.RoundIsFourSteps | ixr7220d4/sonic_platform/sfp_event.py:58-75 | a round does to a port what the interleaved poller's steps do, with a reset's write falling between its read and its write |
| SfpEvents.SfpEvent.GetTransceiverStatus | ixr7220d4/sonic_platform/sfp_event.py:45-75 | a round returns every port's status and leaves every port's flag as the handshake has it, with resets' writes falling between the poller's reads and writes |
| SfpEvents.SfpEvent.ReportChanges | ixr7220d4/sonic_platform/sfp_event.py:99-105 | the caller's dictionary with the difference of the two lists laid over it |
| SfpEvents.SfpEvent.CheckSfpStatus | ixr7220d4/sonic_platform/sfp_event.py:77-121 | with whatever resets write to the flags before and during every round, it polls up to the first round whose list differs, reports exactly the difference and keeps that list, and leaves the flags as all rounds polled have them; it runs out of time only with less than a second left |
| SfpEvents.ReplayIff | ixr7220d4/sonic_platform/sfp_event.py:99-109 | a report applied to the old list gives the new one if and only if no leftover entry of the caller's dictionary disagrees |
| SfpEvents.ReplayReproduces | ixr7220d4/sonic_platform/sfp_event.py:96-109 | all reports folded over the initial list give the current list, after any run |
| SfpEvents.Watch | ixr7220d4/sonic_platform/chassis.py:163-189 | over any number of calls with an empty dictionary each, and resets writing flags in between, every report is a real change and all of them folded over the list at the start give the list at the end |
| SfpEvents.EventsAlternate | ixr7220d4/sonic_platform/sfp_event.py:96-109 | each port's events strictly alternate, starting against its initial presence and ending with its current one |

## Left out

- MdIpc.MutualExclusion: assumes runs without signals; the handlers (`cleanup_channels`, `dump_stats_signal`) can release the file lock inside the section and are not steps of the model.
- MdIpc.AnswersAreOwn: the words of a request behind the owner id (port, operation, page, offset, length, status preset, data) are written in one step; nobody reads them before the hand-off.
- MdIpc.StepKeepsInv: message ids are unbounded and thread ids are numbers other than 0; the 32-bit overflow of `to_bytes`, response times and the `stat_no_channel_avail` counter are not kept.
- EplChain.RunRefines: covers the module's extended-payload bytes; what a module does on receiving page 159 is the module's affair.
- PageCache.CachePage.Cache: a fill or a flush is one step; concurrent fills, the wait on `pending` and the mode `CACHE_FRESHEN`, which no caller uses, are not modelled.
- ChassisSfp.Sfp.HasBeenTransitioned: the flush alone; the presence array is `ChassisEvents.SfpEvent.Transition`.
- ChassisEvents.SfpEvent.Transition: that the API is built anew is recorded; which bytes of the module `get_xcvr_api`, a function of another package, reads for it is not part of this model, nor is the presence query of `get_presence`, with its own hard flush, before the poller has gone live.
- ChassisEvents.SfpEvent.CheckSfpStatus: the presence request is an input (an empty list when it fails), and the test mode of `test_enable` is not modelled; at most one object per port.
- BdbBus.ResponsesReachTheirRequesters: up to the first timeout; after it, `BdbReplies`, and in serial mode `BdbSerial`. Retries in `bdbReadWord` and `bdbWriteWord`, data words and access widths, calls refused before locking, the scratchpad exception of lines 572-576 and the statistics are not modelled.
- BdbBus.StepKeepsInv: the registers appear by their decoded fields, which `BdbRegs` ties to the bits; that a wait or a depth poll ends is not claimed, since its timeout is re-armed while other slots answer.
- BdbWindow.CachedWindowIsRight: the two pages reached at offset 0x6000 do not use the window register and are outside the claim; a unit is added only while its mutex is free; the device-number checks are not modelled.
- TlvInfo.Validate: from the file's contents on; opening and reading the file, fetching the image over gRPC and `is_valid_tlvinfo_header` are not modelled.
- TlvInfo.Decode: the dictionary holds raw values by type byte; formatting, and what `TlvInfoDecoder` does with TLVs other than vendor extensions, are not part of this model.
- FanControl.ThermalInfo.Collect: temperatures are real numbers, so rounding and not-a-number readings are outside; `FanInfo` and `PsuInfo` presence sets come in as inputs.
- FanControl.Control: each round is one collect and one execute; that an execute may be skipped, and loading speeds from JSON, are not modelled.
- ResetHandshake.HandshakeIsSafe: for a module that stays present from the mark on, and one reset of the port at a time; sysfs errors, waiting times, port numbers out of range and the low-power setting are not modelled.
- SfpEvents.SfpEvent.CheckSfpStatus: of several writes to a flag between two accesses of the poller only the last appears; the presence mirrors written to the other CPLDs are not modelled.
- Real time and sleeping: clocks are arbitrary inputs, and only the bounds the code tests are kept.
- gRPC and NDK calls, LED, PSU, component, module and EEPROM-field classes, the remaining CPLD attributes, fan duty tables and the other platforms: plumbing, one-branch facts, or repetitions of the D4 protocol.
