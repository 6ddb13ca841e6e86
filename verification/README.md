# Block Ack reordering and sessions of the MT7612U driver, verified

A Dafny model of the logic behind 802.11n Block Ack in `common/ba_action.c`, and of seven smaller
algorithms of the same driver: A-MSDU building, fragmentation, the TIM, the firmware checksum, the
intolerant-channel report, the PMKID cache and the busy-channel alarm. `dafny verify dfyconfig.toml`
checks everything.

## How the Block Ack part is built

| layer | modules | what it is |
|---|---|---|
| shared | `Basics` | octets, the wrapping clock comparison and what it means, remainders |
| numbers | `SeqNum` | the macros `SEQ_STEPONE` and `SEQ_SMALLER` on 12 bits, and what they mean on integers |
| specification | `ReorderSpec`, `ReorderEffects` | each operation of a recipient session as a function on values, using only the driver's own tests; conservation of packets and blocks; and what each event does in distances, elapsed time and list positions, without any of those tests |
| meaning | `ReorderModel`, `ReorderOrder`, `ReorderTheorems`, `ReorderExact`, `ReorderLogs`, `ReorderSystem` | a machine over unbounded integers whose queue is a map; the 12-bit session refines it over every run, and order, window and drain bounds follow; which runs keep them; many sessions in any interleaving |
| heap | `ReorderList`, `ReorderEngine` | the linked lists, the free-block pool and the methods of the receive path, each proved equal to its function in `ReorderSpec` |
| tables | `BaLinks`, `BaTableSpec`, `BaSessions` | the originator and recipient tables, slot arrays, bitmaps and counters under ADDBA, DELBA and timers |
| driver | `BlockAck`, `ReorderTrace`, `Adapter` | all entries over one pool, and the entry points that work on tables and reordering state together; each entry records the life of its session, so that the theorems about runs hold of the lists on the heap and of what went up. A set-up begins a life without events (`Began`), every frame, BlockAckReq and timer adds its event (`Took`), a teardown ends it; the contract of each entry point says so |

A run is *benign* when no frame bypasses the list from inside the window while the number after it
is queued (`ReorderTheorems.Benign`). This is wider than never taking the fallback branch of
`ba_enqueue_reordering_packet` (`Clean`): it also admits fallbacks beyond the window, and fallbacks
inside it with no successor queued. For the reordering invariant the condition is exact: a run is
benign if and only if the invariant holds after each of its prefixes (`ReorderExact.BenignExactly`).
For the order of announcements it is sufficient (`RunRefines`), and it cannot be dropped: every run
that is not benign has a prefix that, continued by two frames and an idle time-out, announces a
number after a later one (`ReorderExact.NotBenignDisorders`). A run that is not benign and ends
before that may still be in order.

## What the proofs found

- **Fallback inside the window.** An EAP frame, or a frame that finds no free block, leaves its queued
  successor behind `LastIndSeq` by one step; the successor is then announced too late
  (`ReorderTheorems.BypassExactly`, `ReorderExact.BadStepDisorders`).
- **Blocks of EAP frames.** An EAP frame that finds a free block keeps it for ever; the pool law has a
  third term for these blocks (`BlockAck.Receiver.PoolLaw`).
- **A-MSDU.** `AP_AMSDU_Frame_Tx` builds the header of every subframe but the first at
  `HeaderBuf[MT_DMA_HDR_LEN]`, while `RtmpUSB_WriteMultiTxResource` copies from the bottom of
  `HeaderBuf`. What arrives starts with the DMA descriptor of the first packet. `STA_AMSDU_Frame_Tx`
  builds at the bottom and is not affected. `Amsdu.RoundTrip` gives the exact condition for both, and
  `Amsdu.AccessPointRoundTrip` puts it in closed form: every later packet is an 802.3 frame whose
  header repeats the bytes of padding and descriptor.
- **TIDs 8 to 15.** ADDBA and DELBA frames and QoS headers carry four TID bits, no sanity test looks at
  them (common/cmm_sanity.c:146-223), and the slot arrays have eight places (include/rtmp.h:2383-2386).
  `BARecWcidArray[TID]` (common/ba_action.c:639) then reads `BAOriWcidArray[TID - 8]`, and
  `BAOriWcidArray[TID]` reads the always zero `BAOriSequence`. An ADDBA request with such a TID that is
  accepted leaves both session tables inconsistent; with a TID below 8 it never does
  (`BaTableSpec.NewSessionTid`, `OldSessionTid`). A DELBA with such a TID frees the entry it hits
  without its bitmap bit (`FreedAlone`); a data frame may be queued where no session is. Only
  `CntlEnqueueForRecv` tests for TIDs below 8.
- **802.3 frames.** A frame with a length field comes back from an A-MSDU exactly if the length is that of its
  data and the data does not itself look like an Ethernet II frame in LLC/SNAP; Ethernet II frames always do
  (`AmsduReceiver.FrameComesBack`).
- **TIM.** Octet 0 is lost exactly when it is in use and the next octet in use is octet 2 or later.
- **Checksum.** The result is the RFC 1071 checksum exactly when the plain sum of the words is below
  2^31; this covers all buffers up to 65537 bytes and is tight.
- **PMKID cache.** When the cache is full, the entry refreshed *last* is overwritten, not the oldest.
- **Alarm.** `QBSS_LoadAlarmReset` ends the hold-off but keeps the count of busy updates, so the next
  busy update raises another alarm at once.

## Model

| member | source | states |
|---|---|---|
| SeqNum.SmallerOfIntegers | include/mlme.h:765-766 | for integers less than half the number space apart, the bit-11 test on their 12-bit images is `<`, and the step test is "one more" |
| SeqNum.ClassifyIsByDistance | common/ba_action.c:1778-1834 | the five-way chain of bit tests is the partition of the forward distance d into d=1, d=0, d>=2048, 2<=d<=W and W<d<2048 |
| SeqNum.WindowTest | common/ba_action.c:1808-1811 | the in-window test against LastIndSeq+W+1 holds exactly for distances up to W |
| ReorderSpec.StepConserves | common/ba_action.c:1630-1835 | one event adds exactly the arriving packet to delivered, dropped and queued together, and keeps free + queued + lost blocks |
| ReorderSpec.RunConserves | common/ba_action.c:1630-1865 | packet conservation over every run, fallback branches included |
| ReorderSpec.ExactlyOneClass | common/ba_action.c:1630-1865 | if the offered packets are distinct, each is in exactly one of delivered, dropped and queued, once |
| ReorderSpec.EnqueueConserves | common/ba_action.c:1630-1688 | storing, dropping a duplicate and bypassing each place the packet in one class and lose no block unaccounted |
| ReorderSpec.RefreshEmpties | common/ba_action.c:372-392 | refresh announces exactly the queued packets, in list order, and leaves none |
| ReorderSpec.WindowKept | common/ba_action.c:616-697 | only the set-up of a session changes its window size |
| ReorderEffects.FrameEffect | common/ba_action.c:1758-1834 | from every state within the window, a frame restarts the timer and, by its distance ahead, is handed up with the run behind it (1), dropped and counted (0, or 2048 and more), stored at its place, dropped as a second copy, or handed up behind all not after it (2..W), or moves the window so that it is the last in it; state, lists, blocks and counters are given in full |
| ReorderEffects.TimerEffect | common/ba_action.c:396-448 | nothing happens within a tenth of a second of the last frame; after half a second two or more queued packets are all given up; in between, and for a single packet, one missing number is given up and the run behind it goes up; from every state within the window (`Good`), on a clock that wraps at 2^64, as long as no more than half of its range goes by |
| ReorderEffects.BarEffect | common/ba_action.c:1384-1389 | from every state within the window, a BlockAckReq 1..2048 ahead hands up exactly what is queued up to its number and moves LastIndSeq to the one before; any other does nothing; the waiting session follows it exactly below 2048 |
| ReorderEffects.RestartEffect | common/ba_action.c:372-392 | idle time-out and set-up hand up the whole list and make the session wait for a first frame |
| ReorderEffects.TimerRestarts | common/ba_action.c:1760-1795 | in every state: a frame sets LastIndSeqAtTimer to its time, a flush to the time of the flush, nothing else changes it |
| ReorderEffects.QuietAfterFrame | common/ba_action.c:1760-1761 | for a tenth of a second after any frame a time-out flush changes nothing |
| ReorderEffects.GivenUpExactly | common/ba_action.c:411-419 | in every state with two or more packets queued the flush starts the session over if and only if more than half a second has gone by |
| Basics.AfterMeans | include/os/rt_linux.h:362-365 | the signed comparison of wrapped clocks is "more than this many ticks have gone by" |
| ReorderModel.RepAscending | common/ba_action.c:128-155 | a list that stands for a map of integers is strictly ascending in distance and has no duplicate |
| ReorderModel.InsertMatches | common/ba_action.c:128-155 | the sorted insertion is insertion into the map, and a duplicate is found exactly when the number is in it |
| ReorderModel.EmitMatches | common/ba_action.c:343-369 | flushing "less or equal" announces exactly the map's entries up to that number, in order, although the order test is not transitive in general |
| ReorderModel.AdvanceMatches | common/ba_action.c:310-340 | in-order release announces exactly the maximal run of consecutive integers after the last one |
| ReorderModel.ImageTimeout | common/ba_action.c:396-448 | each branch of the time-out flush is the corresponding integer operation |
| ReorderOrder.OrderAccept | common/ba_action.c:1765-1834 | accepting a frame keeps all announcements of the stretch in order |
| ReorderOrder.OrderMoveTo | common/ba_action.c:1384-1389 | a BlockAckReq keeps them in order; only its own start may come again |
| ReorderTheorems.StepRefines | common/ba_action.c:1710-1865 | every benign event of the 12-bit session is a step of the integer machine |
| ReorderTheorems.RunRefines | common/ba_action.c:1710-1865 | so is every benign run from a fresh session, and its announcements are in order |
| ReorderTheorems.ReorderInvariant | common/ba_action.c:1765-1834 | in every reachable state the list is strictly ascending, every number 2..W ahead of LastIndSeq, the length at most W, and a resting session queues nothing |
| ReorderTheorems.AnnouncedInOrder | common/ba_action.c:1710-1835 | what a benign run passes up carries integer labels, congruent to the sequence numbers, that never decrease between two resets; a repeat is the last BlockAckReq's start or a bypassing frame |
| ReorderTheorems.CleanRunInOrder | common/ba_action.c:1710-1835 | in a run that never takes the fallback branch the labels never decrease between two resets, and the only one that can repeat is the last BlockAckReq's start |
| ReorderTheorems.CleanRunStrictlyIncreasing | common/ba_action.c:1710-1835 | with no BlockAckReq and no fallback the labels strictly increase between two resets |
| ReorderTheorems.BeyondWindowExactly | common/ba_action.c:1813-1834 | a frame d>W ahead first flushes exactly the queued numbers at distance up to d-W and then stands last, at distance W |
| ReorderTheorems.MidStepWindow | common/ba_action.c:1670-1671 | the list is within the window right after the insertion too, in the fourth and the fifth branch |
| ReorderTheorems.ExpiryCloser | common/ba_action.c:420-446 | a "flush one" expiry on a non-empty list brings every queued number one closer |
| ReorderTheorems.Drains | common/ba_action.c:396-448 | from every reachable state of a benign run, W-1 expiries with no arrival empty the list |
| ReorderTheorems.BypassExactly | common/ba_action.c:1673-1687 | after a fallback inside the window the list is ascending at distances 1..W, and the full invariant survives if and only if the successor number was not queued |
| ReorderTheorems.BypassBreaksOrder | common/ba_action.c:1673-1687 | a concrete run that breaks the condition and announces 13 after 14 |
| ReorderExact.BenignExactly | common/ba_action.c:1710-1865 | for every run whose set-ups install windows of 1..255: it is benign if and only if the reordering invariant holds after every prefix |
| ReorderExact.BadStepDisorders | common/ba_action.c:1673-1687 | from every state of a benign run and every frame n that is not benign, the frames n+1 and n+2 and an idle time-out announce the queued n+1 after n+2, at any tick rate whose time-outs are below half the clock range |
| ReorderExact.NotBenignDisorders | common/ba_action.c:1673-1687 | hence every run that is not benign has a prefix with such a continuation |
| ReorderLogs.InOrderSinceSetup | common/ba_action.c:616-697 | from its set-up on, what any session announces carries the labels that the integer machine gives it in its run, and they are in order, whatever the entry was used for before |
| ReorderSystem.Independent | common/ba_action.c:285-307 | in any interleaving of all sessions, each lives exactly a run of its own in which the others only change the number of free blocks |
| ReorderSystem.InterleavedInOrder | common/ba_action.c:1710-1835 | its part of the log that all sessions share carries the labels that the integer machine gives it in its own run, these are in order, and its list satisfies the reordering invariant |
| ReorderList.MpduList.Push | common/ba_action.c:159-165 | the block becomes the head; the chain, qlen and node sequence agree |
| ReorderList.MpduList.Pop | common/ba_action.c:168-185 | the head leaves, or null comes back exactly for the empty list |
| ReorderList.MpduList.InsertSorted | common/ba_action.c:128-155 | splicing through the pointers gives the list with the packet inserted at its place; a duplicate number changes nothing |
| ReorderEngine.RecEntry.IndicateLe | common/ba_action.c:343-369 | the loop announces the prefix given by the specification and every block goes back to the pool |
| ReorderEngine.RecEntry.IndicateInOrder | common/ba_action.c:310-340 | likewise for the maximal in-order prefix, and the result is its last number |
| ReorderEngine.RecEntry.FlushTimeout | common/ba_action.c:396-448 | the time-out flush equals its specification, which `ReorderEffects.TimerEffect` describes |
| ReorderEngine.RecEntry.EnqueuePacket | common/ba_action.c:1630-1688 | storing or bypassing equals its specification; blocks only move between list, pool and lost |
| ReorderEngine.RecEntry.Indicate | common/ba_action.c:1765-1835 | the whole handling of a frame on the heap equals its specification, which `ReorderEffects.FrameEffect` describes, restarts the timer, and no block is on two lists |
| ReorderEngine.RecEntry.BlockAckReq | common/ba_action.c:1374-1391 | the handling of a BlockAckReq equals its specification, which `ReorderEffects.BarEffect` describes |
| ReorderEngine.RecEntry.Discard | common/ba_action.c:202-234 | resource release drops exactly the queued packets and returns their blocks |
| BaLinks.LinkedBind | common/ba_action.c:487-532 | binding a free entry to an empty slot keeps the two-way linking of table and slot arrays |
| BaLinks.LinkedFree | common/ba_action.c:765-827 | freeing a live entry clears its own slot and keeps the linking |
| BaLinks.Bijection | include/rtmp.h:2383-2384 | no two live entries belong to the same station and TID: live entries and non-zero slots correspond one to one, and the counter is the number of either |
| BaLinks.FreeFlagExists | common/ba_action.c:700-762 | the pigeonhole that keeps the allocator loops from falling through |
| BaTableSpec.OriOpened | common/ba_action.c:487-532 | starting a session keeps links, bitmap, counters and tokens consistent |
| BaTableSpec.OriTicked | common/ba_action.c:1049-1084 | a retry sends the next token: the tokens sent stay 1, 2, .. below the entry's token, at most 7 of them |
| BaTableSpec.OriConfirmed | common/ba_action.c:536-613 | the response marks exactly this session done in bitmap and counter, within the window limit |
| BaTableSpec.OriFreed | common/ba_action.c:765-799 | freeing keeps the table consistent, done or not |
| BaTableSpec.RecOpened | common/ba_action.c:640-690 | accepting a session marks exactly it in the bitmap and counts it |
| BaTableSpec.RecClosed | common/ba_action.c:802-827 | closing one undoes that and keeps the table consistent |
| BaTableSpec.RequestSent | common/ba_action.c:1064-1077 | one more request to the MLME keeps the tokens recorded for each session equal to those in the request log since it began |
| BaTableSpec.TokensInOrder | common/ba_action.c:1049-1084 | what the MLME was handed for a session since its set-up has the tokens 1, 2, .. in order, one below the entry's token, at most 7 |
| BaTableSpec.NewSessionTid | common/ba_action.c:640-690 | a new recipient session for any four-bit TID keeps the tables consistent if and only if the TID is below 8; otherwise it spoils both |
| BaTableSpec.OldSessionTid | common/ba_action.c:639-690 | so does one that finds an entry in use |
| BaTableSpec.FreedAlone | common/ba_action.c:802-827 | freeing a recipient entry without clearing its bitmap bit leaves the table inconsistent |
| BaTableSpec.LargestIs | common/ba_action.c:53-103 | the originator's window is the largest one within the configured limit, one less than the peer's buffer, the room of the peer's A-MPDU exponent, and the chip's 47, 31 or 20 |
| BaTableSpec.NegotiatedIs | common/ba_action.c:632-636 | the recipient's window is the lesser of what the peer asked for and the adapter allows, or 64 |
| BaSessions.BaTable.constructor | common/mlme.c:3025-3043 | the initial tables are consistent |
| BaSessions.BaTable.AllocOri | common/ba_action.c:735-762 | success exactly when an entry is free, and then the first free entry, never a used one |
| BaSessions.BaTable.SetUp | common/ba_action.c:455-533 | when a session starts, and exactly what changes if it does; its tokens are counted from here |
| BaSessions.BaTable.AddOri | common/ba_action.c:536-613 | for every four-bit TID: only a waiting session becomes done; its window is the largest within the configured limit, max(0, peer buffer - 1), the peer's A-MPDU exponent and the chip |
| BaSessions.BaTable.FreeOri | common/ba_action.c:765-799 | exactly this entry, its slot and its bitmap bit are released; counters follow |
| BaSessions.BaTable.TearDownOri | common/ba_action.c:830-912 | for every four-bit TID, who is told by DELBA and what is released, including the failed allocation |
| BaSessions.BaTable.SetupTimeout | common/ba_action.c:1023-1084 | the timer fires only on a waiting entry; below 8 it hands the next token to the MLME, at 8 it frees the entry |
| BaSessions.BaTable.AllocRec | common/ba_action.c:700-732 | the same as AllocOri for recipients |
| BaSessions.BaTable.OpenRecBeyond | common/ba_action.c:616-697 | what a session with a TID of 8 to 15 writes, and that the tables are then inconsistent |
| BaSessions.BaTable.FreeRecAlone | common/ba_action.c:802-827 | what a teardown with such a TID frees |
| BaSessions.BaTable.PeerAddBaRsp | common/ba_action.c:1258-1299 | for every four-bit TID, success completes exactly a waiting session, with that largest window, any other status releases exactly this session, status 37 is remembered, and nothing else changes |
| BlockAck.Receiver.IndicateAt | common/ba_action.c:1765-1835 | a frame on one entry keeps the laws of all: free + queued of every session + lost = initial blocks, no block on two lists, delivered + dropped + queued = received |
| BlockAck.Receiver.BarAt | common/ba_action.c:1374-1391 | so does a BlockAckReq |
| BlockAck.Receiver.DiscardAt | common/ba_action.c:202-234 | so does releasing one entry |
| Adapter.Driver.Indicate | common/ba_action.c:1710-1835 | a frame with any four-bit TID is dropped, handed straight up, or handled by the entry its station and TID lead to, every other entry untouched, its timer restarted and the frame added to its life; received packets stay accounted for, and the invariant holds if and only if the entry has a session or an empty list, so always below TID 8 |
| Adapter.Driver.BlockAckReq | common/ba_action.c:1334-1393 | a request is refused exactly when the driver halts, its length is wrong, or it is outside the tables, and then changes nothing; any other equals the specification on the entry it leads to, is added to its life, and touches no other |
| Adapter.Driver.Maintain | common/ba_action.c:1840-1865 | the two loops flush every session of a station in use once, by the time that has gone by for it (given up, one number forced, or left alone), and leave every other session as it was, which holds of their lives and of their parts of the log too; nothing is dropped |
| Adapter.Driver.IdleTimeout | common/ba_action.c:1102-1128 | an accepted session idle for more than 1000 ticks, and only such, is refreshed, and its life gains that event |
| Adapter.Driver.TearDownRec | common/ba_action.c:915-994 | what is queued goes up, and nothing is dropped, before the entry, slot and bitmap bit are released; nothing changes if the message cannot be allocated; with a TID of 8 to 15 only the entry it hits is freed, consistent if and only if that had no session; a session's end is the end of its life and touches no other entry |
| Adapter.Driver.SessionAdd | common/ba_action.c:616-697 | for every four-bit TID: the window is the lesser of the low octets of the peer's buffer size and the adapter's limit, or 64 if one is 0; an existing session hands up what it queued and is reset, a new one takes a free entry, either way a life without events begins; a full table changes nothing; the invariant holds afterwards if and only if the TID is below 8 or nothing was opened |
| Adapter.Driver.PeerAddBaReq | common/ba_action.c:1131-1255 | for every four-bit TID the status code of each case; the announced buffer size is the lesser of the peer's and the adapter's, or 64, and on success the window installed; the invariant holds afterwards if and only if the TID is below 8 or the request was refused |
| Adapter.Driver.PeerDelBa | common/ba_action.c:1301-1331 | a DELBA releases exactly the named side of the session, handing up what was queued; the other side is untouched and no DELBA is sent back; with a TID of 8 to 15 as for TearDownRec |
| Adapter.Driver.TearDownOri | common/ba_action.c:830-912 | the originator teardown, for every four-bit TID, leaves the recipient side and the reordering state untouched |
| Adapter.Driver.TearDownAll | common/ba_action.c:997-1006 | if messages can be allocated, the station keeps no session in either role, a DELBA goes out for exactly its done originator sessions and its recipient sessions, in the order of TIDs, its lists are empty and all they held went up; nothing is dropped in any case, and all other sessions stay as they were, lists, lives and log |
| Adapter.Driver.SessionInOrder | common/ba_action.c:1710-1835 | in every reachable state of the driver: if the life of a session is benign (the events that the contracts of SessionAdd, Indicate, BlockAckReq, Maintain and IdleTimeout have added since its set-up), its list on the heap satisfies the reordering invariant, and its part of what really went up carries the integer machine's labels, in order |
| ReorderTrace.LifeInOrder | common/ba_action.c:1710-1835 | the theorems about runs, for any session that is where its life leads |
| Adapter.Driver.ResourceRelease | common/ba_action.c:202-234 | afterwards nothing is queued, no life goes on, every block not lost to an EAP frame is free, and delivered + dropped = received |
| Amsdu.RoundTrip | ap/ap_data.c:1129-1226 | a parser of IEEE Std 802.11-2012, section 8.3.2.2, recovers exactly the packets from what is on the pipe if and only if every packet fits the length field and every later header survives the offset |
| AmsduReceiver.FrameComesBack | include/rtmp.h:422-437 | a receiver that strips LLC/SNAP under the OUI 00-00-f8 for types 8137 and 80f3 and 00-00-00 for all others gets a frame back, addresses, type and data, if and only if it is Ethernet II, or its length field is right and its data does not look encapsulated |
| AmsduReceiver.DeliveredExactly | ap/ap_data.c:1129-1226 | that receiver hands up exactly the frames that were sent if and only if each is such a frame and fits, and every later header survives |
| AmsduReceiver.DeliveredAtBottom | sta/rtmp_data.c:1613-1693 | built at the bottom, if and only if each is such a frame and fits |
| AmsduReceiver.DeliveredByAccessPoint | ap/ap_data.c:1129-1226 | in access point mode, if and only if moreover every later one is an 802.3 frame whose addresses and length are octet for octet those of descriptor and padding |
| Amsdu.UsableAre | ap/ap_data.c:1140-1160 | exactly the usable packets of a batch are sent, as often as they come |
| Amsdu.SurvivorsAre | common/cmm_data_usb.c:606-616 | a header survives if and only if it has no LLC/SNAP and repeats, cyclically, the padding and the descriptor |
| Amsdu.AccessPointRoundTrip | ap/ap_data.c:1129-1226 | in access point mode, for any mix of packets, they are recovered if and only if each fits and every one after the first has the addresses and length that padding and descriptor spell |
| Amsdu.RoundTripAtBottom | sta/rtmp_data.c:1613-1693 | built at the bottom of the header buffer, it recovers them if and only if each fits |
| Amsdu.OnlySingletonsSurvive | ap/ap_data.c:1181-1189 | in access point mode, for Ethernet II packets, it recovers them if and only if there is one |
| Amsdu.TwoPacketsGarbled | ap/ap_data.c:1181-1189 | the smallest case that fails |
| Amsdu.EncapsulatedIsLost | common/cmm_data_usb.c:606-616 | no header with LLC/SNAP survives the descriptor in front of it |
| Amsdu.Aligned | ap/ap_data.c:1184-1188 | every subframe starts at a multiple of four from the first and, if its header survives, is header and data of its packet |
| Amsdu.TxBlock.BuildSubframe | ap/ap_data.c:1195-1224 | the in-place writes leave the subframe header and encapsulation at their place and nothing else changed |
| Amsdu.TxBlock.FrameTx | ap/ap_data.c:1129-1283 | what the loop puts on the pipe, unusable packets skipped, and the total: 802.11 header plus all subframes and paddings, as an unsigned short |
| Fragment.FragmentFrame | ap/ap_data.c:1826-1950 | the bodies concatenate to the payload, every fragment but the last is exactly the threshold long, More Fragments is clear only on the last, TotalFragNum is its index in eight bits, and the count is the least possible |
| Fragment.AppendFragment | ap/ap_data.c:1880-1940 | one more fragment keeps the fragmentation, although the header shrinks after the first |
| Fragment.NeededIsCeiling | ap/ap_data.c:1846-1950 | with equal fragments the count is the length divided by their size, rounded up |
| Fragment.SentIs | ap/ap_data.c:1826-1950 | the number of fragments of any frame, with any extra header octets and with or without LLC/SNAP, is a rounded-up quotient |
| Fragment.EnoughExactly | ap/ap_data.c:298-303 | for QoS, VLAN-tagged and TKIP frames too: the estimate suffices if and only if what is sent is at most the estimate times the room left by the extra octets |
| Fragment.EstimateIs | ap/ap_data.c:298-303 | for a plain data frame the estimate is the number of fragments sent, plus one exactly when the fragment payload divides the size (modulo 256) |
| Tim.UpdateTim | ap/ap_connect.c:345-387 | a receiver sees only marked stations, and all of them if and only if octet 0 is not lost; offset and length are the standard's (IEEE Std 802.11-2012, section 8.4.2.7) when octet 0 is unused |
| Tim.Meaning | ap/ap_connect.c:345-387 | the same of any element with the octets the scan selected |
| Tim.BitsSpell | ap/ap_connect.c:345-387 | bit k of an octet is its binary digit of weight 2^k |
| Tim.Scan | ap/ap_connect.c:350-370 | what TimFirst and TimLast are after the loop |
| Checksum.Checksume16 | btmtk_usb/btmtk_usb.c:235-257 | the result is the RFC 1071 checksum if and only if the sum of the words is below 2^31 |
| Checksum.SealedSum | btmtk_usb/btmtk_usb.c:235-257 | a buffer followed by its checksum, low octet first, sums to all ones |
| Checksum.FoldAll | btmtk_usb/btmtk_usb.c:253-254 | the folding loop ends, from any accumulator, with the value modulo 65535 in 16 bits |
| Checksum.OnesSumIs | btmtk_usb/btmtk_usb.c:235-257 | end-around carry at every word is the plain sum less a multiple of 65535 |
| Checksum.ShortBuffers | btmtk_usb/btmtk_usb.c:235-257 | 65537 bytes never reach 2^31 |
| Checksum.BoundIsTight | btmtk_usb/btmtk_usb.c:235-257 | 65538 bytes can |
| IntolerantReport.RoundTrip | common/action.c:510-571 | a parser of IEEE Std 802.11-2012, section 8.4.2.60, finds exactly the (class, channel) pairs of the valid events with a listed class, each once |
| IntolerantReport.ChannelsAre | common/action.c:530-547 | the channel list of a class has each channel of its valid events once |
| IntolerantReport.ReportFits | common/action.c:552-563 | the report is at most three octets a class and one an event long |
| IntolerantReport.TriggerEventTab.Collect | common/action.c:530-550 | the inner loops compute that list and invalidate exactly the events of the class |
| IntolerantReport.TriggerEventTab.Build | common/action.c:510-571 | the bytes written are the report, their number is returned, nothing else is written, and exactly the events of the listed classes become invalid |
| PmkidCache.LookupAfter | ap/ap_wpa.c:931-1059 | rewriting a slot keeps one slot per address and changes the map at no other address |
| PmkidCache.Cache.Search | ap/ap_wpa.c:995-1022 | finds the slot of the address, or reports -1 exactly when the map has none |
| PmkidCache.Cache.Add | ap/ap_wpa.c:931-993 | one slot is rewritten: the address's own, else the first free one, else the one refreshed last; so the address has the new key and all others keep theirs, except for that one victim of a full cache |
| PmkidCache.Cache.Choose | ap/ap_wpa.c:970-982 | which slot the victim loop picks, refresh times of zero included |
| PmkidCache.Cache.Delete | ap/ap_wpa.c:1024-1036 | removes exactly this slot's address |
| PmkidCache.Cache.Maintain | ap/ap_wpa.c:1046-1057 | exactly the slots expired by the clock as read for each become invalid |
| PmkidCache.AgedIs | ap/ap_wpa.c:1050-1054 | a slot in use stays so if and only if no more ticks than the period have gone by since its refresh |
| PmkidCache.MaintainAll | ap/ap_wpa.c:1038-1059 | so in every BSS, by its own period |
| QloadAlarm.LimitExactly | ap/ap_qload.c:230-238 | the threshold is the asked-for share of the period in microseconds, in steps of 1024, if and only if nothing exceeds 32 bits |
| QloadAlarm.PeriodExactly | ap/ap_qload.c:573-576 | the period is the elapsed time in milliseconds if and only if it fits 32 bits |
| QloadAlarm.BusyExactly | ap/ap_qload.c:568-660 | an update finds the channel busy if and only if it is looked at and a channel in use was busy for that share of the time since the last update |
| QloadAlarm.UpdateJudges | ap/ap_qload.c:684-735 | what an update makes of count, hold-off, alarm number, bandwidth and suspension, for a busy and for an idle channel |
| QloadAlarm.OtherEvents | ap/ap_qload.c:328-340 | what reset, clear, resume and the settings change, field by field |
| QloadAlarm.AlarmEndsStreak | ap/ap_qload.c:684-712 | every alarm of every run ends a gapless run of at least max(1, threshold) updates over the busy threshold |
| QloadAlarm.AlarmsAreSpaced | ap/ap_qload.c:700-727 | two alarms with no reset between them are at least 98 + max(1, threshold) effective updates apart |
| QloadAlarm.SustainedLoad | ap/ap_qload.c:684-727 | under unbroken load the next alarm comes exactly at that distance |
| QloadAlarm.ResetRearms | ap/ap_qload.c:328-340 | after a reset the next update over the threshold raises an alarm, if and only if the eight-bit count does not wrap |
| QloadAlarm.HoldsOff | ap/ap_qload.c:714-727 | where the hold-off stands after any undisturbed run without alarm |
| QloadAlarm.Monitor.LoadUpdate | ap/ap_qload.c:549-735 | the update on the adapter's fields is the step of the state machine |
| QloadAlarm.Monitor.LoadAlarmReset | ap/ap_qload.c:328-340 | likewise for the reset |

## Left out

- FragmentFrame: with an LLC/SNAP header the payload must need at most 256 fragments; beyond that the 8-bit fragNum wraps and the LLC/SNAP bytes are taken off the header again. An MSDU is far below this for every threshold the driver accepts.
- EstimateIs: the exact difference is stated for plain data frames; for QoS, VLAN-tagged and TKIP frames `EnoughExactly` says when the estimate suffices. Which octets those frames add is a parameter.
- FrameTx: cached rates, traffic counters and the TXWI contents; `front` stands for TXWI, 802.11 header and its alignment.
- Locks, interrupt context and allocation: a locked section is one step, and `kmalloc` succeeds or fails by a parameter.
- Clocks and timers: the time is a parameter, and a set-up timer fires only while its entry has it armed. `unsigned long` is 64 bits wide.
- Frame transmission: ADDBA, DELBA and data frames are appended to a log; MLME queues and header macros are not modelled.
- The conversion of a packet handed up (LLC removal, A-MSDU deaggregation, VLAN insertion): a packet keeps its identity.
- TIDs 8 to 15: what such a frame does is stated in full for one call from a consistent state; runs that continue from the inconsistent tables are not followed.
- The write `TXBAbitmap = 0` in ap/ap_assoc.c:1099, and all other changes of the Block Ack fields from outside common/ba_action.c.
- TimeOutValue, Sequence, amsdu_cap and rcvSeq of the table entries, which no modelled decision reads.
- Station mode of the set-up timer (postponing while a scan is in progress), SOFT_ENCRYPT builds, sounding, and the PEER_DELBA_TX_ADAPT option.
- The contents of the beacon other than the TIM, and the host-side byte order of the DMA descriptor on big-endian machines.
- TriEventTableSetEntry, which fills the trigger event table, and the frame around the report.
- The channel-utilisation average, the busy-time histogram and the disassociation of stations in ap/ap_qload.c.
- The loop of btmtk_usb_load_rom_patch that sends the firmware patch to the device in pieces, and the request for the device's own checksum.
