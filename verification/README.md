# A verified model of the matrix network coding stack

The repository is the Linux mac80211 stack with a matrix network coding layer added to it. This project
models the parts of it that are hardest to get right and proves what they are for. `dafny verify
dfyconfig.toml` checks everything.

- **The matrix network codec** (`gf.c`, `mnc_tx.c`, `mnc_rx.c`). `Gf.dfy` proves that the log and antilog
  tables implement the field of section 4.2 of FIPS 197. `Linear`, `Lu` and `Solve` prove the in-place LU
  factorisation with row pivoting, the rank test and the substitution, over any field. `Packets`, `Encoder` and
  `Decoder` tie the packet layout to these and end in the round trip: decoding gives back exactly the originals
  that did not arrive in the clear. `GenList`, `Receiver`, `RxNode` and `Delivery` follow the receiver packet by
  packet, down to its linked list, and prove what it delivers over whole runs, until three later generations have
  completed; `Progress` proves that the k-th packet of a generation completes it exactly if the k packets determine
  the originals. `Codec` states the results for bytes. `Picks` says what it means to keep some items in order.
- **Mesh peering** (`mesh_plink.c`). `Plink` holds the rules for one peer. `Peering` lets two nodes run them over
  a channel that loses, repeats and reorders frames and proves that established nodes agree on their link ids, and
  exactly when a link id may be drawn a second time. `Handshake` proves that an entry is established exactly when both
  an Open and the matching Confirm have been heard, in either order, whatever else arrives.
  `MeshNode` is an interface with many peers: the established count, distinct link ids, and routes that only ever
  lead to established peers (`mesh_hwmp.c`).
- **TX Block-Ack sessions** (`agg-tx.c`, `ht.c`). `BlockAck` proves safety and frame conservation over every
  interleaving of handlers; `AggTx` is the code that changes the session objects, which keep the same invariant and
  follow every run.
- **The mesh path table** (`mesh_pathtbl.c`). `PathTbl` proves that the growing hash table is a map.
- **Keys** (`key.c`), **AES-CMAC** (`aes_cmac.c`, against RFC 4493) and the **recent multicast cache** (`mesh.c`)
  are in `Keys`, `Cmac` and `Rmc`.

Handlers are atomic steps. Random bytes, allocation results, driver and hardware answers, signal strength and
time are parameters, and every theorem holds for all of their values. The codec is generic in the field, which is
a record of operations that `Gf.GfIsField` instantiates with the tables; this keeps bytes and tables out of the
linear algebra.

Results that differ from what one might expect of the code:

- A start callback that the driver delivers after a stop makes a stopping session operational. `CallbackHonestIff`
  gives the exact condition and `LateCallback` a run that reaches it.
- Frames held by a Block-Ack session are not always kept: the TX path drops the oldest once it holds 64
  (`tx.c:1112-1114`). `HandledInv` gives the exact condition for every event and `NothingLostIff` for whole runs;
  `OverflowLosesFirst` is a run that loses one.
- A mismatching configuration of a known peer is not rejected, because the verdict of `mesh_plink.c:951-969` is
  overwritten by the tests after it. `RejectedIff` says when a frame is rejected, `KnownPeerMismatchIgnored` that a
  known peer's configuration never matters, and `MismatchEstablishes` that two such nodes establish a link.
- The buffer size of an ADDBA response is ten bits cut to eight (`agg-tx.c:920-924`). `SuccessDeclinesIff` says that
  a successful response is taken as a refusal exactly when the size is a multiple of 256, and `Size256Declines` gives
  the run for 256.
- A node may draw a link id that it used before, and then agreement can fail (`ReuseDisagrees`). `PeeringAgreement`
  needs only that no Confirm of an earlier link with that id can still arrive, and `DrawSafeIff` shows that this is
  the exact condition.
- A repeated multicast frame can pass the recent multicast cache within the timeout. `RepeatReportedIff` and
  `ReportedIff` give the exact condition, and `ThreeNewerHide` a run.

## Model

| member | source | states |
|---|---|---|
| `Gf.GmulIsProduct` | gf.c:81-107 | table multiplication is the carry-less product modulo the polynomial of FIPS 197, for all bytes |
| `Gf.AtableStep` | gf.c:46-79 | each entry of the antilog table is the previous one times the generator 0xe5 |
| `Gf.TablesInvert` | gf.c:11-79 | the antilog of the log of every nonzero byte is that byte |
| `Gf.GdivUndoesGmul` | gf.c:109-121 | dividing undoes multiplying by every nonzero byte |
| `Gf.GfIsField` | gf.c:3-121 | the table arithmetic is a field: commutative, associative, units, distributive, with inverses |
| `Linear.DotLinear` | mnc_tx.c:106-116 | linear combinations of any length are additive and homogeneous |
| `Lu.LuFac` | mnc_rx.c:472-531 | for every square matrix, L is unit lower triangular, U upper triangular, pivot a permutation, row i of L·U is row pivot[i] of the input, and unit rows are never moved |
| `Solve.RankTest` | mnc_rx.c:370-388 | no pivot is zero if and only if the coefficient matrix is invertible |
| `Solve.SolutionIsTheOne` | mnc_rx.c:432-454 | with full rank, substitution gives the one and only x with A·x = b |
| `Solve.Substitute` | mnc_rx.c:432-454 | the loops over the permuted right side compute that solution |
| `Solve.ZeroPivotIsSingular` | mnc_rx.c:370-378 | a zero pivot means that some nonzero vector, which is given, is sent to zero, so no inverse exists |
| `Encoder.CalData` | mnc_tx.c:106-116 | adds a coefficient block times a data block to the output, in place |
| `Encoder.MakeSkbNew` | mnc_tx.c:117-232 | the packet carries its coefficients and the combination of all originals with them; it is refused exactly for an empty generation or a failed copy |
| `Encoder.EnqueueSkbOriginal` | mnc_tx.c:234-311 | every original goes out once, unchanged, with its own index, up to the first failed copy |
| `Encoder.Sender.EncodingTx` | mnc_tx.c:321-377 | all packets of the call belong to the current generation and are made from its originals, originals first; each coded packet begins with a draw of its own, in the order of the draws whose copy succeeded; the id steps and never becomes 0 |
| `Encoder.SuccessesAre` | mnc_tx.c:209-214 | the draws that are used are exactly those whose copy succeeded |
| `Encoder.IdsReturn` | mnc_tx.c:371-374 | a generation id returns after exactly 255 generations |
| `Decoder.TakeSystematic` | mnc_rx.c:301-321 | sorts systematic packets into their slots, and gives up if and only if an index comes twice, then dropping exactly the first packet that doubles an index |
| `Decoder.FillCoefficients` | mnc_rx.c:344-365 | rebuilds the coefficient matrix from the headers |
| `Decoder.OriginalsSolve` | mnc_tx.c:199-231 | whatever the coefficients, the originals solve the equations that the receiver sets up |
| `Decoder.SkbSubsti` | mnc_rx.c:413-464 | every block of the output solves the equations of that block |
| `Decoder.SystematicNotEmptied` | mnc_rx.c:370-378 | no zero pivot names a systematic packet, so the rank test drops none |
| `Decoder.RankDeficientRetains` | mnc_rx.c:380-388 | a rank-deficient attempt leaves fewer than k packets and all systematic ones |
| `Decoder.SkbsDecoding` | mnc_rx.c:272-411 | an attempt succeeds if and only if no index is doubled and the matrix is invertible; its output in index order, and what it leaves queued otherwise: the packets that no zero pivot names |
| `Decoder.RoundTrip` | mnc_rx.c:396-411 | decoded payloads that satisfy invertible equations are the originals |
| `Decoder.DecodeReturnsOriginals` | mnc_rx.c:399-411 | a successful decode yields the originals at strictly increasing positions, and these are exactly the indices that were not received systematically |
| `Decoder.MissingInOrder` | mnc_rx.c:399-403 | the packets passed on are those of the slots that were empty, in increasing order |
| `Codec.ByteRoundTrip` | mnc_rx.c:272-464 | the same for bytes with the tables of gf.c: decoding undoes encoding, in index order |
| `GenList.MncQueueHead.Insert` | mnc_rx.c:239-255 | appends to the doubly linked list; prev and next agree and qlen is the length |
| `GenList.MncQueueHead.Free` | mnc_rx.c:206-237 | unlinks one generation; prev and next agree and qlen is the length |
| `GenList.MncQueueHead.FindEid` | mnc_rx.c:257-270 | finds the first generation with the id, or none exists |
| `GenList.MncQueueHead.CheckEtime` | mnc_rx.c:167-185 | removes exactly the generations older than ETIMEOUT and keeps the order of the rest |
| `GenList.FreshInOrder` | mnc_rx.c:167-185 | what stays stands at strictly increasing positions, exactly those of the generations that are young enough |
| `Receiver.StepSound` | mnc_rx.c:87-158 | every packet keeps generation ids unique and every generation short of k packets |
| `RxNode.RxState.DecodingTry` | mnc_rx.c:33-164 | the handler over the linked list is exactly one step of the receiver, for which progress and delivery are proved; what it adds to the list is newly made |
| `RxNode.RxState.ReceiveAll` | mnc_rx.c:33-164 | the handler over any packets, one after the other, is a run of the receiver, so that all results about runs hold of the linked list |
| `Delivery.StepTracked` | mnc_rx.c:87-158 | one packet of any generation keeps the account of what was delivered of a given one, unless it pushes that one off the list of completed ids |
| `Delivery.DeliveredOnce` | mnc_rx.c:87-158 | over every fair run, until three generations have completed after the target, each original is delivered at most once, and each exactly once from completion on |
| `Delivery.ForgottenSlowly` | mnc_rx.c:156-158 | over every run, a completed id is at the place that the number of later completions says, for fewer than three |
| `Delivery.ForgottenAtThird` | mnc_rx.c:156-158 | the third later completion pushes it off |
| `Codec.ByteDelivery` | mnc_rx.c:33-164 | delivery for bytes from the receiver's initial state, until three later generations complete |
| `Progress.Completes` | mnc_rx.c:87-158 | over every run, asked of the arrivals only: if the first k packets of a generation come in time, have distinct systematic indices and an invertible matrix, the k-th completes it at once and by then every original has been delivered exactly once |
| `Progress.CompletesIff` | mnc_rx.c:124-158 | the k-th packet completes its generation if and only if the packets are decodable; otherwise no generation completes |
| `Progress.KthDecides` | mnc_rx.c:124-158 | the same in any state, also after attempts that failed |
| `Progress.SlottedOnce` | mnc_rx.c:301-341 | the arrangement of packets in slots is determined by the packets |
| `Progress.SystematicRunCompletes` | mnc_rx.c:124-128 | any k systematic packets with distinct indices that come in time complete their generation, with nothing left to decode |
| `Codec.ByteProgress` | mnc_rx.c:33-164 | progress for bytes from the receiver's initial state |
| `Peering.OutcomeMoves` | mesh_plink.c:905-1086 | what any frame, timer, beacon or removal can do to the link and peer ids |
| `Peering.StepKeepsInv` | mesh_plink.c:751-890 | every step of either node and every loss of frames keeps the invariant about ids, confirmations and their order of birth |
| `Peering.PeeringAgreement` | mesh_plink.c:751-1086 | in every run with loss, duplication and reordering, two established nodes have each other's link ids, also when ids come back that are free |
| `Peering.UnusedIsFree` | mesh_plink.c:656-667 | an id that the node has not used is free, so runs without reuse are among these |
| `Peering.DrawSafeIff` | mesh_plink.c:656-667 | while the other node is established, drawing an id is safe for all that may follow if and only if it is free |
| `Peering.ReuseDisagrees` | mesh_plink.c:656-667 | for all ids, a run after which drawing an id a second time can end in disagreement |
| `Peering.HandshakeCompletes` | mesh_plink.c:766-846 | without loss, a beacon and four frames establish the link on both sides, for all ids |
| `Handshake.EstabIffBoth` | mesh_plink.c:766-846 | an entry in OPN_SNT after any frames that do not end the link is established if and only if both an Open and the Confirm of its id were heard from its peer, in any order and number; after one alone it is in OPN_RCVD or CNF_RCVD |
| `Handshake.AnswersOpens` | mesh_plink.c:782-846 | meanwhile each Open that is heard is answered with a Confirm of both ids, and nothing else is answered |
| `Handshake.PeerEstablishes` | mesh_plink.c:766-846 | with a peer of one link id, one Open and one Confirm in either order are what it takes |
| `Handshake.EndedIsHeld` | mesh_plink.c:853-880 | the Close that ends the link is answered and the entry held; then Opens and Confirms get a Close, and the timer or a Close with the right ids clears it |
| `Handshake.UnansweredEnds` | mesh_plink.c:537-626 | an Open without an answer is repeated exactly the configured number of times, then the link is closed, held and cleared |
| `Handshake.FirstContact` | mesh_plink.c:905-1065 | exactly when a stranger's Open makes an entry and when a beacon opens a link, and with which frames |
| `Handshake.EitherAnswerFirst` | mesh_plink.c:766-846 | two idle nodes establish a link with agreeing ids whichever of the answers comes first |
| `Handshake.BothOpen` | mesh_plink.c:766-846 | two nodes that open at the same time establish one link, also when a Confirm overtakes the Open |
| `Peering.LinkRecovers` | mesh_plink.c:853-990 | when one side drops the peer, its Close, the holding timer and a new handshake lead both to a new established link, whatever the old ids |
| `Plink.RejectedIff` | mesh_plink.c:905-996 | a frame is rejected for its configuration if and only if it is an Open or Confirm of an unknown peer that does not match |
| `Plink.KnownPeerMismatchIgnored` | mesh_plink.c:951-969 | a known peer's frame has the same effect and the same answers whatever its configuration |
| `Plink.EstablishedIff` | mesh_plink.c:751-890 | a step establishes a link exactly if it is the second of an accepted Open and an accepted Confirm |
| `Peering.MismatchEstablishes` | mesh_plink.c:951-969 | two nodes that know each other establish a link although neither accepts the other's configuration |
| `MeshNode.MeshIf.NewLlid` | mesh_plink.c:637-667 | the first drawn id between 1 and 2007 that no station uses |
| `MeshNode.PickIsFirst` | mesh_plink.c:656-667 | all draws before the chosen one were in use |
| `MeshNode.MeshIf.Fsm` | mesh_plink.c:751-890 | follows the transition table, about which `Handshake` proves when a link is established; the established count, its limit, distinct ids and routes stay right, and routes through a closing peer are flushed |
| `MeshNode.MeshIf.ProcessFrame` | mesh_plink.c:999-1093 | one frame does to its sender's entry what the rules say, to no other entry anything, and keeps the invariant |
| `MeshNode.MeshIf.Timer` | mesh_plink.c:537-626 | retries, gives up, or restarts; the invariant stays |
| `MeshNode.MeshIf.NeighbourUpdate` | mesh_plink.c:513-535 | a beacon may make an entry and open a link with an id of its own |
| `MeshNode.MeshIf.Deactivate` | mesh_plink.c:218-233 | the count goes down with an established peer and all routes through it go |
| `MeshNode.MeshIf.StaCleanup` | mesh.c:148-166 | removing a station leaves no route to it and the count right |
| `MeshNode.MeshIf.RouteInfoGet` | mesh_hwmp.c:372-509 | the answer is the saturated metric if and only if the offer is for another node, is not stale and routes can be kept, and then the offered route is active over the sender with that metric, number and lifetime; the sender's own route is updated; stale news changes nothing; routes stay over established peers |
| `MeshNode.OfferOrder` | mesh_hwmp.c:432-446 | offers are taken by sequence number, counted around 2^32, and then by smaller metric |
| `MeshNode.SnGtIff` | mesh_hwmp.c:80-81 | a number is newer if it is one of the 2^31 that follow |
| `MeshNode.MeshIf.TakeRequest` | mesh_hwmp.c:511-706 | a request or reply whose offer is taken leaves the offered route and the direct one to the sender in place, and makes no other route active |
| `MeshNode.MeshIf.RxPathSel` | mesh_hwmp.c:852-902 | frames from anyone but an established peer change no route; a frame with one request or reply of legal length makes the offered route, one with a path error ends the route it names; and whatever elements a frame has, it makes no route active but over its sender |
| `MeshNode.MeshIf.PathError` | mesh_hwmp.c:708-754 | a path error ends exactly the route through its sender with an older number |
| `MeshNode.MeshIf.PathTimer` | mesh_hwmp.c:1159-1190 | the timer takes down, retries or gives up the route as the rules of `TimedOut` say, and no other |
| `MeshNode.MeshIf.StartDiscovery` | mesh_hwmp.c:973-1052 | a queued request starts or continues the discovery of its route, and of no other |
| `MeshNode.DiscoveryEnds` | mesh_hwmp.c:973-1190 | an unanswered discovery ends with the timer after the last retry and not before, however often it is asked for again meanwhile; until then the route is as it was, and then it is inactive |
| `MeshNode.AnsweredIsQuiet` | mesh_hwmp.c:973-1190 | after an answer no expiry of the timer asks for anything more, and the route stays |
| `MeshNode.MeshIf.PlinkBroken` | mesh_pathtbl.c:750-777 | exactly the active routes through the peer are deactivated |
| `MeshNode.MeshIf.NexthopLookup` | mesh_hwmp.c:1123-1157 | a frame is sent only over an unexpired route, to an established peer |
| `MeshNode.MeshIf.NexthopResolve` | mesh_hwmp.c:1065-1111 | without a hop, an inactive route is left whose discovery runs or is asked for |
| `BlockAck.HandledInv` | agg-tx.c:232-405 | every handler keeps the invariant and only appends to the hardware queue; a frame is given up if and only if the event overflows the session's queue, by one frame or while the driver decides |
| `BlockAck.SessionSafety` | agg-tx.c:316-405 | in every run under the driver contract, OPERATIONAL means driver ready, response received, not stopping and buffer size above 0; the action fires at most once; no start request beside a live session |
| `BlockAck.FramesReleased` | agg-tx.c:232-290 | when a session is operational or gone, all held frames are on the hardware list in order, save those given up |
| `BlockAck.NothingLostIff` | agg-tx.c:232-290 | over every run, all frames ever queued are held or on the hardware list, once and in order, if and only if no event overflowed |
| `BlockAck.SuccessDeclinesIff` | agg-tx.c:920-971 | a successful response ends the live session it is for if and only if the ten-bit size is a multiple of 256 |
| `BlockAck.Size256Declines` | agg-tx.c:920-924 | a run in which a peer that offers 256 frames is taken to refuse |
| `BlockAck.EitherOrder` | agg-tx.c:739-971 | driver first or peer first, the session becomes operational with the same state, one driver action, and the held frames released in order |
| `BlockAck.StopReleases` | agg-tx.c:837-889 | stopping any live session and its callback leave no session and all its frames on the hardware list |
| `BlockAck.StopCarriedOut` | ht.c:349-353 | a stop asked for by request or timer is carried out by the next work: stopping for a local reason, and the driver told to stop and nothing else |
| `BlockAck.StopEnds` | agg-tx.c:837-889 | the callback then ends the session and releases all its frames, also those that came while it was stopping |
| `BlockAck.StopTells` | agg-tx.c:292-405 | what each reason tells the driver and keeps for the callback |
| `BlockAck.StartCarriedOut` | agg-tx.c:442-504 | an accepted request is started by the next work: the driver is asked once; if it agrees the session waits for both parties, and if not all frames that came meanwhile are released |
| `BlockAck.NothingAsked` | ht.c:314-356 | without a request, or blocked, the work changes nothing; nor does a timer of a session that is in use or was answered |
| `BlockAck.RequestsBounded` | agg-tx.c:611-632 | in every run at most 16 requests go out without an answer |
| `BlockAck.CallbackHonestIff` | agg-tx.c:718-758 | without the contract a start callback breaks the promise in exactly one situation |
| `BlockAck.LateCallback` | agg-tx.c:43-46 | a run that breaks the promise when the contract is ignored |
| `BlockAck.OverflowLosesFirst` | tx.c:1100-1120 | a run in which a session gives up a frame |
| `AggTx.AmpduTid.StartTxBaSession` | agg-tx.c:603-677 | a request, a new object, is taken exactly if the slot is idle, memory suffices and the retries allow; the invariant stays |
| `AggTx.AmpduTid.SessionWork` | ht.c:314-356 | a start request goes live and is started, a stop request stops the session and tells the driver; the invariant stays and the hardware list only grows |
| `AggTx.AmpduTid.HandleStart` | agg-tx.c:442-504 | the driver's answer, with frames queued meanwhile, which are spliced back on refusal; the invariant holds afterwards |
| `AggTx.AmpduTid.StopTxBaSession` | agg-tx.c:292-405 | stopping, by reason: afterwards the same session is stopping and not operational, and the invariant stays |
| `AggTx.AmpduTid.StartTxBaCb` | agg-tx.c:718-758 | driver ready, and operational if the response was in; the invariant stays under the driver contract, and OPERATIONAL is honest except after the late callback |
| `AggTx.AmpduTid.StopTxBaCb` | agg-tx.c:837-889 | the session ends, its frames are spliced, and a DELBA goes out exactly for a local stop; an unexpected callback leaves it |
| `AggTx.AmpduTid.ProcessAddbaResp` | agg-tx.c:913-989 | accepts, ignores or declines the response; the session object and the invariant stay |
| `AggTx.AmpduTid.PrepAgg` | tx.c:1062-1127 | a frame is held, as the newest of its session, exactly when there is a session that is not operational |
| `AggTx.AmpduTid.Handle` | agg-tx.c:232-989 | every event does to the objects what the rules say and keeps the invariant |
| `AggTx.Play` | agg-tx.c:232-989 | objects driven through any events that respect the driver contract are in the state of that run |
| `PathTbl.UniqueKeys` | mesh_pathtbl.c:526-638 | two nodes with the same interface and destination are one node |
| `PathTbl.MeshTable.Lookup` | mesh_pathtbl.c:335-356 | answers as the map does, and an expired route is no longer active |
| `PathTbl.MeshTable.Add` | mesh_pathtbl.c:526-610 | adds to the map an inactive route without a next hop that expires now, unless the key is there, with every error case; entries is the node count |
| `PathTbl.MeshTable.Del` | mesh_pathtbl.c:886-916 | removes from the map, or reports that the key is not there |
| `PathTbl.MeshTable.FlushByNexthop` | mesh_pathtbl.c:816-836 | exactly the routes through the peer go |
| `PathTbl.TableGrow` | mesh_pathtbl.c:155-186 | the new table is the same map, or is empty again; succeeds if and only if the table is full enough and memory suffices; the old table is untouched |
| `PathTbl.Paths.Grow` | mesh_pathtbl.c:619-638 | however growth ends, the table in use is the same map |
| `Keys.KeyRing.SetDefaultKey` | key.c:220-247 | the pointers that change name the listed key of the index, or nothing where there is none, and every default still names the key at its own index |
| `Keys.KeyRing.SetDefaultMgmtKey` | key.c:249-271 | the same for management keys |
| `Keys.KeyRing.Install` | key.c:274-337 | the new key takes the slot and the default role of the old one |
| `Keys.KeyRing.Link` | key.c:572-614 | the tailroom count stays the number of keys that need it plus the pending decrements, and a default that named the old key names the new one, or nothing when the hardware refuses |
| `Keys.KeyRing.Free` | key.c:616-629 | freeing keeps the count, at once or delayed, and empties exactly the defaults that named the key |
| `Keys.KeyRing.Remove` | key.c:1044-1065 | a key that the driver dropped leaves the count right and is no default any more |
| `Keys.KeyRing.FreeStaKeys` | key.c:742-770 | exactly the station's keys go, and the defaults stay |
| `Keys.KeyRing.FreeKeys` | key.c:686-740 | no key, no default and no slot is left, and both counters are zero |
| `Keys.KeyRing.DelayedDec` | key.c:772-800 | afterwards the count is exactly the keys that need tailroom |
| `Cmac.GfMulx` | aes_cmac.c:26-36 | in place, the doubling of section 2.3 of RFC 4493 |
| `Cmac.DoubledOnce` | aes_cmac.c:26-36 | the bit-level definition of doubling has one result |
| `Cmac.ShortMac` | aes_cmac.c:38-92 | the MAC of at most one block, written out with the two subkeys of section 2.3 of RFC 4493 |
| `Cmac.BlockAndPart` | aes_cmac.c:38-92 | the MAC of one block and a part of another, written out |
| `Cmac.MacFolds` | aes_cmac.c:38-92 | the first of two or more blocks can be enciphered and folded into the second without changing the MAC |
| `Cmac.CmacVector` | aes_cmac.c:38-92 | for any block function and any non-empty segments, the MAC of section 2.4 of RFC 4493 of the concatenation |
| `Rmc.Cache.Check` | mesh.c:214-246 | walks, deletes and inserts as the rules say; buckets never exceed four entries |
| `Rmc.Play` | mesh.c:214-246 | a cache given any frames reports those of the run |
| `Rmc.DuplicateWasAccepted` | mesh.c:214-246 | a duplicate was accepted with the same source and number within the timeout |
| `Rmc.RepeatIsReported` | mesh.c:214-246 | every repeat within the timeout with at most two newer entries in its bucket is reported |
| `Rmc.RepeatReportedIff` | mesh.c:214-246 | within the timeout of its latest acceptance a repeat is reported if and only if at most two newer entries came into its bucket |
| `Rmc.ReportedIff` | mesh.c:214-246 | over every run, the frames reported are exactly those last accepted within the timeout with at most two newer entries since |
| `Rmc.ThreeNewerHide` | mesh.c:224-234 | a run in which a repeat passes |

## Left out

- Codec relay mode, the 0x0811 training protocol, payload lengths not divisible by p, generations of mixed length and k = 0: the copy loops do not support them.
- Delivery.DeliveredOnce: a delivered packet no longer carries its index, so the index of each is one whose original it equals; the target generation does not time out and no systematic packet of it arrives twice.
- Progress.Completes: the packets counted are the first k to arrive of the generation, whether useful or not; after an attempt that failed, `KthDecides` speaks of the packets that were kept.
- RxNode.RxState.DecodingTry: asks that packets of one generation have the same payload length and their full header, which the code takes for granted.
- Encoder.MakeSkbNew: at most 63 originals and p up to 3, what the header byte can hold.
- Encoder.Sender: the queue in front of the encoder and its timer.
- Peering.PeeringAgreement: a link id comes back only when it is free, and links that a user opens or blocks are excluded.
- Peering.DrawSafeIff: asks that the other node is established and that no Open was lost whose Confirm was not; without these a stale Confirm may have nobody to mislead.
- Handshake.EstabIffBoth: the timer does not fire between the frames; `UnansweredEnds` speaks of it.
- Peering managed from user space, power save, HT protection and the accepting-links flag of the beacon.
- MeshNode: one interface; user-fixed routes, gates, root announcements beyond their effect on routes, and the frames that HWMP forwards.
- Time in routes and the multicast cache is unbounded; jiffies wrap only in the generation list.
- MeshNode.MeshIf.NexthopResolve: the frames that wait for a route.
- BlockAck: RX sessions, the TX queues of drivers that pull frames, and the split of a handler by its waits, except for frames that arrive while the driver decides on a start.
- PathTbl: the proxy path table, the limit counter on routes, gates, flushing by interface, RCU and locks.
- Keys: resume, keys of VLAN interfaces, and the order of the key list.
- Cmac: empty segments, for which the cursor of aes_cmac_vector reads past the end of a segment.
- Rmc: a failed allocation of the new entry; the timeout of three seconds is 750 jiffies, for 250 jiffies a second.
- chan.c, cfg.c, mlme.c, scan, rate control, the other ciphers and the driver interface.
