# A verified model of the libp2p publish/subscribe core

This project models the logic of a Go implementation of libp2p pubsub with the
gossipsub router, and proves what its protocols keep over whole runs. Code that
updates state in place is modelled by classes and loops, each proved equal to a
specification function; the theorems are about those functions. The files whose
names end in `Exact`, with `AnnounceSteps`, `ScoreTime`, `SplitReceived` and
`WireForm`, say what those functions compute without naming them: by counting, by
exact differences, by what was called before, or by what is read back.

| part of the system | files |
|---|---|
| protobuf sizes, RPC splitting, the receiver's size check | `Wire`, `Rpc`, `WireForm`, `Split`, `SplitTheorems`, `Receiver`, `SplitReceived` |
| mesh maintenance: over-subscription pruning, quotas, GRAFT and PRUNE | `Params`, `OverPrune`, `MeshTopic`, `MeshExact`, `MeshLimits`, `MeshRun` |
| prune backoff over runs of the router, offers of other peers | `Backoff`, `HandlersExact`, `PeerExchange`, `Router`, `HeartbeatExact` |
| announcing subscriptions over lossy queues | `Announce`, `AnnounceSteps`, `AnnounceLimits`, `Subscriptions` |
| topic events, delivery once per TTL, the validation pipeline | `EventLog`, `EventsExact`, `Delivery`, `Validation` |
| delivery records, peer score, address index, IWANT promises | `DeliveryRecords`, `MessageDeliveries`, `Score`, `PeerScore`, `ScoreExact`, `ScoreTime`, `ScoreTable`, `Promises` |
| IDONTWANT, message cache, partial-message groups, batch scheduling | `IDontWant`, `IDontWantExact`, `MessageCache`, `PartialGroups`, `RoundRobin` |

`Basics` and `Ids` hold what all of them use. Peers, topics and message ids are
opaque identifiers; clocks, random numbers, sorting and shuffling, map iteration
order, user callbacks and goroutine scheduling are parameters, constrained only
by what the Go code relies on (a sort yields a sorted permutation, time does not
go back). Go integers are unbounded here, except where a 64-bit duration can
wrap around. Scores are real numbers.

## Where a promise does not hold

The code is modelled as it is. Where a property fails, a lemma gives the exact
condition under which it holds.

- Splitting drops the partial message and the test extension of an RPC exactly
  if what remains besides its published messages has to be cut
  (`ExtensionsSurviveExactly`), and can overshoot the limit exactly if an empty
  published message shares a piece (`PublishFitsExactly`).
- The control size that the sender computes leaves out the envelope of published
  messages, which the receiver counts, so the receiver can turn an RPC away that
  the sender judged small enough (`ReceiverCountsMore`,
  `PublishEnvelopeCanBeRefused`). It also charges one byte too little for an empty
  control message, which splitting leaves behind when the first control item does
  not fit beside the subscriptions: such a piece, within both limits, is refused
  exactly if there is no byte to spare (`PieceReceivedExactly`), and for every RPC
  with a control message there are limits with which that happens
  (`AllReceivedExactly`).
- Splitting yields an empty piece exactly if the first message, or the first other
  item, is too large on its own (`EmptyPiecesExactly`).
- Over-subscription pruning keeps the Dscore best peers exactly if
  Dscore + max(Dout, 0) <= D (`ScoreGuaranteeExactly`); parameter validation does
  not demand that, nor that D and Dscore are not negative
  (`SlicesInRangeExactly`, with an input in `ValidatedSlicesCanFail`).
- Mesh maintenance bounds the size of a mesh exactly if OpportunisticGraftPeers is
  positive or a mesh never has two peers (`BoundedExactly`): getPeers takes a
  non-positive count for no limit.
- A peer that asks for a backoff which does not fit in a 64-bit duration gets a
  shorter one (`BackoffHonouredExactly`).
- A retry of an announcement looks at subscriptions but not at whether the topic
  has become fanout-only. If a topic is closed and opened again as fanout-only
  while such a retry is pending or the opposite one has not arrived, a peer can
  be left with a wrong belief about that topic (`UncleanOpeningMisleads`) that only
  opening the topic again or losing the stream can change (`StaysStuck`). Clean
  openings of the topic are enough for the right belief (`CleanOpeningsConverge`),
  and a topic that is never opened fanout-only needs no condition
  (`AnnouncementsConverge`).
- The comment in score.go:726-727 says that a first delivery is not counted
  twice. The peer that delivered first and sends the message again after
  validation is credited a second time (`FirstDelivererCountsTwice`; the exact
  set of credited peers is in `CreditedExactly`).
- Selective validation admits a zero TimeInMeshQuantum
  (`ValidationGuardsQuantumExactly`), by which score() then divides: all scores of
  all continuations of a state are defined exactly if no scored topic has a zero
  quantum (`ScoresDefinedExactly`, with a run in `ValidatedScoreCanFail`).
- Peers are offered with the PRUNEs that answer a batch of GRAFTs if no GRAFT of it
  forbids it, but a topic named twice can hide the offer
  (`RepeatedTopicHidesOffer`): exactly if the peer is turned away from it for lack
  of room and the backoff outlasts the batch (`OffersExactly`).
- The limits of partial-message groups (partialmsgs.go:90-98) bound the counts, not
  the groups: closing a peer's stream drops its count and leaves its groups, so the
  peer can initiate any number of them (`PilesUp`). The groups of a peer are bounded
  exactly if its stream does not close (`PeerLimitedExactly`), those of all peers
  exactly if no stream does (`TotalLimitedExactly`).
- A message put into the cache twice within the window is dropped with its first
  slot (`RetrievableExactly`, `PutTwiceIsLostEarly`).

## Model

| member | source | states |
|---|---|---|
| `Wire.SovRpcIsVarintLength` | pubsub.go:605-607 | the closed form for the length of a varint is exact for every x >= 1, and zero for x = 0 |
| `Wire.VarintRoundTrip` | pb/validator.go:17-24 | decoding an encoded varint gives the value back and consumes exactly its bytes |
| `Wire.ConsumeBytesField` | pb/validator.go:20-30 | an encoded length-delimited field is consumed as one tag and one value, whatever follows |
| `Rpc.ControlRPCSize` | pubsub.go:576-594 | the loop computes the sum of the charges of subscriptions and control message |
| `Rpc.ControlSizeIsEncodedLength` | pubsub.go:576-594 | that sum is the encoded length of an RPC with only these fields, up to one byte per empty embedded message |
| `WireForm.EnvelopeForm` | pb/rpc.proto:7-34 | reading an encoded RPC back field by field gives its subscriptions, messages, control, partial message and test extension under the declared numbers, in order |
| `WireForm.ControlForm` | pb/rpc.proto:45-52 | likewise the six parts of a control message |
| `WireForm.SubForm` | pb/rpc.proto:11-22 | likewise a subscription option |
| `WireForm.MessageForm` | pb/rpc.proto:36-43 | likewise a published message |
| `WireForm.IHaveForm` | pb/rpc.proto:54-59 | likewise an IHAVE entry |
| `WireForm.PruneForm` | pb/rpc.proto:69-73 | likewise a PRUNE with its backoff |
| `WireForm.PartialForm` | pb/rpc.proto:96-105 | likewise a partial message |
| `Split.SplitPublish` | pubsub.go:356-396 | the slicing loop packs the published messages as the greedy packing of a list does |
| `Split.SplitSubscriptions` | pubsub.go:418-429 | subscriptions are placed one by one |
| `Split.SplitGrafts` | pubsub.go:457-466 | likewise the grafts |
| `Split.SplitPrunes` | pubsub.go:468-477 | likewise the prunes |
| `Split.SplitIHave` | pubsub.go:534-561 | one IHAVE entry is placed id by id, opening its topic again in every new piece |
| `Split.SplitIWant` | pubsub.go:479-506 | one IWANT entry is placed id by id |
| `Split.SplitIDontWant` | pubsub.go:508-532 | one IDONTWANT entry is placed id by id |
| `Split.SplitControl` | pubsub.go:431-562 | extensions, grafts, prunes, IWANT, IDONTWANT and IHAVE are placed item by item in that order |
| `Split.SplitRest` | pubsub.go:398-568 | everything besides the published messages: whole if it fits, otherwise item by item |
| `Split.Split` | pubsub.go:354-570 | the whole method yields exactly the pieces of the specification, of which the theorems say what they hold, how large they are and where they are cut |
| `SplitTheorems.SplitPreservesContent` | pubsub.go:354-570 | for every kind of content, the pieces together hold exactly the same items in the same order as the RPC |
| `SplitTheorems.SplitFits` | pubsub.go:354-574 | without empty published messages every piece has at most the limit of bytes and at most the control limit of charged control bytes, or holds at most one indivisible item |
| `SplitTheorems.RestFits` | pubsub.go:398-574 | the same of the pieces after the published messages, for all inputs |
| `SplitTheorems.PublishFits` | pubsub.go:358-396 | a publish piece is single or exceeds the limit by at most one byte per empty message |
| `SplitTheorems.PublishFitsExactly` | pubsub.go:358-396 | publish pieces fit for every limit exactly if there is at most one message or none is empty |
| `SplitTheorems.EmptyMessageOverflows` | pubsub.go:369-385 | several messages with an empty one among them overflow some limit |
| `SplitTheorems.SplitIsGreedy` | pubsub.go:415-562 | the pieces are consecutive runs of the items, each closed at an item with which it would have exceeded one of the two limits and that opens the following piece |
| `SplitTheorems.PackGreedy` | pubsub.go:367-385 | the same for published messages, by their charges |
| `SplitTheorems.ExtensionsSurviveExactly` | pubsub.go:398-416 | the partial message and the test extension survive exactly if the rest of the RPC is within both limits |
| `SplitTheorems.EmptyPiecesExactly` | pubsub.go:367-396 | a piece is empty exactly if the first message, or the first other item, does not fit on its own |
| `Receiver.DataFieldLength` | pb/validator.go:55-81 | the nested loop finds the length of the first data field of a published message |
| `Receiver.ReadFieldCharge` | pb/validator.go:20-45 | what one field of the envelope adds to the count |
| `Receiver.ValidateRawRPCControlMessageSize` | pb/validator.go:17-53 | the loop over raw bytes judges the fields one after the other, with every parse error |
| `Receiver.ReceiverAcceptsExactly` | pb/validator.go:17-53 | an encoded RPC is accepted exactly if the bytes that count are within the limit |
| `Receiver.ReceiverCountsMore` | pb/validator.go:31-45 | how the receiver's count differs from the sender's, to the byte |
| `Receiver.SenderAndReceiverAgree` | pb/validator.go:14-53 | RPCs of non-empty subscriptions, control and partial message are accepted exactly if the sender finds them within the control limit |
| `Receiver.PublishEnvelopeCanBeRefused` | pb/validator.go:35-41 | for every limit that a 64-bit int can hold some RPC with control size zero is refused |
| `Receiver.RefusalTellsSize` | pb/validator.go:46-50 | the size in a refusal is what the fields read so far add up to, and exceeds the limit |
| `SplitReceived.PieceReceivedExactly` | pb/validator.go:17-53 | a piece of several items, or a single one within the control limit, passes a receiver with the same limit exactly if its control message is not empty or there is a byte to spare |
| `SplitReceived.EmptyControlRefused` | pubsub.go:431-466 | for every RPC with a control message, limits and a piece within both of them that the receiver refuses |
| `SplitReceived.AllReceivedExactly` | pubsub.go:398-574 | all pieces within the limits are accepted, for all limits, exactly if there is no control message |
| `Params.SlicesInRangeExactly` | gossipsub.go:251-279 | for validated parameters the pruning slices are in range exactly if D and Dscore are not negative |
| `Params.ValidatedSlicesCanFail` | gossipsub.go:251-279 | validated parameters for which both slices are out of range of every list |
| `OverPrune.Shuffle` | gossipsub.go:2313-2318 | the in-place shuffle of a suffix is the fold of its swaps |
| `OverPrune.ShuffledPermutes` | gossipsub.go:2313-2318 | it permutes the suffix and leaves the rest |
| `OverPrune.ShuffleReaches` | gossipsub.go:2313-2318 | every order of the suffix comes out for some random numbers |
| `OverPrune.CountOutbound` | gossipsub.go:1749-1755 | the number of outbound peers in the selection |
| `OverPrune.Rotate` | gossipsub.go:1759-1766 | the in-place rotation puts one element first and keeps the order of the others |
| `OverPrune.BubbleUp` | gossipsub.go:1768-1788 | each loop moves the next outbound peers of its range to the front |
| `OverPrune.Arrange` | gossipsub.go:1745-1789 | shuffle, count and both loops together compute the quota arrangement of the array |
| `OverPrune.QuotaPermutes` | gossipsub.go:1746-1790 | the arrangement is a permutation |
| `OverPrune.QuotaMet` | gossipsub.go:1750-1790 | the selection ends with exactly its outbound peers, or Dout, or all there are |
| `OverPrune.QuotaKeepsBest` | gossipsub.go:1750-1790 | if there is room the Dscore best stay in the selection |
| `OverPrune.KeptAndPruned` | gossipsub.go:1736-1796 | kept and pruned peers partition the mesh |
| `OverPrune.PruningKeepsQuota` | gossipsub.go:1736-1796 | exactly D peers are kept, with at least min(Dout, outbound peers present) outbound ones |
| `OverPrune.PruningKeepsBest` | gossipsub.go:1736-1796 | if there is room, Dscore kept peers score at least as high as every pruned one |
| `OverPrune.NoRoomFails` | gossipsub.go:1736-1796 | without room some mesh loses that guarantee |
| `OverPrune.ScoreGuaranteeExactly` | gossipsub.go:1736-1796 | the guarantee holds for all meshes, scores and shuffles exactly if Dscore + max(Dout, 0) <= D |
| `MeshTopic.OutboundQuotaRestored` | gossipsub.go:1798-1824 | a large enough mesh ends this stage with Dout outbound peers or all that could be grafted |
| `MeshTopic.FilledIsNotCut` | gossipsub.go:1718-1796 | peers grafted to fill up the mesh are not pruned in the same pass |
| `MeshTopic.MaintainKeepsGoodPeers` | gossipsub.go:1692-1858 | after maintenance everybody in the mesh scores at least zero, and whoever is new was an eligible candidate without backoff |
| `MeshTopic.MaintainBounds` | gossipsub.go:1692-1858 | the mesh size ends between min(Dlo, survivors + eligible) and max(D, Dhi - 1) + Dout + OpportunisticGraftPeers |
| `MeshExact.MaintainExactly` | gossipsub.go:1692-1858 | the final mesh by counting: who survives, how many of whom are added or kept, and everybody who left backed off |
| `MeshExact.ImproveIs` | gossipsub.go:1826-1858 | opportunistic grafting happens only if more than half of the mesh scores below the threshold, and adds exactly so many of the outsiders that outscore more than half of it |
| `MeshExact.CutQuality` | gossipsub.go:1736-1796 | of a mesh that is cut, at least min(Dout, outbound peers present) outbound peers and, if there is room, the Dscore best stay |
| `MeshLimits.GraftsEverybody` | gossipsub.go:1826-1858 | without a positive OpportunisticGraftPeers a mesh of peers that all score 0 ends with everybody in it who scores more |
| `MeshLimits.MeshCanExceed` | gossipsub.go:1826-1858 | then, if meshes of two peers are possible, for every n some lawful environment makes the mesh larger than n |
| `MeshLimits.BoundedExactly` | gossipsub.go:1692-1858 | the upper bound holds in all environments exactly if OpportunisticGraftPeers is positive or max(D, Dhi - 1) <= 1 |
| `MeshRun.SelectPeers` | gossipsub.go:2250-2270 | the candidates that pass the filter, at most count of them if count is positive |
| `MeshRun.ListExcess` | gossipsub.go:1736-1796 | the list of peers to prune, each once, is exactly the excess |
| `MeshRun.TopicRun.DropNegativePeers` | gossipsub.go:1709-1716 | the walk over the map prunes exactly the peers with negative score |
| `MeshRun.TopicRun.MaintainTopic` | gossipsub.go:1692-1858 | the step-by-step maintenance computes the mesh that MaintainExactly describes, and its GRAFT and PRUNE lists are exactly new minus old and old minus new mesh, each peer once |
| `Backoff.GraftGrantedExactly` | gossipsub.go:1060-1156 | exactly which GRAFTs are granted and which are answered by a PRUNE |
| `Backoff.BackoffHonouredExactly` | gossipsub.go:1171-1177 | the requested seconds are honoured exactly if they fit in a 64-bit duration |
| `Backoff.PruneSetsBackoff` | gossipsub.go:1158-1177 | a received PRUNE removes the peer and sets an expiry |
| `Backoff.LeaveSetsBackoff` | gossipsub.go:1502-1522 | leaving sets an expiry for every mesh peer |
| `Backoff.BeatSetsBackoff` | gossipsub.go:1692-1858 | whoever a heartbeat removes has an expiry afterwards, whoever it grafts had no entry |
| `Backoff.JoinedAreNotBacked` | gossipsub.go:1445-1500 | joining grafts nobody with a backoff entry or a negative score |
| `Backoff.StepSafe` | gossipsub.go:1060-1974 | every handler keeps entries until two heartbeat intervals after their expiry and lets nobody into a mesh earlier |
| `Backoff.NoMeshBeforeExpiry` | gossipsub.go:1099-1117 | in every run, once an expiry is set the peer is in no mesh of that topic before it |
| `Backoff.OwnGraftsWaitLonger` | gossipsub.go:1955-1974 | in every run, grafts of our own wait two heartbeat intervals more |
| `HandlersExact.GraftBatchExactly` | gossipsub.go:1060-1156 | after any batch of GRAFTs: who is in which mesh, which topics are answered with a PRUNE, and every backoff entry, by the state before |
| `HandlersExact.FloodPenaltyExactly` | gossipsub.go:1097-1112 | a peer that grafts again after a refusal is penalised by the time passed: 2 below the flood threshold, 1 until the backoff is over, 0 later |
| `HandlersExact.PruneBatchExactly` | gossipsub.go:1158-1177 | after any batch of PRUNEs: the peer is out of exactly the named meshes and backed off there until the latest of what they ask for and the entry before |
| `HandlersExact.OffersTaken` | gossipsub.go:1179-1188 | exactly the non-empty offers for joined topics of a trusted peer are taken up, in their order |
| `HandlersExact.LeaveExactly` | gossipsub.go:1502-1522 | leaving removes one mesh and backs off exactly its members |
| `HandlersExact.JoinExactly` | gossipsub.go:1445-1500 | joining makes a mesh of exactly min(D, available) peers, with a fanout of all its graftable peers first, ends the fanout and changes nothing else |
| `HandlersExact.HeartbeatExactly` | gossipsub.go:1648-1974 | after a heartbeat every entry is the one before, dropped if it expired two seconds ago on a fifteenth tick, and extended for exactly those who left a mesh |
| `PeerExchange.OffersOnlyIfFull` | gossipsub.go:1063-1147 | an answer that offers peers goes to a peer that is neither direct nor negative, and only with PRUNEs for meshes that had no room |
| `PeerExchange.OffersExactly` | gossipsub.go:1063-1152 | a batch is answered with an offer exactly if peer exchange is on, no GRAFT is for an unknown topic or from a direct, backed-off or negative peer, and no topic named twice turns the peer away for lack of room with a backoff that outlasts the batch |
| `PeerExchange.RepeatedTopicHidesOffer` | gossipsub.go:1094-1136 | naming a full topic twice hides the offer, for the first GRAFT starts the backoff that the second runs into |
| `Router.GossipSubRouter.DoAddBackoff` | gossipsub.go:1238-1248 | an entry is created, or extended if the new expiry is later |
| `Router.GossipSubRouter.HandleGraft` | gossipsub.go:1060-1156 | the handler's meshes, backoffs, PRUNE answers, their peer-exchange flag and penalties are those specified |
| `Router.GossipSubRouter.HandlePrune` | gossipsub.go:1158-1190 | meshes and backoffs as specified, and exactly the non-empty offers for joined topics from a peer with enough score are taken up |
| `Router.GossipSubRouter.Join` | gossipsub.go:1445-1500 | the mesh is the one that JoinExactly describes, and a GRAFT goes to exactly its members |
| `Router.GossipSubRouter.Leave` | gossipsub.go:1502-1522 | mesh and backoffs as specified, and a PRUNE goes to exactly the peers of the old mesh |
| `Router.GossipSubRouter.ClearBackoff` | gossipsub.go:1955-1974 | every fifteenth tick exactly the entries past expiry and slack are dropped, and empty topics with them |
| `Router.GossipSubRouter.OnClosedOutboundStream` | gossipsub.go:804-809 | the peer leaves every mesh and fanout |
| `Router.SendGraftPrune` | gossipsub.go:2000-2035 | one message per peer holds all its GRAFTs and PRUNEs |
| `Router.GossipSubRouter.Heartbeat` | gossipsub.go:1648-1858 | clean-up, opportunistic grafting on every so many ticks and maintenance of all topics are as specified, and the messages sent name each mesh change to its peer, nothing else, in one message per peer |
| `HeartbeatExact.HeartbeatMeshes` | gossipsub.go:1648-1858 | the mesh of every topic after a heartbeat of the router, by counting, with opportunistic grafting only on every so many ticks |
| `HeartbeatExact.DueOncePerPeriod` | gossipsub.go:1827-1827 | opportunistic grafting is due exactly once in every period |
| `Announce.LastWordTail` | comm.go:262-275 | writing the oldest queue entry does not change what the peer will finally believe |
| `Announce.DrainedBelieves` | rpc_queue.go:33-47 | draining a queue leaves the peer with the last word on every topic |
| `Announce.OpenTopicOk` | pubsub.go:1186-1198 | opening any topic keeps the invariant of a topic, unless it opens that topic fanout-only with a trace of an ordinary life left |
| `Announce.HelloOk` | comm.go:21-53 | a hello keeps it, although older announcements may still be queued behind |
| `Announce.FireOk` | pubsub.go:1373-1423 | a retry keeps it, whether it delivers, is dropped or finds the queue full |
| `Announce.StepOk` | pubsub.go:1184-1423 | so does every handler |
| `Announce.OwnedInRuns` | pubsub.go:1184-1340 | in every run, however topics are opened, subscriptions and relays belong to an open handle, and relays to one that is not fanout-only |
| `Announce.AnnouncementsConverge` | pubsub.go:1225-1423 | in every run, for a topic never opened fanout-only, a peer that got a hello will believe our real status after draining its queue, or a retry with that status is pending |
| `Announce.CleanOpeningsConverge` | pubsub.go:1186-1423 | the same for any topic that was clean whenever it was opened fanout-only, whatever happens to other topics |
| `AnnounceSteps.InterestFollows` | pubsub.go:1225-1340 | in every run exactly the subscriptions are there that were made and not cancelled since, and as many relays as were added and not yet removed |
| `AnnounceSteps.HandleFollows` | pubsub.go:1186-1219 | in every run a topic is open, fanout-only or not, as the calls say |
| `AnnounceSteps.PeersLearnInterest` | pubsub.go:1184-1423 | in every run, for a topic never opened fanout-only, a peer that got a hello will believe that we are in it exactly if some subscription was not cancelled or some relay not removed, or a retry that says so is pending |
| `AnnounceSteps.PeersLearnWanted` | pubsub.go:1184-1423 | the same for any topic that was clean whenever it was opened fanout-only, with what the calls make us want |
| `AnnounceSteps.QueuesBounded` | rpc_queue.go:75-102 | in every run no queue holds more than its maximum |
| `AnnounceSteps.ConnectionsFollow` | pubsub.go:979-1001 | in every run the streams and greeted peers are those that the calls connected and greeted since |
| `AnnounceLimits.UncleanOpeningMisleads` | pubsub.go:1373-1391 | an unclean fanout-only opening can always be continued to a state in which a peer is stuck with the wrong belief |
| `AnnounceLimits.StuckIsMisled` | pubsub.go:1373-1391 | a stuck peer will believe after draining its queue that we are subscribed, we are not, and no retry is there to tell it |
| `AnnounceLimits.StaysStuck` | pubsub.go:1184-1423 | only opening the topic again or losing the peer's stream can end that; every other step keeps it |
| `AnnounceLimits.UncleanIsReachable` | pubsub.go:1344-1371 | such an opening is reachable from the start |
| `Subscriptions.PubSub.Push` | rpc_queue.go:75-102 | a non-blocking push fails exactly on a full queue |
| `Subscriptions.PubSub.WriteNext` | rpc_queue.go:33-47 | urgent RPCs are written first, otherwise the oldest |
| `Subscriptions.PubSub.AnnounceTopic` | pubsub.go:1344-1371 | every peer gets the announcement or a retry |
| `Subscriptions.PubSub.HandleAddTopic` | pubsub.go:1186-1198 | an open topic stays as it is |
| `Subscriptions.PubSub.HandleRemoveTopic` | pubsub.go:1202-1219 | only a topic without handlers, subscriptions and relays is closed |
| `Subscriptions.PubSub.HandleAddSubscription` | pubsub.go:1256-1282 | announces exactly the first interest in a topic that is not fanout-only |
| `Subscriptions.PubSub.HandleRemoveSubscription` | pubsub.go:1225-1250 | removes the subscription and announces exactly the end of interest; InterestFollows says what is left after any calls |
| `Subscriptions.PubSub.HandleAddRelay` | pubsub.go:1288-1296 | likewise for the first relay |
| `Subscriptions.PubSub.HandleRemoveRelay` | pubsub.go:1323-1340 | and the last |
| `Subscriptions.PubSub.GetHelloPacket` | comm.go:21-53 | the hello names exactly the topics that peers should know of |
| `Subscriptions.PubSub.SendHelloPacket` | pubsub.go:979-1001 | a known peer's new stream starts with the current hello |
| `Subscriptions.PubSub.RunRetry` | pubsub.go:1373-1423 | the retry closure and its push |
| `EventLog.AlternatesMeans` | topic.go:518-522 | the first event about a peer is a Join and consecutive ones differ |
| `EventLog.StepInv` | topic.go:488-547 | every locked section keeps log, history, membership and wake-up token consistent |
| `EventLog.EventsAlternate` | topic.go:488-547 | in every run the events emitted about one peer alternate |
| `EventLog.EventsAccountForMembers` | topic.go:495-508 | in every run emitted and pending events together are the membership |
| `EventLog.NobodySleepsOnEvents` | topic.go:523-547 | in every run, with something to pull, some consumer in NextPeerEvent can go on |
| `EventsExact.RunExactly` | pubsub.go:1516-1552 | in every run the members are those whose last word was a subscription, every consumer is where its last call left it, and every pull returned one event |
| `EventsExact.PendingExactly` | topic.go:495-508 | in every run an event is pending about a peer exactly if what was last told differs from what the calls make true, and says which |
| `EventsExact.DrainedKnows` | topic.go:518-522 | in every run, with nothing pending, the events told are the membership that the calls make |
| `EventsExact.WakesOnce` | topic.go:540-545 | one signal wakes one consumer |
| `EventLog.TopicEventHandler.AddToEventLog` | topic.go:495-508 | an event is logged, cancelled by its opposite, or already there |
| `EventLog.TopicEventHandler.PullFromEventLog` | topic.go:510-517 | some pending event is removed, if there is one |
| `EventLog.TopicEventHandler.TryNext` | topic.go:524-539 | the locked section is a pull step or a block step of the state machine |
| `EventLog.TopicPeers.HandleSubOpt` | pubsub.go:1516-1552 | a subscription option changes membership and log as the state machine says |
| `EventLog.TopicPeers.ClearPeer` | pubsub.go:1131-1141 | likewise for a closed stream |
| `Delivery.FreshAddsApart` | timecache/first_seen_cache.go:49-60 | two fresh Adds of an id are more than the TTL apart, and with the last-seen strategy a fresh Add is that far from every earlier touch |
| `Delivery.ForgottenAfterSweep` | timecache/util.go:26-35 | an id untouched since a sweep after its TTL is fresh again |
| `Delivery.CachedExactly` | timecache/util.go:26-35 | an id is in the cache exactly if a fresh Add, or with the last-seen strategy any touch, renewed it and no sweep came after the TTL since |
| `Delivery.DeliveriesApart` | pubsub.go:1686-1708 | two deliveries of one id are more than the TTL apart |
| `Delivery.TimeCache.Add` | timecache/last_seen_cache.go:42-50 | both strategies' Add |
| `Delivery.TimeCache.Has` | timecache/last_seen_cache.go:52-62 | both strategies' Has |
| `Delivery.TimeCache.Sweep` | timecache/util.go:26-35 | exactly the expired entries are deleted |
| `Delivery.Deliverer.NothingTwiceWithinTTL` | pubsub.go:1686-1708 | in every reachable state neither subscribers nor router got an id twice within the TTL |
| `Delivery.Deliverer.PublishMessage` | pubsub.go:1686-1694 | a duplicate goes nowhere, a new message to the subscribers and, unless local, the router |
| `Delivery.Deliverer.WasDelivered` | validation.go:326-330 | asking whether a message was delivered changes no delivery |
| `Delivery.Deliverer.SweepCache` | timecache/util.go:11-24 | nor does a sweep with an older tick |
| `Delivery.Deliverer.PublishMessageBatch` | pubsub.go:1696-1708 | exactly the messages new to the cache and to the batch are delivered, in order |
| `Validation.JoinIsLeastUpperBound` | validation.go:455-475 | the verdict order is Accept, Ignore, Throttled, Reject and the join its least upper bound |
| `Validation.JoinPermutes` | validation.go:455-475 | the join does not depend on the order of results |
| `Validation.AcceptedExactly` | validation.go:310-388 | onValid runs exactly if the signature is not bad, the message is no duplicate, all validators accept and none was throttled |
| `Validation.OutcomeExactly` | validation.go:310-475 | the trace of every call by what the validators say and whether they could be asked: rejected beats throttled beats ignored |
| `Validation.ValidateMsg` | validation.go:491-516 | an unexpected result of a validator becomes Ignore |
| `Validation.ValidateTopic` | validation.go:428-475 | the join of the async results, for any arrival order |
| `Validation.DoValidateTopic` | validation.go:400-426 | the trace of the join with the inline verdict; the panicking branch is dead |
| `Validation.RunInline` | validation.go:346-358 | the join of the inline results, although it stops at a Reject |
| `Validation.RunValidators` | validation.go:336-388 | the trace of the join of all verdicts, with the global throttle |
| `Validation.Pipeline.Validate` | validation.go:310-388 | every call ends in exactly one of duplicate, reject and onValid, marks the id as seen unless the signature is bad, and asks the delivered ids exactly if the seen ones do not decide |
| `DeliveryRecords.ReleasedExactly` | score.go:773-798 | the peers map is released exactly with an invalid, ignored or throttled verdict |
| `DeliveryRecords.VerdictIsFinal` | score.go:708-798 | a record's status leaves unknown at most once |
| `DeliveryRecords.LifeFollows` | score.go:708-833 | status and peers as functions of what happened to the record |
| `DeliveryRecords.CreditedExactly` | score.go:708-833 | near-first credit is given at most once per record and peer, and to exactly these peers |
| `DeliveryRecords.FirstDelivererCountsTwice` | score.go:722-731 | the first deliverer is credited again for a repeat after validation |
| `DeliveryRecords.InvalidIsPenalised` | score.go:789-826 | every forwarder of an invalid message is penalised |
| `DeliveryRecords.PenalisedExactly` | score.go:734-833 | how often a peer is marked for an invalid message: once per clearly bad copy, for delivering it, for having forwarded it, and once per copy afterwards |
| `DeliveryRecords.FirstExactly` | score.go:708-732 | every delivery is credited once to the peer that it came from |
| `DeliveryRecords.VerdictTime` | score.go:716-798 | status and validation time of a record are those of its first verdict |
| `MessageDeliveries.UnexpiredExactly` | score.go:869-883 | of a sorted list, walking from the head drops exactly the expired entries |
| `MessageDeliveries.DeliveryQueue.Append` | score.go:856-864 | the linked list grows at the tail |
| `MessageDeliveries.MessageDeliveries.GetRecord` | score.go:846-867 | the table gains a new record at the end of its list, or stays; list sorted, without duplicates, with exactly the keys of the records |
| `MessageDeliveries.MessageDeliveries.Gc` | score.go:869-883 | the walk from the head leaves the table without its expired records |
| `MessageDeliveries.MessageDeliveries.DeliverMessage` | score.go:708-732 | the table after this call, the next event of the record's life and its credits, ready for the next call |
| `MessageDeliveries.MessageDeliveries.RejectMessage` | score.go:734-799 | likewise for a rejection of any reason |
| `MessageDeliveries.MessageDeliveries.DuplicateMessage` | score.go:801-833 | likewise for a duplicate; a released map is not written |
| `MessageDeliveries.MessageDeliveries.Replay` | score.go:701-883 | any sequence of calls in order of time on a new table gives the specified table |
| `MessageDeliveries.RunOk` | score.go:846-883 | in every such run the list is sorted by expiry, without duplicates, with exactly the keys of the records, and every record is what its own events made it |
| `MessageDeliveries.RecordsInRuns` | score.go:708-833 | in every run each record's peers map is released exactly with its three verdicts, and nobody was credited near-first twice |
| `MessageDeliveries.CollectsExactly` | score.go:869-883 | a clean-up removes exactly the records whose list entry has expired |
| `Score.ValidationGuardsQuantumExactly` | score_params.go:269-294 | validation guarantees a quantum that score() can divide by exactly in atomic mode |
| `Score.RecappedBounded` | score.go:230-244 | recapping brings every counter under lowered caps and changes nothing if none is lowered |
| `Score.RefreshedBounded` | score.go:531-562 | decay keeps every counter in range |
| `Score.TopicScoreBound` | score.go:287-327 | a topic contributes at most its capped time in mesh and first deliveries |
| `Score.ClosedLowers` | score.go:634-646 | closing a stream lowers every topic's contribution |
| `Score.SumOut` | score.go:280-327 | the sum over topics does not depend on the order of visits |
| `PeerScore.StepInv` | score.go:207-985 | every handler keeps every counter between zero and its cap, and counters only for scored topics |
| `PeerScore.CountersStayInRange` | score.go:510-571 | so they are in every run, including changes of the caps |
| `PeerScore.ScoreIsBounded` | score.go:271-348 | in every run a score that can be computed never exceeds the bounds of its topics, nor the topic cap, plus the application term |
| `PeerScore.ClosingNeverRaises` | score.go:617-650 | closing a peer's outbound stream never raises a score that could be computed, and it still can be |
| `PeerScore.ZeroQuantumFails` | score.go:291-293 | from every state with a zero quantum a new peer that is grafted gets a score that divides by zero |
| `PeerScore.ScoresDefinedExactly` | score.go:280-299 | all scores in all continuations of a state under its parameters are defined exactly if none of its topics has a zero quantum |
| `PeerScore.ValidatedScoreCanFail` | score_params.go:269-294 | a run from validated parameters to a division by zero |
| `ScoreExact.InvalidCosts` | score.go:318-324 | one more invalid message changes the score by exactly (2n + 1) times the P4 weight times the topic weight, if there were n |
| `ScoreExact.FirstEarns` | score.go:924-950 | a first delivery changes it by exactly one first delivery up to the cap and one less missing mesh delivery |
| `ScoreExact.DuplicateEarns` | score.go:955-985 | a duplicate within the window changes it by exactly one less missing mesh delivery |
| `ScoreExact.PruneCosts` | score.go:675-697 | being pruned takes away exactly the time in mesh and adds what is missing to the failure penalty |
| `ScoreExact.GraftRestarts` | score.go:655-673 | being grafted takes away exactly the time in mesh and what is missing |
| `ScoreExact.QuantumEarns` | score.go:290-298 | one more quantum in the mesh adds exactly the P1 weight below the cap |
| `ScoreExact.PenaltyCosts` | score.go:397-411 | a behaviour penalty changes it by exactly the growth of the squared excess |
| `ScoreExact.CapCuts` | score.go:329-332 | a topic cap takes away exactly what the topics exceed it by |
| `ScoreExact.NewPeerScore` | score.go:601-615 | the score of a new peer with one address |
| `ScoreExact.SharedAddressCosts` | score.go:350-394 | a peer that takes the address of another changes the other's score by exactly the growth of the squared surplus |
| `ScoreTime.CountersFade` | score.go:531-571 | any number of refreshes keep a connected peer and multiply its counters by the power of their decay, or zero them below the limit |
| `ScoreTime.MeshTimeRuns` | score.go:556-562 | the time in mesh is that since the graft, and deliveries are expected once some refresh found it above the activation time |
| `ScoreTime.RetainedExactly` | score.go:515-530 | the statistics of a disconnected peer stay unchanged until the first refresh after their time, and go then |
| `ScoreTime.ClosedIsRetained` | score.go:617-650 | after a stream closes a peer is remembered exactly if its score is not positive, and for the retention period |
| `ScoreTime.ReconnectingKeepsPenalties` | score.go:523-526 | a peer that reconnects in time has all its penalties as before, and no first deliveries |
| `ScoreTable.CountAgrees` | score.go:384-390 | counting a set of the index is counting the tracked peers with that address |
| `ScoreTable.SetIPs` | score.go:1032-1070 | afterwards the index lists exactly the tracked peers per address, without empty sets |
| `ScoreTable.Forget` | score.go:1073-1085 | likewise after removing a peer |
| `ScoreTable.PeerScoreTable.IPColocationFactor` | score.go:350-394 | with whitelist cache and index, the factor is that of the direct count |
| `ScoreTable.PeerScoreTable.ComputeScore` | score.go:271-348 | the loops compute the score of which ScoreExact gives every difference, if it divides by no zero quantum |
| `ScoreTable.PeerScoreTable.OnNewOutboundStream` | score.go:601-615 | tracks the peer, in statistics and index |
| `ScoreTable.PeerScoreTable.OnClosedOutboundStream` | score.go:617-650 | forgets a positive score, retains any other with its penalties |
| `ScoreTable.PeerScoreTable.Graft` | score.go:655-673 | starts the time in mesh |
| `ScoreTable.PeerScoreTable.Prune` | score.go:675-697 | adds the sticky penalty |
| `ScoreTable.PeerScoreTable.MarkFirstMessageDelivery` | score.go:924-950 | counts up to both caps |
| `ScoreTable.PeerScoreTable.MarkDuplicateMessageDelivery` | score.go:955-985 | counts within the window up to the cap |
| `ScoreTable.PeerScoreTable.MarkInvalidMessageDelivery` | score.go:907-919 | counts |
| `ScoreTable.PeerScoreTable.AddPenalty` | score.go:397-411 | counts behaviour penalties |
| `ScoreTable.PeerScoreTable.RefreshScores` | score.go:510-571 | purges expired peers from statistics and index and decays the others |
| `ScoreTable.PeerScoreTable.RefreshIPs` | score.go:574-591 | moves connected peers to their current addresses in both |
| `ScoreTable.PeerScoreTable.SetTopicScoreParams` | score.go:207-247 | recaps exactly if a cap is lowered |
| `Promises.BreakPromises` | gossip_tracer.go:79-114 | exactly the expired promises go from both maps, and each is counted once for its peer |
| `Promises.SettledAccounts` | gossip_tracer.go:48-141 | settling gives each promise that a call ends its one fate, and leaves the fates of others, and the numbers and times of open promises, as they are |
| `Promises.GossipTracer.AddPromise` | gossip_tracer.go:48-75 | a new promise enters both maps under the next number; a promise that exists and all others keep their times and numbers |
| `Promises.GossipTracer.GetBrokenPromises` | gossip_tracer.go:79-114 | exactly the expired promises are settled as broken and counted per peer; all others keep number, time and fate |
| `Promises.GossipTracer.FulfillPromise` | gossip_tracer.go:119-141 | exactly the promises about the message are settled as fulfilled, and all others stay |
| `Promises.GossipTracer.ThrottlePeer` | gossip_tracer.go:182-200 | exactly the promises of the peer are settled as voided, and all others stay |
| `Promises.GossipTracer.Replay` | gossip_tracer.go:48-200 | any sequence of calls on a new tracer gives the specified ledger |
| `Promises.RunAccounts` | gossip_tracer.go:48-200 | in every run each promise made so far is open or has one fate, never both |
| `Promises.PromiseLife` | gossip_tracer.go:48-200 | in every run a promise is open, with its number and time, until the first later call that ends it, and has the fate of that call ever after |
| `Promises.PromiseFate` | gossip_tracer.go:48-200 | the same with the calls spelled out: fulfilled if its message arrived first, voided if its peer was throttled first, broken if it was looked for after its time first |
| `Promises.MadeBy` | gossip_tracer.go:48-75 | every number belongs to a promise that some call of the run made |
| `Promises.BlamedOnce` | gossip_tracer.go:79-114 | in every run the counts of all checks for a peer add up to the number of its promises that were broken |
| `IDontWant.ChecksumsDiffer` | gossipsub.go:2334-2342 | distinct ids have distinct checksums if the hash is injective |
| `IDontWant.SizeFromClasses` | gossipsub.go:1928-1946 | entries counted by age |
| `IDontWant.MemoryBound` | gossipsub.go:1192-1228 | in every run a peer has at most max(TTL, 1) * MaxIDontWantMessages * MaxIDontWantLength entries |
| `IDontWant.LastsExactly` | gossipsub.go:1928-1946 | in every run an entry that is not refreshed lasts exactly until the TTL-th heartbeat |
| `IDontWantExact.RemembersExactly` | gossipsub.go:1192-1228 | in every run an entry is there exactly if the peer named such an id in a message that was heard, within the length limit, with its stream not closed and fewer heartbeats than the TTL since |
| `IDontWantExact.HeardExactly` | gossipsub.go:1198-1203 | in every run a peer's messages are heard up to the limit per heartbeat |
| `IDontWantExact.TakenExactly` | gossipsub.go:1209-1227 | exactly the first so many ids of a message count, over all its lists |
| `IDontWantExact.ShortIdsDiffer` | gossipsub.go:2334-2342 | ids of up to 32 bytes are told apart whatever the hash |
| `IDontWant.Router.HandleIDontWant` | gossipsub.go:1192-1228 | the nested loops with their two limits remember the first ids of the first messages |
| `IDontWant.Router.ClearIDontWantCounters` | gossipsub.go:1928-1946 | counters are reset, entries age, dead entries and empty maps go |
| `IDontWant.Router.OnClosedOutboundStream` | gossipsub.go:814-814 | the peer's entries go, its counter stays |
| `MessageCache.SlotsByAge` | mcache.go:94-104 | slot k holds exactly what was put k shifts ago |
| `MessageCache.RetrievableExactly` | mcache.go:55-64 | Get succeeds exactly if no slot that holds the id was dropped since its last put |
| `MessageCache.WindowExactly` | mcache.go:55-104 | an id that is not put twice within the window can be retrieved exactly if it was put fewer than history shifts ago |
| `MessageCache.AdvertisedExactly` | mcache.go:82-92 | gossip lists exactly the topic's ids of the last gossip slots |
| `MessageCache.AdvertisedStaysRetrievable` | mcache.go:8-20 | what is advertised, and not put again within the window, can be retrieved for history - gossip more shifts |
| `MessageCache.PutTwiceIsLostEarly` | mcache.go:94-99 | an id put twice within the window is lost early |
| `MessageCache.ServedAtMost` | gossipsub.go:1028-1043 | an id is served to a peer at most GossipRetransmission times per lifetime in the cache |
| `MessageCache.Cache.Put` | mcache.go:55-59 | as specified |
| `MessageCache.Cache.GetForPeer` | mcache.go:66-80 | counts the requests of a peer for a cached message |
| `MessageCache.Cache.GetGossipIDs` | mcache.go:82-92 | the two loops list the ids of a topic |
| `MessageCache.Cache.Shift` | mcache.go:94-104 | the in-place move drops the last slot's messages and opens an empty one |
| `MessageCache.Cache.HandleIWant` | gossipsub.go:1012-1058 | a peer at or above the gossip threshold is served, once each, exactly the wanted, cached, admitted messages within the limit; others change nothing |
| `PartialGroups.StepKeeps` | partialmessages/partialmsgs.go:119-363 | every handler keeps counts below live groups and limits, and keeps a peer's count exact unless it closes that peer's stream |
| `PartialGroups.LimitsHold` | partialmessages/partialmsgs.go:333-363 | in every run the counts sum up to at most the limit, each between 1 and its limit, at most the live groups, and equal for a peer whose stream was not closed |
| `PartialGroups.PilesUp` | partialmessages/partialmsgs.go:244-253 | for every n a run after which a peer that reconnects has initiated n groups, all still there, and no count |
| `PartialGroups.PeerLimitedExactly` | partialmessages/partialmsgs.go:95-98 | in all runs a peer has at most its limit of groups exactly if its stream does not close, or there is no room for any group |
| `PartialGroups.TotalLimitedExactly` | partialmessages/partialmsgs.go:90-93 | in all runs the peers together have at most the total limit of groups exactly if no stream closes, or there is no room for any group |
| `PartialGroups.SumIsForeign` | partialmessages/partialmsgs.go:323-356 | exact counts add up to the number of groups that peers initiated |
| `PartialGroups.GoneInTime` | partialmessages/partialmsgs.go:255-271 | in every run a group not republished is gone within max(TTL, 3) + 1 heartbeats |
| `PartialGroups.LivesExactly` | partialmessages/partialmsgs.go:255-271 | in every run a group in which somebody has state lives for exactly max(TTL, 3) heartbeats |
| `PartialGroups.ClosedHasNoState` | partialmessages/partialmsgs.go:244-253 | in every run a peer whose stream closed has state in no group until something brings it back |
| `PartialGroups.GroupBegins` | partialmessages/partialmsgs.go:119-140 | a group begins with that time to live, a peer's exactly if both limits allow |
| `PartialGroups.TopicGroups.Inc` | partialmessages/partialmsgs.go:333-346 | counts up exactly within both limits; the total stays the sum |
| `PartialGroups.TopicGroups.Dec` | partialmessages/partialmsgs.go:348-356 | counts down a peer that has a count |
| `PartialGroups.TopicGroups.HandleRPC` | partialmessages/partialmsgs.go:302-321 | a peer's RPC uses, creates or is refused a group |
| `PartialGroups.TopicGroups.PublishPartial` | partialmessages/partialmsgs.go:216-233 | publishing makes the group ours and renews it |
| `PartialGroups.TopicGroups.OnClosedOutboundStream` | partialmessages/partialmsgs.go:244-253 | the peer loses its state and its counts |
| `PartialGroups.TopicGroups.Heartbeat` | partialmessages/partialmsgs.go:255-271 | dead groups go and give their slots back, the others age |
| `PartialGroups.TopicGroups.EmitGossip` | partialmessages/partialmsgs.go:273-296 | peers are added to our own groups only |
| `RoundRobin.YieldsCount` | messagebatch.go:62-78 | what is yielded is, with multiplicity, what was yielded per id |
| `RoundRobin.Scheduler.AddRPC` | messagebatch.go:55-60 | appended to its id's queue |
| `RoundRobin.Scheduler.All` | messagebatch.go:62-78 | terminates with exactly the added RPCs, in order per id, and at every point two ids with RPCs left are at most one yield apart |

## Left out

- Streams, hosts, dialling, discovery, address book, signing, tracing and logging: input and output, or libraries that are not part of this model.
- Peer exchange beyond the decision to offer and to take up: which records makePrune puts in, and the truncation and record checks of pxConnect.
- Fanout maintenance, gossip emission and their thresholds: `Backoff` allows any change of the fanout instead, on which backoff does not depend.
- Peer gater, blacklist, subscription filter, floodsub and randomsub routers, tag tracer: only easy facts.
- Liveness of blocked queue operations and of context cancellation: the models are about safety, and about what can still happen next.
- Dynamic direct peers: the set of direct peers is an input of each step.
- Early stop of the consumer of `split` and of the scheduler: both are modelled to the end.
- Unknown protobuf fields and nil elements of repeated fields: the RPC datatypes have neither.
- `Backoff` takes one clock reading for all entries that one handler adds, and treats a missing entry as earlier than any expiry, as Go's zero time is.
- `Router` adds the backoff entries of a topic's pruned peers when the topic is done, and not one by one, and sends the PRUNEs of Leave first; nothing reads them in between.
- Router.GossipSubRouter.Heartbeat: leaves out fanout maintenance and gossip emission, and which pruned peers get no offers.
- `Announce` has one step per handler and treats a hello to a stream that has already died as no step.
- `EventLog` and `PartialGroups` model one topic; nothing in them crosses topics. The entry of a topic without groups is not modelled.
- `Validation` runs the goroutine of the async validators to its end within the call, and takes free throttle slots as inputs.
- `PeerScore`: AppSpecificScore is a fixed function, and rounding of floating-point numbers is not modelled.
- `ScoreTable` keeps the whitelist cache beside the statistics and not inside them; it survives a peer, which the invariant allows because it only ever holds what the whitelist says.
- `MessageCache` and `IDontWant` take message ids and control lists as they arrive.
