# Range++ in Dafny

Range++ is a replicated, versioned graph store. Writes are agreed on by a Paxos-like protocol, applied to
nodes that remember every earlier version of their edges and tags, and read back through graph
traversals and a small expression language. This project models those parts and proves what they
promise, for every input, every run and every graph, cyclic ones included. Where a promise fails, the
project shows an input on which it does and states when it holds.

`dafny verify dfyconfig.toml` checks all of it.

## How it is organised

| part | modules |
|---|---|
| consensus: the protocol and its safety | `Quorums`, `PaxosRoles`, `LearnerTimeouts`, `PaxosProtocol`, `PaxosSafety`, `PaxosLearning`, `PaxosRuns`, `PaxosDisagreement`, `PaxosAgreement` |
| consensus: progress | `PaxosProgress`, `PaxosCalls`, `PaxosExhaustion`, `PaxosProposer`, `PaxosSolo`, `PaxosRounds`, `PaxosLiveness`, `PaxosServing` |
| versioned node | `NodeRecord`, `NodeHistory`, `NodeTags`, `NodeRefinement`, `TagOrder`, `ProtobufNode` |
| leader failover | `Heartbeat` |
| graph and its writes | `RangeGraph`, `WriteApi`, `WriteLaws`, `RangeWrites`, `NodeStore`, `HostWrites` |
| traversals | `Walks`, `Expand`, `ExpandHosts`, `TopologicalSort`, `BreadthFirst`, `CommonAncestor`, `FirstFound`, `EarlyBreak`, `Lopsided`, `LopsidedWrites` |
| expressions | `SortedMerges`, `SequenceExpansion`, `SequenceWords`, `Expressions`, `ExpressionNodes`, `SortedResults`, `ExpressionMeaning`, `ExpressionVisitor` |
| transactions | `Transactions` |
| message queue | `MessageQueue` |
| shared | `Basics`, `SetSizes` |

**Consensus.** `PaxosProtocol` is a state machine: proposers cut at every network exchange, accepters,
learners, a network that keeps every message ever sent (so it may lose, delay, reorder and repeat them)
and LEARN datagrams that are each delivered at most once. A round number stands for the reply address of
one PREPARE or PROPOSE call. The quorum ceil(0.60 n) is written ceil(3n/5). Counters the constructors leave
unset start at 0, and the set of accepters is fixed and non-empty. Promises carry no accepted value, so each
proposal number is a slot of its own. The retry loop can reach `propose` after its last failed
`prepare`; that is a step of its own (`FallThrough`), and each theorem says whether it needs that step
excluded. A shutdown or an error can end a request only between two calls, because the number is raised
before a call returns. The listener queues every LEARN with its checksum zeroed, so learners compare 0 with 0.

What comes out: with or without fall-through, at most one request is accepted by a quorum per number, and a
quorum of promises closes all lower numbers (`ChosenIsUnique`, `PromiseFreezes`, `LowerNumbersClosed`); a
learner executes a number at most once (`LearnedAtMostOnce`). Without fall-through a number belongs to one request
(`OneProposePerNumber`) and all learners agree (`CleanRunsAgree`), and such runs do learn (`CleanRunsLearn`).
With fall-through learners can disagree: they agree in every run exactly when there are fewer than two
accepters, fewer than two learners or fewer than two proposers (`AgreementExactly`).

A proposer that is left alone, each round answered by all accepters and read up to the first quorum of replies, is
described by a function of the accepters' states (`Retry`). It ends accepted for up to 102 accepters
(`LoneProposerSucceeds`, `SmallEnough`), and for 103 or more there are promises and reply orders that defeat it
(`LargeMembershipCanFail`). `RetryIsRun` continues any reachable state by that proposer's own steps and accepters' answers
only, each round read from exactly the accepters the function names, to the function's verdict and number of failures.
So, with accepters named 0, 1, 2 and so on, an idle proposer in any reachable state gets its request accepted by
a quorum (`RequestGetsChosen`), and the promises on which 103 accepters or more defeat it are ones that a second proposer leaves
behind (`LargeMembershipGivesUp`): a lone proposer is always served exactly when there are at most 102 accepters or no
second proposer (`ServedExactly`).

A call of `prepare` or `propose` is spelled out on the accepters' promises by `PrepareDone` and `ProposeDone`. A
learner's turns are followed over time by `LearnerTimeouts`: datagrams that keep coming complete an entry
(`KeptComingCompletes`), and an incomplete one that hears nothing for longer than the timeout is gone (`SilentAreGone`).

**Versioned node.** The record with its version lists refines an append-only list of snapshots
(`RunRefinesHistory`): whatever the operations, reading at version v gives the edge sets and tag values
that were current when the list version was v. The comment at librange/db/pbuff_node.cpp:592 says that
a removed key is not added back correctly; the code does add it back, and the theorem covers it. The
node type is not versioned in the source and not part of a snapshot; it is the one last set (`RunKeepsType`). A key lists its
values in the order in which it first got them (`SetKeyLists`). The order of edges at old versions is not kept
when an edge is added again; `OldOrderKept` says exactly when it survives, `OldOrderLost` shows that it
need not.

**Graph.** `WriteApi.RunsKeepStructure` is the invariant of all create, add and remove-edge writes, and
`NodeStore.RecordsKeepStructure` carries it to the versioned records. It needs environments to have a non-empty name
without '#', and a cluster to be put into another cluster, of a named environment. Each end of an edge is loaded into an
object of its own, so a cluster put into itself loses the forward edge it just got; `CreateEnvExactly`, `SelfLinkExactly`
and `UnnamedEnvironment` say exactly when such a write keeps the structure. Under
the invariant the guard of host removal does not depend on the order of its walk (`RemoveHostAllowed`). The traversals themselves
are proved on arbitrary graphs. `WriteLaws` says of each write, on the graph alone, when it is accepted, which error comes
otherwise, and exactly which nodes and edges change. What the traversals return is stated on paths of the graph that are
spelled out edge by edge (`IsPathDown`, `PathForward`, `PathUp`).

**Nearest common ancestor.** The answer is always a common ancestor with its true distance. With m the least sum of
distances, it is a nearest one on every graph whose ancestors of the two nodes all lie within 2m + 1, and on every graph
if m = 0 (`NearestWithin`). The bound is exact: for every m >= 1 permitted writes build a graph whose ancestors lie within 2m + 2 on which
the early exit makes the loop answer m + 1 (`LopsidedWrites.NearestCanBeMissed`). Of nodes equally near, the one found first
stays (`OnlyNearerReplaces`, `SharedParentMetFirst`).

**Expressions.** `Eval` is the visitor's result, `Denote` the set a tree stands for. They agree unless a
difference has repeats on its left (`EvalAgrees`, `DifferenceExact`, `RepeatsSurvive`). What `%`, the cluster operator, the values of a
key and the admin operator list is spelled out on the graph by `ExpressionNodes`, and what a sequence gives on its two words by `SequenceWords`. Regular
expressions are opaque matchers, and the order in which a hash table lists its keys is a parameter.

**Transactions.** The iteration order of the pending map is left open, so the results hold for every order.

**Message queue.** `OverrunsExactly` says which message lengths the sender cannot put into its buffer;
all others come back unchanged (`RoundTrip`, `AllRoundTrip`). Numbers in a header are taken to be little-endian, which the
source leaves to the machine (`WireFormat`).

## Model

| member | source | states |
|---|---|---|
| `Quorums.QuorumsIntersect` | stored/paxos_proposer.cpp:134 | two sets of ceil(3n/5) accepters share a member |
| `PaxosRoles.Accepter.Promise` | stored/paxos_accepter.cpp:97-117 | a number is promised exactly when above every earlier promise, otherwise answered with a NACK carrying the promise; the accepted counter is untouched |
| `PaxosRoles.Accepter.Accept` | stored/paxos_accepter.cpp:121-155 | a proposal is accepted exactly when its number is the one promised and not yet accepted |
| `PaxosRoles.Learner.CountBatch` | stored/paxos_learner.cpp:46-67 | the table after a batch is that of counting its requests one by one, which `LearnerTimeouts.BatchCounts` spells out |
| `PaxosRoles.Learner.CleanupDeadRequests` | stored/paxos_learner.cpp:92-112 | exactly the incomplete entries older than the timeout go |
| `PaxosRoles.Learner.LearnCompletedRequests` | stored/paxos_learner.cpp:77-87 | only the lowest-numbered entry is learned, and only when complete |
| `LearnerTimeouts.BatchCounts` | stored/paxos_learner.cpp:46-67 | what a batch makes of every number: one it does not mention stays; a known entry counts the datagrams with its checksum and is refreshed by them; a new one is opened for its first datagram |
| `LearnerTimeouts.EventTask` | stored/paxos_learner.cpp:40-73 | one turn: the batch counted, the dead entries dropped, the lowest number learned if complete |
| `LearnerTimeouts.CountedSurvives` | stored/paxos_learner.cpp:64-108 | a number of which a datagram was counted survives a cleanup within the timeout, with its count |
| `LearnerTimeouts.SilentAreGone` | stored/paxos_learner.cpp:92-112 | an incomplete entry left after a turn heard a datagram within the timeout |
| `LearnerTimeouts.KeptComingCompletes` | stored/paxos_learner.cpp:40-112 | a quorum of datagrams for one request, no cleanup more than the timeout after the last, completes its entry |
| `PaxosSafety.RunInv` | stored/paxos_accepter.cpp:97-155 | in every run an accepter promises and accepts each number at most once, and answers only what was sent |
| `PaxosSafety.CleanRunInv` | stored/paxos_proposer.cpp:71-84 | in runs without fall-through every PROPOSE is backed by a quorum of promises to its own prepare round |
| `PaxosSafety.OneProposePerNumber` | stored/paxos_proposer.cpp:129-225 | in such runs no two requests are proposed under one number, across all proposers |
| `PaxosSafety.ChosenIsUnique` | stored/paxos_accepter.cpp:121-155 | in all runs, fall-through included, at most one request per number is accepted by a quorum |
| `PaxosSafety.PromiseFreezes` | stored/paxos_accepter.cpp:97-134 | once an accepter has promised n, it accepts nothing more below n in the rest of the run |
| `PaxosSafety.LowerNumbersClosed` | stored/paxos_accepter.cpp:97-155 | once a quorum has promised n, a lower number can be chosen only if a member of that quorum had already accepted it |
| `PaxosLearning.RunLearn` | stored/paxos_learner.cpp:46-112 | counts never exceed the datagrams heard, across flushed and reopened entries |
| `PaxosLearning.LearnedAtMostOnce` | stored/paxos_learner.cpp:77-112 | in every run a learner learns a number at most once |
| `PaxosLearning.LearnedIsChosen` | stored/paxos_learner.cpp:51-87 | with one request per number, what is learned was accepted by a quorum |
| `PaxosLearning.LearnersAgree` | stored/paxos_learner.cpp:51-87 | with one request per number, any two learners learn the same request for a number |
| `PaxosLearning.CleanRunsAgree` | stored/paxos_proposer.cpp:72-84 | every run without fall-through has one request per number, so its learners agree |
| `PaxosDisagreement.LearnersCanDisagree` | stored/paxos_proposer.cpp:72-84 | for any two proposers, accepters and learners of any membership and any two requests, a reachable state in which the two learners learned different requests for one number |
| `PaxosAgreement.OneAccepterAgrees` | stored/paxos_accepter.cpp:121-155 | with a single accepter learners agree |
| `PaxosAgreement.OneProposerAgrees` | stored/paxos_proposer.cpp:71-85 | with a single proposer, whose numbers only grow, learners agree, fall-through or not |
| `PaxosAgreement.AgreementExactly` | stored/paxos_proposer.cpp:72-84 | learners agree in every run, fall-through included, exactly when some role has fewer than two members |
| `PaxosAgreement.CleanRunsLearn` | stored/paxos_proposer.cpp:71-85 | for every membership and request there is a run without fall-through in which a learner executes it |
| `PaxosProgress.PrepareFailureShrinks` | stored/paxos_proposer.cpp:149-176 | a failed prepare raises the number and strictly shrinks the accepters at or above it, clearing all it read |
| `PaxosProgress.ProposeFailureShrinks` | stored/paxos_proposer.cpp:195-225 | so does a failed propose after a successful prepare |
| `PaxosCalls.PrepareExactly` | stored/paxos_proposer.cpp:129-177 | who promises, when the call succeeds and which number follows, from the accepters' promises alone |
| `PaxosCalls.ProposeExactly` | stored/paxos_proposer.cpp:182-225 | likewise for `propose` |
| `PaxosProgress.OvertakesAll` | stored/paxos_proposer.cpp:71-85 | with enough retries left the loop ends accepted, with no more failures than accepters to overtake |
| `PaxosProgress.LoneProposerSucceeds` | stored/paxos_proposer.cpp:71-85 | up to 102 accepters the loop always ends accepted, after at most 1 + n - q failures |
| `PaxosProgress.SmallEnough` | stored/paxos_proposer.cpp:134 | n - q is at most 40 exactly when n is at most 102 |
| `PaxosExhaustion.LargeMembershipCanFail` | stored/paxos_proposer.cpp:71-85 | for every larger membership the promises 1, 2, 3, ... and some reply orders make the loop give up |
| `PaxosProposer.Proposer.Prepare` | stored/paxos_proposer.cpp:129-177 | one call: whoever promised less promises the number; it succeeds exactly when everyone read did, and otherwise the number moves one above the highest promise read |
| `PaxosProposer.Proposer.Propose` | stored/paxos_proposer.cpp:182-225 | one call: whoever promised exactly the number, and has not accepted it, accepts; it succeeds exactly when everyone read did; the number moves on in either case |
| `PaxosProposer.Proposer.Tally` | stored/paxos_proposer.cpp:152-168 | counts what is not a NACK among the replies read and takes the highest number in a NACK |
| `PaxosProposer.Proposer.HandleRequest` | stored/paxos_proposer.cpp:71-85 | the nested loops end, with the verdict of the recursive `Retry` the theorems are about |
| `PaxosLiveness.RetryIsRun` | stored/paxos_proposer.cpp:71-85 | from any reachable state where the proposer stands before `prepare`, steps of that proposer and answers of accepters alone complete its request: the k-th call reads exactly the accepters the loop hears, and verdict and number of failures are those of `Retry`; accepted means by a quorum under a number not below the proposer's |
| `PaxosLiveness.RequestIsRun` | stored/paxos_proposer.cpp:71-85 | the same from the moment an idle proposer takes up a request in any reachable state |
| `PaxosLiveness.RequestGetsChosen` | stored/paxos_proposer.cpp:71-85 | with at most 102 accepters that continuation always ends in a `propose` accepted by a quorum, under a number not below the proposer's, after at most 1 + n - q failed calls |
| `PaxosServing.StaircaseReachable` | stored/paxos_proposer.cpp:129-177 | a second proposer whose PREPAREs reach one accepter each leaves the promises 1, 2, 3, ... behind |
| `PaxosServing.LargeMembershipGivesUp` | stored/paxos_proposer.cpp:71-85 | with 103 accepters or more and two proposers, a reachable state and reply orders from which the lone proposer's run ends without a quorum |
| `PaxosServing.LeaderSucceeds` | stored/paxos_proposer.cpp:71-85 | a proposer no promise is above succeeds after at most one failure, however many accepters |
| `PaxosServing.ServedExactly` | stored/paxos_proposer.cpp:71-85 | every request of a lone proposer is accepted, from every reachable state and for every order of replies, exactly when there are at most 102 accepters or fewer than two proposers |
| `NodeHistory.AddEdgeReads` | librange/db/pbuff_node.cpp:386-457 | the new edge is appended to the current list; old lists keep their members |
| `NodeHistory.RemoveEdgeReads` | librange/db/pbuff_node.cpp:497-549 | the edge is deleted in place; every old list is unchanged |
| `NodeRefinement.UpdatedKeyReads` | librange/db/pbuff_node.cpp:594-656 | after an update a key reads as the given values, and at earlier versions as before |
| `NodeRefinement.DeletedKeyReads` | librange/db/pbuff_node.cpp:661-707 | after a deletion the key is gone, and at earlier versions reads as before |
| `NodeRefinement.CarryTagsReads` | librange/db/pbuff_node.cpp:112-129 | carrying tags to the next version never takes the early return and changes no reading |
| `NodeRefinement.StepRefines` | librange/db/pbuff_node.cpp:386-740 | an operation is accepted exactly when it should be, changes the present by what was asked, and no earlier version |
| `NodeRefinement.RunRefinesHistory` | librange/db/pbuff_node.cpp:386-740 | after any operations, reading at any version v gives the snapshot current when the list version was v |
| `NodeRefinement.RunKeepsType` | librange/db/pbuff_node.cpp:723-740 | the type is the one last set, and setting it is always a new version |
| `TagOrder.StepKeepsLists` | librange/db/pbuff_node.cpp:386-740 | every accepted operation leaves the lists of old versions, order included, and at the new version only the named key's differs |
| `TagOrder.SetKeyLists` | librange/db/pbuff_node.cpp:641-649 | after any run, setting a key makes it list the values given, each once, in the order in which the whole run first gave them to it |
| `TagOrder.FirstSetLists` | librange/db/pbuff_node.cpp:641-649 | a key set for the first time, without repeats, lists its values as given |
| `ProtobufNode.ScanVersions` | librange/db/pbuff_node.cpp:253-264 | the backward scan finds a version, passes it, or runs out |
| `ProtobufNode.UpdateUniqueNewVersion` | librange/db/pbuff_node.cpp:75-90 | a list alive at the compared version gets the new one once, any other stays |
| `ProtobufNode.UpdateTagVersions` | librange/db/pbuff_node.cpp:113-129 | the loop over keys equals the recursive carrying, early return included |
| `ProtobufNode.Node.AddEdge` | librange/db/pbuff_node.cpp:386-457 | the record changes as the operation `AddEdge` says; refused exactly when the edge is current |
| `ProtobufNode.Node.RemoveEdge` | librange/db/pbuff_node.cpp:497-549 | likewise for `RemoveEdge` |
| `ProtobufNode.Node.SetType` | librange/db/pbuff_node.cpp:723-740 | likewise for `SetType`; the old type is returned |
| `ProtobufNode.Node.UpdateTag` | librange/db/pbuff_node.cpp:595-656 | likewise for `UpdateTag` |
| `ProtobufNode.Node.DeleteTag` | librange/db/pbuff_node.cpp:662-707 | likewise for `DeleteTag` |
| `ProtobufNode.Node.GetEdges` | librange/db/pbuff_node.cpp:243-267 | lists exactly the edges alive at the wanted version, in list order |
| `ProtobufNode.Node.Tags` | librange/db/pbuff_node.cpp:354-380 | the table of the keys alive at the wanted version with their lists of values then, in the order `TagOrder.SetKeyLists` gives |
| `Heartbeat.AddAppends` | librange/db/pbuff_node.cpp:416-457 | adding appends to the visible order, also for an edge removed before; old orders have it moved last |
| `Heartbeat.RemoveDeletes` | librange/db/pbuff_node.cpp:497-549 | removing deletes in place and leaves old orders alone |
| `Heartbeat.OldOrderKept` | librange/db/pbuff_node.cpp:421-446 | an old order survives an addition exactly when the edge was absent then or already last |
| `Heartbeat.OldOrderLost` | librange/db/pbuff_node.cpp:421-446 | removing and adding the first of two edges reverses an old order |
| `Heartbeat.TwoEdges` | librange/db/pbuff_node.cpp:386-457 | a new node that gets two edges shows them in that order, so such nodes exist |
| `Heartbeat.ReorderRotates` | stored/heartbeat.cpp:80-99 | remove then add rotates the failed proposer to the tail |
| `Heartbeat.RotationLaws` | stored/heartbeat.cpp:80-99 | membership kept, earlier ones unmoved, later ones up by one, the failed one last |
| `Heartbeat.WhoReorders` | stored/paxos_proposer.cpp:95-114 | who carries out the two writes of a reordering: the first proposer, or, when the one acting is second, it itself and then the third; never the failed one |
| `Heartbeat.TakesOver` | stored/heartbeat.cpp:37-99 | on the node record, after rounds with any answers: a proposer at place k has its f nearest predecessors at the tail, nearest first, f being the failures up to k; it is first exactly when at least k rounds have failed |
| `Heartbeat.Monitor.Run` | stored/heartbeat.cpp:37-75 | the worker's rounds, one after the other, leave the record `TakesOver` speaks of |
| `Heartbeat.Monitor.EventTask` | stored/heartbeat.cpp:37-75 | only a proposer with a failed predecessor acts; the predecessor goes to the tail, the proposer moves up one place, the second becoming distinguished |
| `RangeGraph.UnprefixUndoes` | librange/core/read_api.cpp:78-112 | a node's own name comes back from its prefixed one |
| `RangeGraph.ShownAlike` | librange/core/read_api.cpp:78-93 | exactly which two names are shown alike |
| `WriteApi.LinkOk` | librange/db/pbuff_node.cpp:463-475 | a new edge of the right kind, within one environment, keeps the graph's structure |
| `WriteApi.UnlinkOk` | librange/db/pbuff_node.cpp:555-587 | removing both ends of an edge keeps it |
| `WriteApi.WriteKeeps` | librange/core/write_api.cpp:121-662 | every permitted write keeps: edges mirrored, typed, within one environment, nodes in both graphs with one type |
| `WriteApi.RunsKeepStructure` | librange/core/write_api.cpp:121-662 | so does every run of permitted writes |
| `WriteApi.LinkBelowExactly` | librange/core/write_api.cpp:353-370 | putting one cluster below another keeps the structure exactly when they are two, of one environment |
| `WriteApi.SelfLinkExactly` | librange/core/write_api.cpp:309-372 | in a named environment the write keeps the structure exactly when the cluster is not put into itself |
| `WriteApi.CreateEnvExactly` | librange/core/write_api.cpp:121-149 | creating an environment keeps the structure exactly when its name exists already, which is refused, or is not empty and has no '#' |
| `WriteApi.UnnamedEnvironment` | librange/core/write_api.cpp:309-372 | without an environment's name it does exactly when both full names are of one environment and differ |
| `WriteLaws.CreateEnvLaw` | librange/core/write_api.cpp:121-149 | accepted exactly if the name is new; then just that environment is added, in both graphs |
| `WriteLaws.AddClusterToEnvLaw` | librange/core/write_api.cpp:188-253 | accepted exactly if the environment is one, the cluster absent or one, and not yet in it; which error otherwise; then one edge at the end of both lists and no other change |
| `WriteLaws.RemoveClusterFromEnvLaw` | librange/core/write_api.cpp:258-304 | accepted exactly if both exist, are of their types, and are linked; which error otherwise; then that edge is gone from both ends and nothing else |
| `WriteLaws.AddClusterToClusterLaw` | librange/core/write_api.cpp:309-372 | accepted exactly if the parent is a cluster and the child absent or one; an edge already there is no error and changes nothing; a cluster put into itself gets the reverse edge only |
| `WriteLaws.RemoveClusterFromClusterLaw` | librange/core/write_api.cpp:377-427 | likewise for two clusters |
| `WriteLaws.AddHostToClusterLaw` | librange/core/write_api.cpp:472-574 | accepted exactly if the parent is a cluster, the host absent or one, in no cluster of another environment, and not in this one yet; which error otherwise; then one edge and no other change |
| `WriteLaws.RemoveHostFromClusterLaw` | librange/core/write_api.cpp:579-628 | likewise for a host |
| `WriteLaws.AddHostLaw` | librange/core/write_api.cpp:633-662 | accepted exactly if the name is new; then just that host is added, in both graphs |
| `RangeWrites.RangeApi.CreateEnv` | librange/core/write_api.cpp:121-149 | an existing name is refused; otherwise the environment is created in both graphs, and the structure is kept exactly if the name is not empty and has no '#' |
| `RangeWrites.RangeApi.AddClusterToEnv` | librange/core/write_api.cpp:188-253 | does what `WriteLaws.AddClusterToEnvLaw` spells out; structure kept |
| `RangeWrites.RangeApi.RemoveClusterFromEnv` | librange/core/write_api.cpp:258-304 | does what `WriteLaws.RemoveClusterFromEnvLaw` spells out; structure kept |
| `RangeWrites.RangeApi.AddClusterToCluster` | librange/core/write_api.cpp:309-372 | does what `WriteLaws.AddClusterToClusterLaw` spells out; structure kept if the environment is named and the clusters differ |
| `RangeWrites.RangeApi.RemoveClusterFromCluster` | librange/core/write_api.cpp:377-427 | does what `WriteLaws.RemoveClusterFromClusterLaw` spells out; structure kept |
| `RangeWrites.RangeApi.ClustersInEnvironment` | librange/core/write_api.cpp:522-528 | true exactly when every cluster right above the host is named as the environment's |
| `RangeWrites.RangeApi.AddHostToCluster` | librange/core/write_api.cpp:472-574 | does what `WriteLaws.AddHostToClusterLaw` spells out; structure kept |
| `RangeWrites.RangeApi.RemoveHostFromCluster` | librange/core/write_api.cpp:579-628 | does what `WriteLaws.RemoveHostFromClusterLaw` spells out, starting from the host's end; structure kept |
| `RangeWrites.RangeApi.AddHost` | librange/core/write_api.cpp:633-662 | does what `WriteLaws.AddHostLaw` spells out |
| `RangeWrites.OneEnvironmentAbove` | librange/core/write_api.cpp:691-706 | any two environments above a node are one |
| `RangeWrites.RangeApi.RemoveHostAllowed` | librange/core/write_api.cpp:674-707 | the walk ends, and allows removal exactly when every environment above the node is the given one, in whatever order it walks |
| `RangeWrites.MembersHaveRecords` | librange/core/write_api.cpp:245-251 | on a store built by the writes every member of an environment has the dependency node the sort needs |
| `NodeStore.CurrentAdded` | librange/db/pbuff_node.cpp:386-457 | a record read at its current version gains the edge at the end of one list and keeps the other |
| `NodeStore.CurrentRemoved` | librange/db/pbuff_node.cpp:497-549 | it loses the edge from one list and keeps the other |
| `NodeStore.ViewRecorded` | librange/core/write_api.cpp:121-662 | a store of versioned records, read at the current versions, becomes the graph after the write |
| `NodeStore.RecordsKeepStructure` | librange/core/write_api.cpp:121-662 | so it does over every run of permitted writes, and keeps the graph's structure |
| `Walks.SimpleWalkExists` | librange/core/read_api.cpp:555-557 | whatever is reachable is reachable by a simple walk |
| `Expand.PushEdge` | librange/core/read_api.cpp:553-559 | pushing a frame leaves the tree the stack will return unchanged |
| `Expand.PopFrame` | librange/core/read_api.cpp:560-572 | so does finishing one |
| `Expand.ExpandNode` | librange/core/read_api.cpp:512-575 | the loop ends on every graph and returns the recursive tree |
| `ExpandHosts.ExpandIsAllSimplePaths` | librange/core/read_api.cpp:476-575 | the tree's paths are exactly the simple walks of at most `depth` edges through clusters and environments, each ending at the node it names |
| `ExpandHosts.HostsAreReachable` | librange/core/builtins.cpp:71-115 | the hosts collected from the tree are exactly the reachable hosts |
| `ExpandHosts.HostsVisitor.Visit` | librange/core/builtins.cpp:80-103 | the visitor appends exactly the tree's hosts, each as often as there are paths to it in the tree |
| `ExpandHosts.ExpandHostsFn` | librange/core/builtins.cpp:119-147 | the result holds exactly the hosts reachable from the argument's elements, element by element, each once for every simple path down to it; unresolved elements add none; a wrong number of arguments gives none |
| `ExpandHosts.GetNodeExactly` | librange/core/read_api.cpp:117-179 | which node a name asks for: an environment by its own name or none, a host or string without one, else what has the prefix, else a host |
| `ExpandHosts.HostsCounted` | librange/core/builtins.cpp:71-115 | a host is collected once for every simple path down to it |
| `HostWrites.JoinedHostIsExpanded` | librange/core/write_api.cpp:472-574 | after a cluster was put into an environment and a host into the cluster, the environment expands to that host |
| `HostWrites.LeftHostIsAlone` | librange/core/write_api.cpp:579-628 | after a host was taken out of its only cluster no path leads down to it |
| `TopologicalSort.CollectMembers` | librange/core/read_api.cpp:897-914 | every node below the environment that is not one itself, once each |
| `TopologicalSort.SortedMeansAcyclic` | librange/core/read_api.cpp:939-957 | a finished post-order leaves no cycle below its members |
| `TopologicalSort.VisitFrom` | librange/core/read_api.cpp:919-959 | one search from a member emits what is not yet emitted, or finds a cycle that is there |
| `TopologicalSort.EnvironmentTopologicalSort` | librange/core/read_api.cpp:881-962 | a cycle is raised exactly when one is reachable; otherwise no repeats, exactly the members and what they depend on, dependents first |
| `TopologicalSort.ShownRepeats` | librange/core/read_api.cpp:956 | the shown names repeat exactly when a name and its prefixed form both occur |
| `BreadthFirst.PoppedAtDistance` | librange/core/read_api.cpp:675-697 | a node first popped is popped at its shortest distance |
| `BreadthFirst.NearestCarrierLaw` | librange/core/read_api.cpp:657-701 | the search's node carries the key, none carrying it is nearer, and there is one exactly when an ancestor-or-self carries it |
| `BreadthFirst.SearchParentsForFirstKey` | librange/core/read_api.cpp:675-697 | the loop ends on cyclic graphs with that node |
| `FirstFound.FirstParentFound` | librange/core/read_api.cpp:675-697 | when the node itself does not hold the key, the first of its parents that does is the answer |
| `CommonAncestor.NearestCommonAncestor` | librange/core/read_api.cpp:780-876 | the loop ends; success exactly when the ancestor sets meet; the node is in both and its distance the sum of its two shortest distances; least if both queues drained |
| `CommonAncestor.DrainedIsBest` | librange/core/read_api.cpp:811-869 | with both queues drained no common ancestor has a smaller sum |
| `FirstFound.OnlyNearerReplaces` | librange/core/read_api.cpp:829-857 | an answer gives way only to a nearer one |
| `FirstFound.SharedParentMetFirst` | librange/core/read_api.cpp:811-858 | of the parents two nodes share, the answer is the one both lists have shown first, read side by side |
| `FirstFound.LastTurnExactly` | librange/core/read_api.cpp:811-869 | the loop stops exactly when both queues are empty or a turn took from either a node more than twice the best distance away |
| `EarlyBreak.NearestWithin` | librange/core/read_api.cpp:811-869 | with all ancestors within 2m + 1, m the least sum, or with m = 0, the answer is a nearest common ancestor, whatever the order of edges |
| `Lopsided.NearestMissed` | librange/core/read_api.cpp:865-868 | on a family of graphs with all ancestors within 2m + 2 the early exit makes the answer m + 1 |
| `LopsidedWrites.NearestCanBeMissed` | librange/core/read_api.cpp:865-868 | for every m >= 1 permitted writes build such a graph |
| `SortedMerges.UnionCounts` | librange/compiler/expanding_visitor.cpp:84-92 | the merge has each name the maximum of its two multiplicities |
| `SortedMerges.DifferenceCounts` | librange/compiler/expanding_visitor.cpp:141-148 | the truncated difference |
| `SortedMerges.IntersectionCounts` | librange/compiler/expanding_visitor.cpp:170-177 | the minimum |
| `SortedMerges.UniqueCounts` | librange/compiler/expanding_visitor.cpp:285-287 | sorting and dropping adjacent repeats leaves each name once |
| `Expressions.OperatorCounts` | librange/compiler/expanding_visitor.cpp:75-180 | the operators' multiplicities on unsorted operands with repeats |
| `Expressions.RegexPartitions` | librange/compiler/expanding_visitor.cpp:98-180 | `,&/re/` and `,-/re/` divide every occurrence of the left operand between them |
| `SortedResults.ResultsAscend` | librange/compiler/expanding_visitor.cpp:75-180 | the set operators, the filters and `%` give their names in dictionary order |
| `ExpressionNodes.ExpandIs` | librange/compiler/expanding_visitor.cpp:260-288 | `%` gives the forward edges of the nodes the names name, each once; it fails if a name names none; what a word names is spelled out |
| `ExpressionNodes.ExpandOfValues` | librange/compiler/expanding_visitor.cpp:266-288 | of the values of a key, `%` takes nothing but repeats and order |
| `ExpressionNodes.ClustersAre` | librange/compiler/expanding_visitor.cpp:293-313 | the clusters are the reverse edges of the nodes named |
| `ExpressionNodes.ValuesAre` | librange/compiler/expanding_visitor.cpp:457-485 | the values of the key at those nodes, or for KEYS the names of their keys |
| `ExpressionNodes.ClustersInOrder` | librange/compiler/expanding_visitor.cpp:299-312 | in the order of the words and of the records, repeats and all |
| `ExpressionNodes.ValuesInOrder` | librange/compiler/expanding_visitor.cpp:457-485 | likewise for values |
| `ExpressionNodes.AdminsAre` | librange/compiler/expanding_visitor.cpp:318-363 | the admins are values of nearest holders of ADMIN_NODE, and every word with a holder above it contributes all values of a nearest one |
| `ExpressionNodes.BraceInOrder` | librange/compiler/expanding_visitor.cpp:399-419 | the place of every concatenation: the left side varies slowest, the right one fastest |
| `ExpressionNodes.BraceOfTwo` | librange/compiler/expanding_visitor.cpp:399-419 | an outer side without names is left out |
| `ExpressionMeaning.DistinctEval` | librange/compiler/expanding_visitor.cpp:39-420 | which trees evaluate without repeats |
| `ExpressionMeaning.EvalAgrees` | librange/compiler/expanding_visitor.cpp:39-485 | trees with no repeats left of a difference evaluate to the set they denote, failing exactly when it is undefined |
| `ExpressionMeaning.PlainAgrees` | librange/compiler/expanding_visitor.cpp:39-420 | words, literals, groups, sequences, `%`, union, difference and intersection: always, and without repeats |
| `ExpressionMeaning.DifferenceExact` | librange/compiler/expanding_visitor.cpp:138-149 | a difference is that of the sets exactly when no name of the right operand occurs more often on the left |
| `ExpressionMeaning.RepeatsSurvive` | librange/compiler/expanding_visitor.cpp:293-313 | the clusters of two hosts, less the one cluster they share, still give that cluster |
| `ExpressionMeaning.AdminsAgree` | librange/compiler/expanding_visitor.cpp:318-363 | the admin operator is the union, over its arguments, of what the nearest carrier of ADMIN_NODE holds |
| `ExpressionMeaning.JoinedAgrees` | librange/compiler/expanding_visitor.cpp:380-420 | brace expansion is the product of its three sides, empty outer sides counting as absent |
| `ExpressionVisitor.Visit` | librange/compiler/expanding_visitor.cpp:39-485 | the visitor's loops compute `Eval`, for sequences its arithmetic can hold, hence on settled trees the denoted set |
| `ExpressionVisitor.Gather` | librange/compiler/expanding_visitor.cpp:269-282 | the children's edges or values one after the other; none if a child does not resolve |
| `ExpressionVisitor.FindAdmins` | librange/compiler/expanding_visitor.cpp:324-362 | the admins found by one search per child, in the table's order |
| `ExpressionVisitor.FilterRegex` | librange/compiler/expanding_visitor.cpp:100-121 | keeps exactly the names whose match is as wanted, in order |
| `ExpressionVisitor.Combine` | librange/compiler/expanding_visitor.cpp:399-419 | the nested loops give all concatenations, row by row |
| `SequenceExpansion.NameReads` | librange/compiler/expanding_visitor.cpp:245-253 | a name is the prefix, digits that read back as its number, and as much of the suffix as the buffer holds |
| `SequenceExpansion.SequenceLaws` | librange/compiler/expanding_visitor.cpp:185-254 | hi - lo + 1 different names; the first is the left word plus the suffix, as far as they fit, when the right run is no longer |
| `SequenceWords.SequenceOfWords` | librange/compiler/expanding_visitor.cpp:185-254 | for words spelled as a common part, digits a and b and a suffix: b - a + 1 names counting up from a, or b + 1 if b is below a, with at least as many digits as the longer run |
| `SequenceWords.SequenceExactly` | librange/compiler/expanding_visitor.cpp:194-238 | two words are a sequence exactly if they are spelled so with b within 32 bits |
| `SequenceWords.CountsFromLeft` | librange/compiler/expanding_visitor.cpp:241 | host10..3 is host10, host11, host12, host13 |
| `SequenceExpansion.ShortRunsFit` | librange/compiler/expanding_visitor.cpp:191-246 | runs of at most nine digits stay within what the visitor's arithmetic holds |
| `SequenceExpansion.ScanLeft` | librange/compiler/expanding_visitor.cpp:194-200 | the backward scan finds the trailing digits and their value |
| `SequenceExpansion.ExpandSequence` | librange/compiler/expanding_visitor.cpp:185-254 | the visitor gives these names, or fails when a side has no digits or the right number exceeds 32 bits |
| `Transactions.KeyNameInjective` | librange/db/berkeley_dbcxx_db.cpp:414-427 | records of different types or names have different keys |
| `Transactions.OverlayFaithful` | librange/db/berkeley_dbcxx_txn.cpp:63-105 | a read inside a transaction is the read after its commit, except exactly for an empty pending change over a record with data |
| `Transactions.FlushThenCommit` | librange/db/berkeley_dbcxx_txn.cpp:63-124 | a flush before it changes nothing about what a commit can do |
| `Transactions.CommitVersion` | librange/db/berkeley_dbcxx_txn.cpp:67-103 | a commit adds one version and one recorded change exactly when a node record was pending, and keeps the earlier ones |
| `Transactions.CommitRecords` | librange/db/berkeley_dbcxx_txn.cpp:67-103 | the change a commit records has its time and, once each, key and version of every pending node record and nothing else |
| `Transactions.ShownVersionExact` | librange/db/berkeley_dbcxx_db.cpp:331-342 | the version shown during a transaction is the one after its commit exactly when nothing or a node record is pending |
| `Transactions.RunVersions` | librange/db/berkeley_dbcxx_txn.cpp:54-181 | over every run the version and the number of recorded changes grow alike, by the commits with node records |
| `Transactions.AbortForgets` | librange/db/berkeley_dbcxx_txn.cpp:54-58 | after an abort every read is that of the stored records |
| `Transactions.Transaction.AddChange` | librange/db/berkeley_dbcxx_txn.cpp:138-147 | the change becomes pending under its key, replacing an earlier one |
| `Transactions.Transaction.GetRecord` | librange/db/berkeley_dbcxx_db.cpp:173-182 | the pending data if there is any change, else the stored record, else nothing |
| `Transactions.Transaction.Flush` | librange/db/berkeley_dbcxx_txn.cpp:110-124 | every non-empty pending change is written, in any order, and stays pending |
| `Transactions.Transaction.Commit` | librange/db/berkeley_dbcxx_txn.cpp:63-105 | the same writes, one recorded item per node record, nothing left pending |
| `Transactions.Transaction.Abort` | librange/db/berkeley_dbcxx_txn.cpp:54-58 | nothing left pending, no record changed |
| `MessageQueue.OverrunsExactly` | librange/core/mq.h:122-131 | the first fragment overruns the buffer exactly for lengths over 16384 with (length + 8) mod 16384 below 8 |
| `MessageQueue.WireFormat` | librange/core/mq.h:113-154 | the ordinal, the length lowest byte first, then the message, in entries of which all but the first and last have 16384 bytes |
| `MessageQueue.FragmentCount` | librange/core/mq.h:120-151 | one entry up to 16376 bytes; how many otherwise |
| `MessageQueue.FragmentsReceive` | librange/core/mq.h:74-154 | the fragments of any other non-empty message give it back and leave the queue behind it |
| `MessageQueue.RoundTrip` | librange/core/mq.h:74-154 | also after leading garbage |
| `MessageQueue.AllRoundTrip` | librange/core/mq.h:74-154 | any number of messages come back in order |
| `MessageQueue.LongGarbage` | librange/core/mq.h:88-94 | entries of four bytes or more are skipped exactly when they do not start with the ordinal |
| `MessageQueue.StaleOrdinal` | librange/core/mq.h:88-98 | a shorter entry can complete an ordinal from bytes left in the buffer |
| `MessageQueue.NothingExactly` | librange/core/mq.h:88-94 | nothing is received exactly when no entry ever completes an ordinal |
| `MessageQueue.MalformedExactly` | librange/core/mq.h:96-98 | a message's first entry is broken exactly when shorter than its header |
| `MessageQueue.RunsDry` | librange/core/mq.h:101-106 | when the queue runs dry the last entry is appended again until the length is reached |
| `MessageQueue.Queue.Send` | librange/core/mq.h:113-154 | the queue grows by the message's fragments, by as many as it has room for, or the buffer overruns in exactly the cases above |
| `MessageQueue.Queue.Receive` | librange/core/mq.h:74-108 | takes off what `Receiving` describes: a message, nothing, a broken one, or one filled up with stale bytes when the queue runs dry |

## Left out

- Sockets, timers, DNS, signals, worker threads and startup: plumbing around the modelled steps.
- Changing membership, crash and restart of accepters: the set of accepters is fixed.
- Exactly-once execution of client requests: a retried proposal may be chosen under two numbers.
- Berkeley DB environments, locks, cursors and the transaction log: the store is a map.
- Removal of nodes and the graph version filter: a name has a record in a graph or has none, and is refused when it is created again.
- The removal that follows the guard in `remove_host`: only the guard is modelled.
- Adding and removing dependency edges, and adding, setting and removing keys and values through the write API: not modelled; the topological sort takes dependency edges, and the key search takes tags, as they are.
- Tags and dependencies in the object `expand` returns: names, types and children are modelled.
- The function-call expressions other than `expand_hosts`, and the parser: evaluation starts from the tree.
- Flipping a regular expression's sign in place when a difference is evaluated: each tree is evaluated once.
- Checksums: opaque; regular expressions: an uninterpreted match.
- `get_range_version` and the choice of a wanted version by date.
- `SequenceExpansion.ExpandSequence`: numbers from 2^31 on, left runs of more than 309 digits and a sign before the right run, because the source's conversions are then undefined, wrap around or print negative numbers.
- `ExpressionVisitor.Visit`: the same sequences inside a tree.
- `SequenceExpansion.SequenceLaws`: names whose digits do not all fit into the 1022 characters of the source's buffer, which cuts them off.
- `TopologicalSort.EnvironmentTopologicalSort`: an environment's member without a dependency node, which the source does not check for; the writes never leave one.
- `ExpandHosts.ExpandHostsFn`: graphs with more than 2^64 names, which a 64-bit depth cannot span.
- `Transactions.Transaction.AddChange`: a pending change to the change list itself, which no caller makes.
