# cetcd, modelled and proved in Dafny

cetcd is an etcd-compatible key-value store written in C. This project models its hardest code in
Dafny 4.11 and proves what that code is for. `dafny verify dfyconfig.toml` checks everything.

| file | what it models |
|---|---|
| `Raft.dfy`, `RaftServer.dfy` | a Raft node: the message handlers, the sending of appends and the replay of the write-ahead log as functions, and the same as methods on fields |
| `RaftElection.dfy`, `RaftLog.dfy` | a cluster of such nodes over a network that delays, repeats, reorders and drops; election safety and log matching over whole runs |
| `RaftDisk.dfy` | what a restart gives back |
| `RaftRepair.dfy`, `RaftCatchUp.dfy` | when a refused append ends in a repaired log, and when a follower's log becomes the leader's |
| `RaftProgress.dfy`, `RaftTerms.dfy` | what a node gets done: who is sent what, what is committed, who is elected, and how term, role and books change with each message |
| `RaftHistory.dfy`, `RaftBallots.dfy`, `RaftAcks.dfy`, `RaftSafety.dfy` | leader completeness and state machine safety: the history a run leaves, the logs behind the votes, what nodes have held, what is committed |
| `RaftExamples.dfy` | seven runs that the code allows and Raft forbids |
| `Crc32c.dfy`, `CrcRemainder.dfy` | CRC32C: the table loop against bit-at-a-time division, that against the remainder by the Castagnoli polynomial, and burst detection |
| `KeyRange.dfy` | byte-range permissions and prefix ends |
| `RoleBlob.dfy`, `AuthStore.dfy` | the packed role list and the permission check over it |
| `Records.dfy`, `AuthPersist.dfy`, `AuthBackend.dfy`, `AuthWire.dfy` | saving and loading the auth store, and the records as bytes |
| `Tokens.dfy` | simple tokens: issue, look-up, expiry, revocation |
| `Base64Url.dfy`, `Decimal.dfy`, `Jwt.dfy`, `JwtAccepts.dfy` | JSON web tokens, printed and parsed, and which ones are accepted |
| `Duration.dfy` | the token lifetime parser |
| `KvCodec.dfy`, `KvWire.dfy` | the migrator's KeyValue codec, and the message as protobuf puts it on the wire |
| `Migration.dfy`, `MigrationBooks.dfy` | the migrator's batched writer, and what becomes of each entry when calls fail |
| `Arena.dfy`, `Slab.dfy`, `Buffer.dfy` | the allocators and the growing buffer |
| `Framing.dfy` | the client's request and response frames over partial sends and receives |
| `Defrag.dfy` | the file swap that ends a defragmentation |

Each part has the same shape. The state is a value and each operation a step function on it. Lemmas
prove what every step keeps and what follows for whole runs, and say what each operation does without
naming its body: which input is accepted, when a call succeeds, which bytes are written. Where the C
code updates memory in place, a class or a method with the same branches and loops is proved to do
exactly what the step function says. Allocation results, system call results, the clock, random bytes,
hashmap iteration order and the signature functions are parameters, so the theorems hold for all of
them; the exceptions are under "Left out".

## Where the code does less than it promises

Each of these is a lemma with a concrete input or run, beside the condition under which the code keeps
the promise. The condition is exact unless a line under "Left out" says that it is sufficient only.

- A Raft candidate counts a vote granted in an earlier term, so one term can get two leaders
  (`StaleGrantElectsTwo`). With that one check, every run has one leader per term (`ElectionSafety`).
- A heartbeat moves a follower's commit index without looking at its log, so two nodes can commit
  different entries at one index (`HeartbeatCommitsTwo`). It commits what the leader has exactly when the
  terms at the new commit index agree (`HeartbeatCommits`).
- A follower answers an append with the end of its whole log, past the entries it was sent
  (`TailAnswered`), and the leader takes that as agreement; two leaders can then commit different entries
  (`TailCommitsTwo`). The answer is true of the leader's log exactly when the terms at its end agree
  (`TailTrueIff`).
- A leader counts an answer to an append of an earlier term, so two nodes can commit different entries
  (`LateAnswerCommitsTwo`). What it notes is true of the other log exactly when both have the same term at
  the index answered (`AnswerTrueIff`).
- A restart replays the stored entries in place and never cuts, so a log that was cut comes back with its
  old end, or with the term of its old end cached. Log matching then fails (`RestartBreaksMatching`), and
  a vote for a worse log makes two nodes commit different entries (`RestartCommitsTwo`). Log and cached
  term come back exactly when nothing was ever stored past the end of the log and what was first stored at
  its end has the cached term (`RestartExact`, `RestartInRun`).
- With five checks that a node can make on what it has at hand, the code is safe: votes and append
  answers count only in their own term, an append leaves the log ending with its entries or with an entry
  of the leader's term, a heartbeat commits only a log that ends with an entry of its term, and only a
  node whose disk gives its log back restarts. Every run with these checks keeps committed logs
  consistent (`StateMachineSafety`).
- A follower whose term at the offered index differs answers with that index, and the leader offers the
  same append for ever (`NeverRepaired`). The follower's log is repaired exactly when the terms agree at
  the last index that the offer and its log both reach (`RepairedIff`). Even a log that could be repaired
  comes to equal the leader's exactly when it begins the leader's or the first append is accepted and replaces
  something (`CatchesUpIff`).
- Revoking a role that is not the first one reads, and may write, past the end of the packed list
  (`RevokeReadsInside`, `RevokeWritesInside`, `RevokeOverrunsExample`). The list itself comes out right.
- The overflow guard of the two decimal readers lets a number through when its leading digits reach 2^64
  by at most 3: 2^64 is read as 0 and so is ten times 2^64 (`WrapAccepted`, `LongerWraps`). Every digit
  run is read as what is left after all wraps (`AccumulatedIsRead`, `ParsedIsRead`), which is exact if and
  only if no place wraps or what is left does not fit either (`ExactIff`, `ParsedExactIff`).
- A user name above 127 bytes is cut when its token is stored. The token then resolves to another user
  (`LongNameExample`, `ResolvesToIssued`), revoking the user misses it, and revoking the user with the cut
  name ends it (`RevocationReaches`, `RevokesOwnIff`).
- A JSON web token is issued for names with control characters or above 127 bytes but never resolves
  (`TokenRoundTrip`).
- A signature of exactly 768 bytes fills its buffer and leaves the encoded copy without an end mark
  (`Issue` in `Jwt`).
- An entry with an empty key gets a revision record that the migrator's own decoder refuses (`RoundTrip` in
  `KvCodec`).
- Two migrated entries with one revision share a slot, and the key index of the first then leads to the
  second (`LookupFinds`, `SharedRevisionExample`).
- The migrator's encoder does not look whether its buffer could grow, so an entry can be committed damaged
  with a failure count of zero (`DamageUncounted`). With a zero failure count the store is complete exactly
  when the last entry of every revision was encoded without a failed growth (`NoFailureIsComplete`).
- A version 1 role file whose first name is 0x52FF bytes long and starts with 0x01 is taken for version 2
  (`V1ReadAsV1`, `V1Misread`).
- A role list that packs into more than 65535 bytes is cut when saved, while its count is kept modulo 65536.
  Loaded again it is walked past its end by the permission check (`LongRoleLeaves`). A walk stays inside exactly when the
  list has as many names as counted, or one that ends the walk (`InsideIff`, `WalkInsideIff`); the check
  leaves a list exactly when that has fewer and the root role is not among them (`CheckPerm`); and a saved
  list comes back whole exactly when as many names as the saved count pack (`ReloadedOkIff`,
  `ReloadedLeavesIff`).
- A defragmentation run on the empty database that a failed swap left behind destroys the only good copy
  exactly when it gets to the swap and removes or replaces the backup (`SecondRunLoses`).
- The client copies a path into its header buffer before it looks at the length; the copy stays inside
  exactly for paths of at most 2558 bytes (`CopyInsideIff`).
- The arena never returns for alignments above 2^63 (`RoundEndsIff`) and asks for too small a block when size
  and alignment wrap together (`HugeFitsIff`); the slab's object size wraps to 0 when rounding wraps
  (`SizeHoldsIff`).

## Model

| member | source | states |
|---|---|---|
| `Raft.QuorumsMeet` | src/raft/raft.c:156-158 | any two vote quorums of one voter set share a voter |
| `Raft.MajorityMatch` | src/raft/raft.c:176-192 | of the first sixteen match indices the exchange sort returns the greatest index that a quorum has reached |
| `Raft.SortedMajority` | src/raft/raft.c:191 | in a descending list the value at the quorum place is reached by a quorum, and no greater value is |
| `RaftServer.Server.constructor` | src/raft/raft.c:418-460 | a new server is the initial follower with an empty log |
| `RaftServer.Server.VoteQuorumOk` | src/raft/raft.c:194-218 | the counting loops decide exactly whether the set of votes holds a quorum of the first sixteen peers |
| `RaftServer.Server.BecomeFollower` | src/raft/raft.c:550-558 | a later term is taken over and clears the vote; the same term keeps it |
| `RaftServer.Server.BecomeLeader` | src/raft/raft.c:480-492 | the new leader forgets what it knew of its peers and will send them what comes after its log |
| `RaftServer.Server.SendVotes` | src/raft/raft.c:494-507 | exactly one vote request per other peer is queued, carrying the last index and the cached last term |
| `RaftServer.Server.BecomeCandidate` | src/raft/raft.c:533-548 | does the candidate step: next term, own vote, requests to all peers or, with a quorum alone, leadership at once |
| `RaftServer.Server.HandleVote` | src/raft/raft.c:562-600 | does the vote step, with the cached last term in place of the log; `VoteGrantedIff` says when the vote is granted |
| `RaftServer.Server.Broadcast` | src/raft/raft.c:650-663 | exactly one heartbeat per other peer is queued |
| `RaftServer.Server.LeadIfElected` | src/raft/raft.c:618-622 | a quorum of votes makes the server leader and queues its heartbeats; less changes nothing |
| `RaftServer.Server.HandleVoteResp` | src/raft/raft.c:602-626 | does the vote-answer step on a vote list without duplicates, and tells all peers of a new leader |
| `RaftServer.Server.SendPreVotes` | src/raft/raft.c:494-507 | exactly one pre-vote request per other peer is queued, for the term after |
| `RaftServer.Server.BecomePreCandidate` | src/raft/raft.c:519-531 | does the pre-candidate step: term and vote stay, requests go to all peers or, with a quorum alone, the candidate step follows |
| `RaftServer.Server.Hup` | src/raft/raft.c:920-928 | a node that does not lead stands, with pre-votes first where they are on; `Stands` and `PreStands` say what that is |
| `RaftServer.Server.HandlePreVote` | src/raft/raft.c:628-648 | does the pre-vote step, a known leader being live while check-quorum is on and the election timeout has not passed; `PreVoteForecasts` says when it grants |
| `RaftServer.Server.HandlePreVoteResp` | src/raft/raft.c:665-688 | does the pre-vote-answer step on a list without duplicates; with a quorum the node stands, or leads and says so |
| `RaftServer.Server.Store` | src/raft/raft.c:112-154 | truncate-then-append of one entry stores it at its index; the cached last term follows only where the log is cut or grows; the entry goes to the write-ahead log |
| `RaftServer.Server.StoreAll` | src/raft/raft.c:744-762 | the loop over an append's entries stores them all from the given index, and in the write-ahead log in that order |
| `RaftServer.Server.AdvanceTo` | src/raft/raft.c:764-773 | the commit index moves forward only, and not past the log |
| `RaftServer.Server.HandleApp` | src/raft/raft.c:690-783 | does the append step, each refusal with its own hint |
| `RaftServer.Server.HandleHeartbeat` | src/raft/raft.c:821-845 | does the heartbeat step |
| `RaftServer.Server.MaybeAdvance` | src/raft/raft.c:390-413 | the commit index moves to the greatest index a quorum of the first sixteen peers has, if that entry is of the leader's own term |
| `RaftServer.Server.HandleAppResp` | src/raft/raft.c:785-819 | does the append-answer step: what is noted of the peer, the commit point the sort finds, and what is sent next; `AnswerSendsOn`, `AcceptanceNoted`, `RefusalBacksUp` and `AnswerCommitsIff` say what that step sends, notes and commits |
| `RaftServer.Server.Propose` | src/raft/raft.c:951-978 | a leader appends one entry of its term, sends it where nothing is on its way, then moves its commit index; others refuse; `ProposalGoesOut`, `ProposalLands` and `ProposalCommitsIff` say what that step sends, stores and commits |
| `RaftServer.Server.CountBatch` | src/raft/raft.c:349-360 | the loop counts exactly the entries that fit one append: at least one, at most 256, and within the size limit |
| `RaftServer.Server.MaybeSend` | src/raft/raft.c:330-386 | an append goes to a peer exactly when none is on its way and the log has something for it; it starts at the peer's next index |
| `RaftServer.Server.SendAll` | src/raft/raft.c:970-974 | the loop over the peers sends what sending to the set of voters sends |
| `RaftServer.Server.Beat` | src/raft/raft.c:980-996 | does the heartbeat step: a heartbeat to every other peer and another try at every append; `BeatGoesOut` says who is sent what |
| `RaftServer.Server.RestoreEntry` | src/raft/raft.c:1314-1319 | a stored entry is put back in place, nothing is cut, and the cached last term moves only when the log grows |
| `RaftServer.Server.Replay` | src/server/server.c:131-165 | the loop over the write-ahead log gives the restarted node of the model |
| `RaftServer.MajorityIsPoint` | src/raft/raft.c:390-413 | the sorted list's quorum value is the commit point over the set of voters |
| `RaftServer.ReachedSize` | src/raft/raft.c:169-192 | counting list entries counts voters |
| `RaftElection.NodeStepVotes` | src/raft/raft.c:519-688 | no step of a node changes a vote within a term, counts a vote that was not granted, leads without a quorum, or sends a grant that is not its vote |
| `RaftElection.CastStays` | src/raft/raft.c:562-600 | a vote once cast in a term stays that vote in every later state |
| `RaftElection.KeepsVotes` | src/raft/raft.c:562-600 | every step keeps the grants on the network true to the votes cast |
| `RaftElection.KeepsVotesTrue` | src/raft/raft.c:602-626 | if the grant delivered is of the candidate's own term, all the votes it counts were cast for it in that term |
| `RaftElection.OneWinner` | src/raft/raft.c:201-218 | one term cannot give two candidates a quorum |
| `RaftElection.WinnerStays` | src/raft/raft.c:480-492 | a node that leads a term is the only one on record for it |
| `RaftElection.StepKeepsElected` | src/raft/raft.c:916-1027 | every step of every node keeps the election invariant |
| `RaftElection.RunKeepsElected` | src/raft/raft.c:916-1027 | every run keeps the election invariant and never replaces the leader of a term |
| `RaftElection.ElectionSafety` | src/raft/raft.c:916-1027 | over any run in which no stale grant is counted, with any loss, repetition, reordering and restarts of any kind, two nodes that lead one term at any two times are the same node |
| `RaftElection.StaleGrant` | src/raft/raft.c:602-626 | counting a grant of an earlier term keeps the candidate's votes true exactly when that voter also voted for it in the running term |
| `RaftExamples.StaleGrantElectsTwo` | src/raft/raft.c:602-626 | after a run of three nodes with every check made, delivering one grant of an earlier term gives term 2 a second leader |
| `RaftExamples.HeartbeatCommitsTwo` | src/raft/raft.c:821-845 | after a run with every check made, in which one node has committed an entry, delivering one heartbeat makes another node commit a different entry at that index |
| `RaftExamples.TailCommitsTwo` | src/raft/raft.c:775-782 | between two runs with every check made, one append to a log that goes on past the entries sent makes two nodes commit different entries at index 2 |
| `RaftExamples.LateAnswerCommitsTwo` | src/raft/raft.c:785-819 | between two runs with every check made, one answer of an earlier term makes two nodes commit different entries at index 2 |
| `RaftExamples.RestartBreaksMatching` | src/raft/raft.c:1314-1319 | between two times of a run with every check made a log is cut; a restart then brings an old entry back behind a new one, against log matching |
| `RaftExamples.RestartCommitsTwo` | src/raft/raft.c:509-513 | between two runs with every check made, one restart of a node whose log was cut leaves an old last term cached, so that it votes for a worse log and two nodes commit different entries at index 2 |
| `RaftExamples.NeverRepaired` | src/raft/raft.c:728-738 | after a run with every check made a leader offers an entry that a follower refuses however often it is offered |
| `RaftRepair.AfterRefusal` | src/raft/raft.c:803-817 | after a refusal the leader offers what follows the follower's log if that was too short, and exactly the same append again if the terms differed |
| `RaftRepair.RepairedIff` | src/raft/raft.c:803-817 | after one refusal or any number of them the next offer is accepted if and only if the two logs have the same term at the last index that both the first offer and the follower's log reach; otherwise the follower's log is never repaired |
| `RaftProgress.BatchIs` | src/raft/raft.c:349-360 | an append has the first entry and, of those after it, as many as 256 entries and the byte limit allow, and no fewer |
| `RaftProgress.SendReaches` | src/raft/raft.c:330-386 | a peer is sent exactly one append, from its next index on with the term before it, if and only if it is another, nothing is on its way to it and the log has something for it |
| `RaftProgress.AnswerSendsOn` | src/raft/raft.c:785-819 | after an accepted answer at index k the leader sends that peer exactly one append, which starts behind k with the term there and a non-empty stretch of its log, or nothing if the peer has everything; nobody else is sent anything |
| `RaftProgress.ProposalGoesOut` | src/raft/raft.c:951-978 | a proposal sends every idle peer exactly one append that starts at its next index, the new entry being part of the log sent from |
| `RaftProgress.BeatGoesOut` | src/raft/raft.c:980-996 | every beat sends each other peer a heartbeat, and one append if it lacks anything, also when an earlier one was never answered |
| `RaftProgress.AnswerCommitsIff` | src/raft/raft.c:390-413 | an accepted answer commits an index if and only if it or a later one is of the leader's term and more than half of the voters have that |
| `RaftProgress.ProposalCommitsIff` | src/raft/raft.c:951-978 | so does a proposal, counting the leader's own new entry |
| `RaftProgress.AloneCommits` | src/raft/raft.c:951-978 | a leader that is the only voter commits its proposal at once |
| `RaftProgress.FollowerCommits` | src/raft/raft.c:764-773 | an accepted append or a heartbeat commits up to the smaller of the leader's commit index and the end of the log, never back; a refused append commits nothing |
| `RaftProgress.QuorumIsMost` | src/raft/raft.c:156-158 | votes are a quorum if and only if more than half of the voters cast them |
| `RaftProgress.LeadsIff` | src/raft/raft.c:602-626 | a candidate leads after any list of granted votes, in any order and with repetitions, if and only if they and its own make a quorum |
| `RaftProgress.Stands` | src/raft/raft.c:533-548 | a node told to stand takes the next term, votes for itself and asks each other voter once with the end of its log, or leads if it is enough alone |
| `RaftProgress.ElectedIff` | src/raft/raft.c:533-626 | so it becomes leader of the next term if and only if the grants and its own vote are a quorum |
| `RaftProgress.VoteGrantedIff` | src/raft/raft.c:562-600 | a vote is granted if and only if the term is not earlier, no other candidate has the vote of the term and the candidate's log is not older; asked again the node answers the same |
| `RaftProgress.PreVoteForecasts` | src/raft/raft.c:628-648 | a pre-vote changes nothing and is granted if and only if no live leader is known and the vote would be granted by a node that has not voted |
| `RaftProgress.PreStandsIff` | src/raft/raft.c:665-688 | a pre-candidate becomes candidate of the next term after any list of grants if and only if they make a quorum with its own |
| `RaftProgress.PreStands` | src/raft/raft.c:519-531 | standing with pre-votes keeps term and vote and asks each other voter once for the term after |
| `RaftProgress.RestartKeeps` | src/raft/raft.c:1314-1338 | a restart keeps term, vote and commit index and forgets role, votes and progress |
| `RaftTerms.TermAfter` | src/raft/raft.c:550-688 | the term after any message is the later of the two, except that pre-vote requests and grants bind nobody and append answers only a leader, and that a promoted pre-candidate moves on by one |
| `RaftTerms.StepsDown` | src/raft/raft.c:550-558 | whoever learns of a later term follows, with no vote given in it but to the one who asks |
| `RaftTerms.Follows` | src/raft/raft.c:690-709 | an append or heartbeat of the term makes a follower and keeps the vote of the term |
| `RaftTerms.EarlierRefused` | src/raft/raft.c:562-709 | requests, appends and heartbeats of an earlier term change nothing and are refused with the own term |
| `RaftTerms.AnswersIgnored` | src/raft/raft.c:602-819 | refused votes, answers to a node that did not ask and answers of strangers change nothing |
| `RaftTerms.FreshLeader` | src/raft/raft.c:480-492 | a new leader has matched nobody, will send each peer what follows its log, has nothing on its way, and announces itself to each other voter and to nobody else |
| `RaftTerms.LeaderStays` | src/raft/raft.c:920-928 | a leader that is told to stand does nothing |
| `RaftTerms.RefusalBacksUp` | src/raft/raft.c:803-817 | a refusal lowers next and matched index to its hint, never raises them, touches no other peer and no commit, and one append goes out from there |
| `RaftTerms.AcceptanceNoted` | src/raft/raft.c:785-802 | an accepted answer sets next and matched index of its sender, and nothing of the others |
| `RaftTerms.ProposalLands` | src/raft/raft.c:951-978 | a leader adds a proposal to log and disk in its own term; nobody else does anything with one |
| `RaftTerms.OnItsWay` | src/raft/raft.c:330-386 | what is sent to a peer is on its way, and while it is nothing more is sent to it |
| `RaftTerms.AnswerEndsWait` | src/raft/raft.c:785-819 | an answer ends the wait for its sender and for nobody else |
| `RaftTerms.ProposalWaits` | src/raft/raft.c:951-978 | a proposal ends no wait |
| `RaftTerms.BeatEndsWait` | src/raft/raft.c:980-996 | a beat ends every wait, so that a lost append or answer holds nobody up for longer |
| `RaftCatchUp.AnswerSent` | src/raft/raft.c:690-783 | the one answer to an append of no earlier term, and the log behind it |
| `RaftCatchUp.PutAlike` | src/raft/raft.c:744-762 | an append of a stretch of a like log leaves a log alone that has the stretch, and makes any other log the sender's up to its end |
| `RaftCatchUp.Taken` | src/raft/raft.c:785-819 | one accepted append and its answer: what the follower then has, what the leader notes, and the next append, which starts behind it |
| `RaftCatchUp.CatchesUp` | src/raft/raft.c:690-819 | a follower whose log begins the leader's has the leader's log after as many rounds as entries are missing, and the leader knows |
| `RaftCatchUp.Stuck` | src/raft/raft.c:728-738 | an append refused where both logs reach leaves the follower's log as it is for ever |
| `RaftCatchUp.CatchesUpIff` | src/raft/raft.c:690-819 | the follower's log becomes the leader's if and only if it begins it already or the first append is accepted and replaces something |
| `RaftDisk.ReplayIs` | src/server/server.c:131-165 | replaying any write-ahead log that leaves no gaps gives a log that ends with the greatest index stored and caches the term that was stored there first |
| `RaftDisk.RestartExact` | src/raft/raft.c:1314-1319 | for a log that is the beginning of what replay makes of the disk, a restart gives back the log and the cached last term if and only if nothing was ever stored past the end of the log and what was first stored at its end has the cached term |
| `RaftDisk.StoreMany` | src/raft/raft.c:744-762 | whatever an append does to the log in memory, that log stays the beginning of what replay makes of the disk |
| `RaftDisk.RestartInRun` | src/raft/raft.c:916-1027 | the same equivalence for every node at the end of every run whatever, stale grants and earlier restarts included |
| `RaftLog.SamePrefix` | src/raft/raft.c:711-739 | two logs whose entries are on record and that have the same term at an index are equal up to it |
| `RaftLog.AppendOk` | src/raft/raft.c:744-762 | an append leaves the log alone or makes it the leader's up to the last entry sent, and in both cases the log then starts with those entries |
| `RaftLog.AppKeepsLog` | src/raft/raft.c:690-783 | handling any append, accepted or refused, keeps the log on record |
| `RaftLog.LeaderNotAppended` | src/raft/raft.c:690-709 | no append of its own term ever reaches a leader |
| `RaftLog.MadeGrows` | src/raft/raft.c:951-978 | an index and term name one entry for ever |
| `RaftLog.FreshTerm` | src/raft/raft.c:480-492 | a node that comes to lead leads a term nobody led before |
| `RaftLog.StepKeepsMatching` | src/raft/raft.c:916-1027 | every step without a stale grant, in which only a node restarts whose disk gives its log back, keeps every log and every append message on record and every cached last term right |
| `RaftLog.LogMatching` | src/raft/raft.c:711-762 | over any run without stale grants in which only nodes restart whose disk gives their log back, if two nodes' logs at any two times have the same term at an index, they are equal up to it |
| `RaftLog.LeaderAppendsOnly` | src/raft/raft.c:951-978 | over such a run, while a node leads a term its log only grows |
| `RaftLog.HeartbeatCommits` | src/raft/raft.c:834-843 | what a heartbeat makes a follower commit equals the leader's log up to there exactly when the terms at the new commit index agree |
| `RaftLog.AnswerTrueIff` | src/raft/raft.c:785-803 | what a leader notes of an answer of any term is true of the peer's log exactly when both logs reach the index answered and have the same term there |
| `RaftLog.NodeStepSends` | src/raft/raft.c:330-386 | whatever a node sends as an append is a stretch of its own log with the term before it, under its own term, and no commit index ahead of its own |
| `RaftLog.NodeStepSound` | src/raft/raft.c:112-154 | every step keeps the cached last term that of the log's last entry and the log on disk, a restart included if the disk gives the log back |
| `RaftHistory.Appended` | src/raft/raft.c:711-762 | an accepted append leaves a log that starts with the entries sent, is the old log or ends with them, and is the old log whenever that already had them |
| `RaftHistory.TailAnswered` | src/raft/raft.c:775-782 | an append whose entries the log already has is answered with the end of the whole log |
| `RaftHistory.TailTrueIff` | src/raft/raft.c:775-782 | the log answered for is part of the leader's if and only if the leader's log reaches as far and has the same term there |
| `RaftHistory.KeepsReigns` | src/raft/raft.c:480-492 | every step keeps, for each term, that its leader only adds entries of that term to a log of earlier terms |
| `RaftHistory.KeepsInTerm` | src/raft/raft.c:690-783 | no log ever has an entry of a term its node has not reached |
| `RaftHistory.StepKeepsOrderly` | src/raft/raft.c:916-1027 | every append message is part of the log of its term's leader, and every step keeps that |
| `RaftBallots.StandsStill` | src/raft/raft.c:533-548 | a candidate's log does not change while it stands in one term |
| `RaftBallots.VoteBehind` | src/raft/raft.c:562-626 | every vote a leader came to lead with was given by a node whose log was then no better than the leader's |
| `RaftBallots.StepKeepsBallots` | src/raft/raft.c:916-1027 | every step keeps that record of the logs behind the votes |
| `RaftAcks.PrefixSurvives` | src/raft/raft.c:744-762 | what a log shares with a leader's log survives every append from that leader |
| `RaftAcks.FollowerKeeps` | src/raft/raft.c:690-783 | a follower keeps what it has held of an earlier leader's log if all leaders since had it |
| `RaftAcks.LeaderStillKnows` | src/raft/raft.c:785-819 | with answers of its own term only, a leader never overestimates another node's log |
| `RaftAcks.StepKeepsAcks` | src/raft/raft.c:916-1027 | every step keeps what the nodes have held and what the leaders know of it |
| `RaftSafety.LeaderCompleteness` | src/raft/raft.c:509-513 | an entry held by a quorum in its own term is in the log of the leader of every later term |
| `RaftSafety.ChosenAgree` | src/raft/raft.c:390-413 | any two entries that were so held lie on one log |
| `RaftSafety.PointChosen` | src/raft/raft.c:390-413 | the entry at a leader's commit point has been held by a quorum |
| `RaftSafety.CommitKept` | src/raft/raft.c:744-762 | no append takes back what a node has committed |
| `RaftSafety.StepKeepsCommitted` | src/raft/raft.c:916-1027 | every checked step keeps every committed prefix, and every commit index on the network, that of an entry held by a quorum |
| `RaftSafety.StateMachineSafety` | src/raft/raft.c:916-1027 | over any run of any set of voters in which votes and answers count only in their own term, appends leave no foreign tail, heartbeats commit only logs of their term and only nodes restart whose disk gives their log back, what any two nodes have committed at any two times agrees as far as both go |
| `Crc32c.BitStepLinear` | src/base/hash.c:31-34 | one bit of division is linear over exclusive or |
| `Crc32c.BitStepInjective` | src/base/hash.c:31-34 | one bit of division loses nothing |
| `Crc32c.DivideIsSteps` | src/base/hash.c:28-48 | feeding up to 32 bits one at a time equals xoring them in at once and then shifting |
| `Crc32c.TableStep` | src/base/hash.c:45 | a table entry indexed by the low byte, xored with the shifted register, is eight bits of division |
| `Crc32c.LookupStep` | src/base/hash.c:45 | one pass of the byte loop with a filled table is eight bits of division |
| `Crc32c.Checksum.EightSteps` | src/base/hash.c:31-34 | the inner loop takes eight bit steps |
| `Crc32c.Checksum.InitTable` | src/base/hash.c:28-37 | entry i of the table is i divided for eight bits |
| `Crc32c.Checksum.Feed` | src/base/hash.c:43-46 | the byte loop is bit-at-a-time division of the whole input |
| `Crc32c.Checksum.Update` | src/base/hash.c:39-48 | the table-driven checksum equals the reference for every start value and every input; `CrcIsRemainder` says which number the reference is |
| `Crc32c.CrcComposes` | src/base/hash.c:39-48 | the checksum of a concatenation is the checksum continued |
| `Crc32c.BurstDetected` | src/base/hash.c:39-48 | two inputs of equal length whose bits differ only inside a window of 32 have different checksums |
| `Crc32c.FourByteBurstDetected` | src/base/hash.c:39-48 | two inputs that differ only within four adjacent bytes have different checksums |
| `CrcRemainder.RemainderUnique` | src/base/hash.c:28-48 | over the field of two elements a polynomial has one remainder by the Castagnoli polynomial 0x11EDC6F41 |
| `CrcRemainder.DivideIsRemainder` | src/base/hash.c:31-46 | the register after any bits is the remainder of the message times x^32 plus the register before times x^n |
| `CrcRemainder.CrcIsRemainder` | src/base/hash.c:39-48 | the checksum is the inverse of the remainder of the message, lowest bits first, times x^32 with the inverse of the seed added, by 0x11EDC6F41, and of nothing else |
| `KeyRange.MemCmpIsOrder` | src/auth/auth.c:1352-1360 | byte comparison of the common length, then of the lengths, is the lexicographic order |
| `KeyRange.PrefixMatchIsPrefix` | src/auth/auth.c:1336-1341 | the match accepts exactly the keys that start with the prefix |
| `KeyRange.CoversIsInterval` | src/auth/auth.c:1343-1362 | for all byte strings the check is the prefix test, the interval without end, or the half-open interval |
| `KeyRange.PrefixEnd` | src/base/slice.c:40-57 | the loop finds the prefix end or, for an empty or all-0xFF key, the single zero byte; it fails exactly when the buffer is too small |
| `KeyRange.PrefixEndCovers` | include/cetcd/slice.h:38-41 | a range that ends at the prefix end covers exactly the keys the empty range end covers |
| `KeyRange.PrefixEndIsLeast` | include/cetcd/slice.h:38-41 | every key with the prefix is below the prefix end, and nothing below it is above all such keys |
| `KeyRange.UnboundedHasNoEnd` | src/base/slice.c:40-57 | for an empty or all-0xFF prefix no upper end exists |
| `RoleBlob.NameAt` | src/auth/auth.c:517-527 | in a blob that holds the names, name i is found where the names before it end, with its own length and terminator |
| `RoleBlob.UnpackPack` | src/auth/auth.c:517-527 | walking the blob reads back exactly the names packed |
| `RoleBlob.HoldsUnique` | src/auth/auth.c:517-527 | a blob and a count determine the names |
| `RoleBlob.InsideIff` | src/auth/auth.c:1372-1386 | a walk over a list, read byte by byte and ended by any test on the names, stays inside the allocation if and only if the list has as many names as counted or one of those it has ends the walk |
| `RoleBlob.WalkInsideIff` | src/auth/auth.c:517-527 | a walk to the last name stays inside if and only if the list has as many names as counted, which is to say at least as many zero bytes |
| `RoleBlob.UnpackHolds` | src/auth/auth.c:517-527 | whatever the bytes, they begin with the packed form of the names the walk finds |
| `RoleBlob.TotalLen` | src/auth/auth.c:517-527 | the walk returns the packed length |
| `RoleBlob.Find` | src/auth/auth.c:543-552 | the walk finds the first occurrence and its offset, or fails exactly when the name is not held |
| `RoleBlob.RevokeMoveHolds` | src/auth/auth.c:587-589 | after the move the blob holds the names without the removed one, in order |
| `RoleBlob.RevokeReadsInside` | src/auth/auth.c:587-589 | with a blob of exact size the move reads inside it exactly when the first name is removed |
| `RoleBlob.RevokeWritesInside` | src/auth/auth.c:587-589 | the move leaves whatever follows the blob alone exactly when offset plus moved length stays inside |
| `AuthStore.GrantMonotone` | src/auth/auth.c:530-569 | a grant never takes an access away, from anybody |
| `AuthStore.RevokeAntitone` | src/auth/auth.c:571-604 | a revoke never gives an access |
| `AuthStore.RemoveRoleAntitone` | src/auth/auth.c:300-309 | removing a role never gives an access |
| `AuthStore.WriteImpliesRead` | src/auth/auth.c:1364-1389 | who may write a key may read it |
| `AuthStore.RunIsStanding` | src/auth/auth.c:530-604 | after any run of grants and revokes the list is the roles whose grant still stands, in the order of those grants, without duplicates |
| `AuthStore.MovedBlob` | src/auth/auth.c:582-600 | a revoke's move leaves the packed list of the remaining roles, and the memory behind when it fits |
| `AuthStore.GrantedHolds` | src/auth/auth.c:554-566 | writing a name and a terminator behind the packed names packs it as the last one |
| `AuthStore.RevokeFrom` | src/auth/auth.c:571-604 | the user's list becomes the list with the role revoked, found or not |
| `AuthStore.RevokeOverrunsExample` | src/auth/auth.c:587-589 | revoking the second of two names changes a byte behind the blob |
| `AuthStore.Store.constructor` | src/auth/auth.c:80-94 | a new store has no users and no roles and is not enabled |
| `AuthStore.Store.AddUser` | src/auth/auth.c:180-201 | a new name gets an account without roles; an empty name, a hash of 0 or more than 64 bytes, a known name and a failed allocation are refused and change nothing |
| `AuthStore.Store.AddRole` | src/auth/auth.c:281-298 | a new role is stored; a known name changes nothing |
| `AuthStore.Store.RemoveRole` | src/auth/auth.c:300-309 | exactly that role goes; the users' lists keep its name |
| `AuthStore.Store.GrantRole` | src/auth/auth.c:530-569 | the user's list gains the role once, every other account is untouched, and each error happens exactly in its case |
| `AuthStore.Store.RevokeRole` | src/auth/auth.c:571-604 | the user's list loses the role, every other account is untouched, and memory behind the blob is untouched when the move fits |
| `AuthStore.Store.IsAdmin` | src/auth/auth.c:1322-1334 | on any account the answer is whether the user is root or holds the root role, or the walk leaves the list, exactly when a read of that walk does |
| `AuthStore.Store.CheckPerm` | src/auth/auth.c:1364-1389 | on any account the check answers exactly as the rules promise, or its walk leaves the list, exactly when that has fewer names than counted and not the root role; `WriteAllowedIff` and `ReadAllowedIff` say the rules from the flags and intervals |
| `AuthStore.Store.AnyGrants` | src/auth/auth.c:1372-1388 | the loop answers whether a role of the list grants the access, or leaves the list exactly when a read does; `WriteAllowedIff` and `ReadAllowedIff` say what granting is |
| `AuthStore.ListsRoot` | src/auth/auth.c:1327-1333 | the loop answers whether the list names the root role, or leaves the list exactly when a read does |
| `AuthStore.WriteAllowedIff` | src/auth/auth.c:1364-1389 | a key may be written if and only if checks are off, the user is or holds root, or holds an existing role with the write flag whose interval has the key |
| `AuthStore.ReadAllowedIff` | src/auth/auth.c:1364-1389 | a key may be read under the same rule with the read or the write flag |
| `Records.DecodeCut` | src/auth/auth.c:1548-1583 | if single records read back, decoding any truncation of a record file gives exactly the records wholly inside it |
| `Records.DecodeWhole` | src/auth/auth.c:1548-1583 | if single records read back, a whole file decodes to all its records |
| `Records.GetU16Cut` | src/auth/auth.c:1429-1433 | a little-endian u16 reads back modulo 65536, and a cut one not at all |
| `Records.GetStringCut` | src/auth/auth.c:1435-1439 | a length-prefixed string reads back up to its saved length, and a cut one not at all |
| `Records.PutAllLast` | src/auth/auth.c:1548-1583 | of several records with one name the last one counts, and a name without a record keeps what it had |
| `AuthPersist.UserReadsBack` | src/auth/auth.c:1441-1459 | any saved user followed by anything and cut anywhere is read back whole or not at all |
| `AuthPersist.RoleReadsBackV1` | src/auth/auth.c:1603-1639 | any version 1 role cut anywhere is read back whole, with an empty range end, or not at all |
| `AuthPersist.RoleReadsBackV2` | src/auth/auth.c:1461-1479 | any version 2 role cut anywhere is read back whole or not at all |
| `AuthPersist.LoadedUser` | src/auth/auth.c:1548-1583 | every loaded account stems from a saved one, and every account that fits the format is loaded |
| `AuthPersist.MisfitLost` | src/auth/auth.c:1441-1459 | an account that does not fit comes back changed or not at all |
| `AuthPersist.UsersRoundTrip` | src/auth/auth.c:1441-1459 | for every iteration order, saving and loading gives back all names, hashes and ordered role lists exactly when every account fits the format's lengths |
| `AuthPersist.RolesRoundTrip` | src/auth/auth.c:1461-1479 | for every iteration order, saving and loading gives back all roles exactly when every role fits the format's lengths |
| `AuthPersist.UsersTruncated` | src/auth/auth.c:1548-1583 | any truncation of the saved users yields exactly the users wholly inside it |
| `AuthPersist.RolesTruncated` | src/auth/auth.c:1595-1639 | any truncation of the saved roles yields exactly the roles wholly inside it |
| `AuthPersist.V1ReadAsV1` | src/auth/auth.c:1397-1400 | a version 1 file is taken for version 2 if and only if its first name is 0x52FF bytes long and starts with 0x01; every other is read back as written |
| `AuthPersist.V1Misread` | src/auth/auth.c:1397-1400 | one such name, with any range of moderate length: the role is lost |
| `AuthWire.NameIff` | src/auth/auth.c:1550-1575 | a stored name is read up to its first 0 and at most 127 bytes |
| `AuthWire.UserReadIff` | src/auth/auth.c:1548-1583 | bytes are read as a user if and only if they start with a user record (low byte first lengths, a hash of at most 64), and as the user it says |
| `AuthWire.UserSpelled` | src/auth/auth.c:1441-1459 | the bytes written for a user |
| `AuthWire.RoleReadIff` | src/auth/auth.c:1603-1639 | bytes are read as a role of either version if and only if they start with such a record, and as the role it says |
| `AuthWire.RoleSpelled` | src/auth/auth.c:1461-1479 | the bytes written for a role |
| `AuthWire.VersionIs` | src/auth/auth.c:1595-1602 | a role file is of version 2 if and only if it starts with FF 52 01 |
| `AuthWire.VersionWritten` | src/auth/auth.c:1490-1503 | the role file written is of version 2 |
| `AuthBackend.SaveUser` | src/auth/auth.c:1441-1459 | appends exactly one user record |
| `AuthBackend.SaveRole` | src/auth/auth.c:1461-1479 | appends exactly one version 2 role record |
| `AuthBackend.SaveUsers` | src/auth/auth.c:1490-1503 | the blob is the users' records in iteration order |
| `AuthBackend.SaveRoles` | src/auth/auth.c:1490-1503 | the blob is the version mark and the roles' records in iteration order |
| `AuthBackend.ReadUser` | src/auth/auth.c:1550-1583 | on every byte string the indexed reader stays inside it, moves forward, and reads the record the format defines or stops; `UserReadIff` says which bytes those are |
| `AuthBackend.ReadRole` | src/auth/auth.c:1603-1639 | on every byte string the indexed reader stays inside it, moves forward, and reads the version's record or stops; `RoleReadIff` says which bytes those are |
| `AuthBackend.LoadUsers` | src/auth/auth.c:1548-1583 | the loop ends on every byte string and stores exactly the decoded users |
| `AuthBackend.LoadRoles` | src/auth/auth.c:1595-1639 | the loop ends on every byte string, picks the version by the mark and stores exactly the decoded roles |
| `AuthBackend.Save` | src/auth/auth.c:1481-1524 | all three values are written or, if any step or any growth of a blob fails, none |
| `AuthBackend.Load` | src/auth/auth.c:1530-1647 | each value present is loaded over the store, each absent one leaves its part alone |
| `AuthBackend.ChecksSurvive` | src/auth/auth.c:1481-1647 | if everything fits, every permission check answers the same after saving and loading |
| `AuthBackend.LoadedAccountsOk` | src/auth/auth.c:1548-1583 | if every account fits the format, every loaded one has its role list in full, so the permission check can walk it |
| `AuthBackend.ReloadedOkIff` | src/auth/auth.c:1447-1456 | a saved account comes back with all the names its count then says if and only if as many names as the count modulo 65536 pack into 65535 bytes |
| `AuthBackend.ReloadedLeavesIff` | src/auth/auth.c:1441-1575 | after saving and loading any store, a walk to the end of an account's list stays inside if and only if as many of the names it had as the saved count pack into 65535 bytes |
| `AuthBackend.LongRoleLeaves` | src/auth/auth.c:1441-1575 | any account with one role name of 65535 bytes: sound before, and after saving and loading every walk over its list leaves it |
| `Tokens.AliveIsHeld` | src/auth/auth.c:1204-1320 | after any trace, a token that was issued and that nothing since has ended is in the table, under the user's name cut to 127 bytes |
| `Tokens.HeldIsAlive` | src/auth/auth.c:1204-1320 | after any trace, a token in the table was issued, to a name that is cut to the one held, and nothing since has ended it |
| `Tokens.ResolvesIff` | src/auth/auth.c:1243-1263 | a token resolves exactly when issued, not ended since and not expired, and to the issued name cut to 127 bytes |
| `Tokens.ResolvesToIssued` | src/auth/auth.c:1216-1263 | a live token resolves to the user it was issued to if and only if the name has at most 127 bytes |
| `Tokens.LongNameExample` | src/auth/auth.c:1216-1313 | a token issued to a name of 128 bytes resolves to the user with the first 127 of them, and revoking that user ends it |
| `Tokens.ExpiredForGood` | src/auth/auth.c:1257-1260 | a token once seen expired never resolves again, whatever happens and whatever the clock says, until issued anew |
| `Tokens.RevocationReaches` | src/auth/auth.c:1272-1313 | revoking a user ends a token exactly when it was issued to that user and the name has at most 127 bytes, or to a longer name that begins with exactly that user's |
| `Tokens.RevokesOwnIff` | src/auth/auth.c:203-218 | a password change drops all and only the tokens of its user if and only if the name has at most 127 bytes and no longer user name begins with just these 127 |
| `Tokens.HexEncode` | src/auth/auth.c:715-722 | two lower-case digits per byte, high half first |
| `Tokens.HexInjective` | src/auth/auth.c:715-722 | different bytes print differently |
| `Tokens.StuckRandomness` | src/auth/auth.c:1216-1225 | with a constant random source two tokens are equal exactly when their counters agree modulo 65536 |
| `Tokens.TokenStore.constructor` | src/auth/auth.c:80-94 | a new store has no tokens, the default lifetime and a zero counter |
| `Tokens.TokenStore.Spell` | src/auth/auth.c:1222-1226 | the token is the random bytes with the counter mixed into the first two, in hex |
| `Tokens.TokenStore.Issue` | src/auth/auth.c:1204-1241 | the counter, the table and the answer for every combination of unknown user and failed allocation |
| `Tokens.TokenStore.UserFor` | src/auth/auth.c:1243-1263 | answers from the table and drops the token if it has expired |
| `Tokens.TokenStore.RevokeUser` | src/auth/auth.c:1265-1313 | drops exactly the user's tokens, or the first few in iteration order when memory for the list runs out |
| `Tokens.TokenStore.RevokeAll` | src/auth/auth.c:1315-1320 | drops every token |
| `Tokens.TokenStore.SetUserHash` | src/auth/auth.c:203-218 | a valid change for a known user stores the hash and drops the tokens stored under that name |
| `Tokens.DropAll` | src/auth/auth.c:1294-1302 | the loop removes exactly the collected keys |
| `Tokens.NextAnswer` | src/auth/auth.c:1204-1320 | what any one event does to what any token resolves to at any time, with nothing said about the table |
| `Tokens.HexLetters` | src/auth/auth.c:715-722 | two letters for each byte from 0-9 a-f, the high half first |
| `Tokens.MixedBits` | src/auth/auth.c:1222-1225 | mixing flips in the first two bytes the bits set in the counter's two lowest, and no other bit |
| `Base64Url.Encode` | src/auth/auth.c:737-757 | the loop writes the unpadded encoding, or nothing exactly when it does not fit; `EncodedInAlphabet` says which letters it has |
| `Base64Url.Decode` | src/auth/auth.c:768-790 | the loop gives the decoding after stripping padding, in which a bad third or fourth letter of a group is skipped; it fails exactly when a first or second letter, the length or the room is wrong; `DecodableIff` and `DecodedBits` say what is accepted and decoded |
| `Base64Url.EncodedLength` | src/auth/auth.c:737-757 | the length of the encoding of every input |
| `Base64Url.RoundTrip` | src/auth/auth.c:737-790 | every byte string decodes from its encoding |
| `Base64Url.EncodedLetters` | src/auth/auth.c:737-757 | an encoding never contains a dot, a padding sign or a zero byte |
| `Base64Url.NoPadding` | src/auth/auth.c:768-770 | stripping padding leaves every encoding alone |
| `Base64Url.EncodedInAlphabet` | src/auth/auth.c:734-757 | letter i of the encoding is the i-th six bits of the bytes, looked up in A-Z a-z 0-9 - _ |
| `Base64Url.ValueIs` | src/auth/auth.c:759-766 | a letter's value is its place in that alphabet; + and / stand for its last two, and nothing else has one |
| `Base64Url.DecodableIff` | src/auth/auth.c:768-790 | letters are accepted if and only if the first two of every four are letters of the alphabet |
| `Base64Url.DecodedBits` | src/auth/auth.c:768-790 | every four letters of the alphabet give three bytes of the same bits, and the last ones as many as they fill |
| `Base64Url.UnpaddedIs` | src/auth/auth.c:768-770 | all the = signs at the end are ignored and nothing else |
| `Decimal.PrintedReadsBack` | src/auth/auth.c:1017-1022 | every u64 printed in decimal is read back |
| `Decimal.AccumulatedExact` | src/auth/auth.c:796-803 | unless the guard wraps, a digit run is read as its value, and refused exactly when that does not fit 64 bits |
| `Decimal.WrapsIsTooBig` | src/auth/auth.c:800 | the runs on which the guard wraps all denote numbers beyond 64 bits |
| `Decimal.AfterWrap` | src/auth/auth.c:800 | where the guard wraps, the rest of the run is read as if it began with the wrapping digit less six |
| `Decimal.AccumulatedIsRead` | src/auth/auth.c:796-803 | every digit run is read as the number left after all wraps, and refused exactly when that does not fit 64 bits |
| `Decimal.ExactIff` | src/auth/auth.c:796-803 | a digit run is read as its value, or rightly refused, if and only if no place wraps or the number left does not fit either |
| `Decimal.AcceptedModulo` | src/auth/auth.c:796-803 | whatever is accepted is the value modulo 2^64 |
| `Decimal.ReadRun` | src/auth/auth.c:796-803 | the loop reads the longest digit run from its start |
| `Decimal.DigitsSpelled` | src/auth/auth.c:796-803 | the ten digits and their values |
| `Duration.ReadUnit` | src/auth/auth.c:804-811 | the unit tests recognise exactly ns, us, ms, s, m and h where they stand |
| `Duration.ReadTerm` | src/auth/auth.c:797-811 | digits and unit are read as one term with its exact factor, or the text has none there |
| `Duration.Parse` | src/auth/auth.c:792-818 | the loop computes the parse defined term by term |
| `Duration.AddTermExact` | src/auth/auth.c:812-815 | a term is added exactly, or refused exactly when the sum does not fit 64 bits |
| `Duration.ParsedIsTotal` | src/auth/auth.c:792-818 | a sequence of terms without a wrapping run is accepted exactly when its mathematical total fits 64 bits, with that total |
| `Duration.ParsedIsRead` | src/auth/auth.c:792-818 | every sequence of terms is accepted exactly when the total of its numbers as read fits 64 bits, with that total |
| `Duration.ParsedExactIff` | src/auth/auth.c:792-818 | a sequence of terms gives its mathematical total, or is rightly refused, if and only if no number wraps or the total as read does not fit either |
| `Duration.OnlyTermsAccepted` | src/auth/auth.c:792-818 | only non-empty sequences of digits and units are accepted |
| `Duration.OneReading` | src/auth/auth.c:792-818 | no text can be read as two term sequences |
| `Duration.UncleanIsTooBig` | src/auth/auth.c:800 | a wrapping run always belongs to a total that should be refused |
| `Duration.WrapAccepted` | src/auth/auth.c:800 | 18446744073709551616ns is accepted as 0 |
| `Duration.LongerWraps` | src/auth/auth.c:800 | ten times 2^64 is read as 0 too |
| `Duration.UnitsSpelled` | src/auth/auth.c:804-811 | the six units: their letters, and each as a multiple of the next smaller |
| `Jwt.FindBytes` | src/auth/auth.c:724-732 | the search returns the first occurrence, or none exactly when there is none |
| `Jwt.ReadText` | src/auth/auth.c:982-1004 | the reader returns the quoted text behind the first occurrence of the key, and refuses escapes, control characters and overlong values |
| `Jwt.ReadNumber` | src/auth/auth.c:1006-1025 | the reader returns the decimal number behind the first occurrence of the key |
| `Jwt.Issue` | src/auth/auth.c:1027-1067 | the token is the signed encoding of header and payload, issued exactly for signatures of 1 to 768 bytes; at 768 its copy has no end mark; the counter moves exactly when the name is accepted |
| `Jwt.Sealed` | src/auth/auth.c:1044-1066 | the two parts are encoded, signed joined by a dot, and the encoded signature added; no other buffer is too small |
| `Jwt.ReadClaims` | src/auth/auth.c:1091-1106 | the user is returned exactly when all three claims read, the time is before expiry and the user is known |
| `Jwt.UserFor` | src/auth/auth.c:1069-1106 | the whole resolution: two dots, three decodable parts, header, signature, claims; `JwtAccepts.ResolvesIff` says which tokens that accepts |
| `Jwt.HeaderAccepted` | src/auth/auth.c:928-933 | every header the issuer writes passes the reader's test for the same algorithm |
| `Jwt.NoEarlyHit` | src/auth/auth.c:724-732 | whatever the user name, no key is found inside it |
| `Jwt.PayloadClaims` | src/auth/auth.c:982-1025 | a printed payload yields its user exactly when the name is plain and short, the time is before expiry and the user is known |
| `Jwt.TokenSplits` | src/auth/auth.c:1069-1082 | a token of three encodings has exactly two dots and splits into them |
| `Jwt.TokenRoundTrip` | src/auth/auth.c:1027-1106 | unless its own signature has 768 bytes, a token resolves to its user exactly when the signature verifies, the name has no control character and at most 127 bytes, the second of the time is before expiry and the user is known; otherwise to nobody |
| `Jwt.FreshTokenResolves` | src/auth/auth.c:1027-1106 | a token just issued to a known user with a plain name is issued and resolves to that user |
| `Jwt.TokenAlwaysIssued` | src/auth/auth.c:1027-1067 | no buffer is too small for a name of at most 127 bytes without quote and backslash |
| `JwtAccepts.HeaderSpelled` | src/auth/auth.c:1031-1033 | the header, spelled out |
| `JwtAccepts.PayloadSpelled` | src/auth/auth.c:1038-1043 | the payload, spelled out around name, revision and expiry |
| `JwtAccepts.ResolvesIff` | src/auth/auth.c:1069-1106 | a token resolves to a user if and only if it has exactly two dots and three parts that decode within their limits, the header names the algorithm and not "none", the signature of the first two parts is accepted, the payload names the user, a revision and an expiry still to come, and the user is known |
| `JwtAccepts.OwnHeaderOnly` | src/auth/auth.c:928-933 | a header is accepted by the algorithm that wrote it and by no other |
| `JwtAccepts.OtherAlgRefuses` | src/auth/auth.c:1027-1106 | a token written under one algorithm never resolves under another, whatever signatures pass there |
| `JwtAccepts.IssuedIff` | src/auth/auth.c:1027-1067 | a token is issued if and only if the name has no quote and no backslash, name and numbers fit the payload buffer, and there is a signature that fits |
| `JwtAccepts.ExpiryIs` | src/auth/auth.c:1034-1036 | the expiry lies after the moment of issue, at most the lifetime later (300 seconds by default, one second at least) and less than two seconds short of it |
| `KvCodec.AppendVarint` | cmd/cetcd-migrate/main.c:209-215 | the loop appends the base-128 form |
| `KvCodec.VarintAt` | cmd/cetcd-migrate/main.c:219-231 | the indexed reader reads the varint the format defines, stays inside, and moves forward |
| `KvCodec.VarintReadsBack` | cmd/cetcd-migrate/main.c:209-231 | every u64 reads back from its varint, leaving exactly what follows |
| `KvCodec.NegativeTakesTen` | cmd/cetcd-migrate/main.c:209-215 | a negative number takes ten bytes |
| `KvCodec.ChunkAt` | cmd/cetcd-migrate/main.c:255-275 | a length-delimited field is read inside the input, or refused |
| `KvCodec.FieldAt` | cmd/cetcd-migrate/main.c:244-318 | one field of any number and type, known or not, as the format defines it |
| `KvCodec.DecodeKv` | cmd/cetcd-migrate/main.c:244-321 | the loop decodes the message field by field to its end or first error; `DecodesIff` says which messages those are |
| `KvCodec.AppendNumber` | cmd/cetcd-migrate/main.c:813-838 | appends one tagged number, each piece that the buffer can grow for |
| `KvCodec.AppendBytes` | cmd/cetcd-migrate/main.c:813-838 | appends one tagged, length-prefixed byte field, each piece that the buffer can grow for |
| `KvCodec.Encode` | cmd/cetcd-migrate/main.c:813-838 | the encoder writes the pieces of the five fields in order and of the lease when it is not zero, leaving out each piece whose growth fails; `EncodedSpelled` says which bytes a whole record has |
| `KvCodec.PiecesAreEmitted` | cmd/cetcd-migrate/main.c:813-838 | the pieces joined are the message |
| `KvCodec.SavedExact` | cmd/cetcd-migrate/main.c:813-838 | what is saved is the entry's encoding if and only if every piece had room |
| `KvCodec.Undamaged63` | cmd/cetcd-migrate/main.c:813-838 | if no growth fails, every encoding of at most 2^63 bytes has room |
| `KvCodec.FirstGrowthFails` | cmd/cetcd-migrate/main.c:813-838 | if the first growth fails, every entry is saved damaged |
| `KvCodec.FieldReadsBack` | cmd/cetcd-migrate/main.c:244-318 | every field, known or unknown, followed by anything is read back as itself |
| `KvCodec.UnknownIgnored` | cmd/cetcd-migrate/main.c:300-318 | unknown fields change nothing |
| `KvCodec.RoundTripWithUnknown` | cmd/cetcd-migrate/main.c:244-321 | with well-formed unknown fields put anywhere between the known ones, the message still decodes to the entry |
| `KvCodec.RoundTrip` | cmd/cetcd-migrate/main.c:209-321 | encoding and decoding any entry gives it back exactly when its key is not empty |
| `KvCodec.EmptyKeyRefused` | cmd/cetcd-migrate/main.c:261 | an empty key field makes the decoder fail |
| `KvWire.VarintSpelled` | cmd/cetcd-migrate/main.c:209-215 | the writer's varint is the shortest string of seven-bit digits with its value |
| `KvWire.Reads` | cmd/cetcd-migrate/main.c:219-231 | any varint of up to ten bytes, shortest or not, is read as its digits modulo 2^64 |
| `KvWire.ReadIs` | cmd/cetcd-migrate/main.c:219-231 | and nothing else is read |
| `KvWire.FieldIs` | cmd/cetcd-migrate/main.c:244-318 | whatever the reader takes as a field is one on the wire, with its own meaning, or the cut end of a message |
| `KvWire.DecodesIff` | cmd/cetcd-migrate/main.c:244-321 | a byte string is decoded to an entry if and only if it is a run of fields, of known numbers with their own type and of unknown ones with either type, that say that entry, later ones over earlier, up to an end that cuts an unknown field short |
| `KvWire.EncodedSpelled` | cmd/cetcd-migrate/main.c:813-838 | the bytes the writer emits: tags 0A 10 18 22 28 30, lengths, texts and two's complement numbers in that order |
| `Migration.MakeRevKey` | cmd/cetcd-migrate/main.c:806-811 | the revision key is the big-endian revision and its fixed tail |
| `Migration.WriteOne` | cmd/cetcd-migrate/main.c:785-880 | one round of the loop for every combination of tombstone and failing call |
| `Migration.RevKeyOrder` | cmd/cetcd-migrate/main.c:806-811 | revision keys are equal exactly for equal revisions and sort as the revisions do exactly when both have one sign |
| `Migration.WriteAll` | cmd/cetcd-migrate/main.c:773-887 | the loop computes the batch-by-batch run for every pattern of failures; `FinishAgrees` says what is then stored and counted |
| `Migration.RunInvariant` | cmd/cetcd-migrate/main.c:773-887 | at every point nothing is uncounted, and without failures committed and pending together are the fold of the entries so far |
| `Migration.NothingUncounted` | cmd/cetcd-migrate/main.c:773-887 | every entry ends up written, skipped or failed |
| `Migration.NoFailureIsComplete` | cmd/cetcd-migrate/main.c:773-887 | with a zero failure count every entry that is not a tombstone is committed as it should be, last writer wins, if and only if the last entry of every revision was encoded without a failed growth; total and latest revision are right in any case |
| `Migration.NoFailureIsStored` | cmd/cetcd-migrate/main.c:773-887 | a zero failure count means exactly what the encoder saved for each kept entry was committed, last writer wins |
| `Migration.StoredExact` | cmd/cetcd-migrate/main.c:813-862 | the store with damaged encodings is the one that should be exactly when the last kept entry of every revision is undamaged |
| `Migration.DamageUncounted` | cmd/cetcd-migrate/main.c:813-880 | any one entry whose first growth fails is committed damaged with a failure count of zero |
| `Migration.AllOkNeverFails` | cmd/cetcd-migrate/main.c:773-887 | if no step fails the failure count is zero |
| `Migration.BatchSizeIrrelevant` | cmd/cetcd-migrate/main.c:773-887 | the final store does not depend on the batch size, and after each commit the store is the fold of a prefix |
| `Migration.WrittenRev` | cmd/cetcd-migrate/main.c:840-850 | a revision's slot holds the last kept entry of that revision |
| `Migration.WrittenKey` | cmd/cetcd-migrate/main.c:840-862 | a key's slot holds the revision of the last kept entry of that key |
| `Migration.LookupFinds` | cmd/cetcd-migrate/main.c:773-887 | following key and revision slots finds the last entry with that revision; it is the key's own exactly when the two entries are equal |
| `Migration.DistinctRevisionsLookup` | cmd/cetcd-migrate/main.c:773-887 | with distinct revisions every key leads to its last kept entry |
| `Migration.SharedRevisionExample` | cmd/cetcd-migrate/main.c:773-887 | two keys with one revision: the first leads to the second's entry |
| `Migration.RevKeySpelled` | cmd/cetcd-migrate/main.c:806-811 | the key says the revision in two's complement, most significant byte first, in eight bytes, and 0 in the next eight |
| `MigrationBooks.RunAgrees` | cmd/cetcd-migrate/main.c:773-880 | whatever fails, the database holds exactly the entries of the batches that were committed, in order; the total counts all entries put, the failures are those refused, those lost with their batch and once more those put without their key |
| `MigrationBooks.FinishAgrees` | cmd/cetcd-migrate/main.c:773-887 | so they do at the end, where the last batch is committed or lost |
| `MigrationBooks.BooksBalance` | cmd/cetcd-migrate/main.c:773-887 | every entry has exactly one fate: stored, pending, lost, refused or skipped |
| `Arena.RealAlignIsLeast` | src/base/arena.c:64-66 | the doubling loop's result is the least power of two not below the alignment |
| `Arena.AlignUpBounds` | src/base/arena.c:72-105 | rounding up is aligned, not below, and less than one alignment above |
| `Arena.RoundEndsIff` | src/base/arena.c:63-66 | at 64 bits the doubling loop reaches the alignment if and only if that is at most 2^63 |
| `Arena.HugeFitsIff` | src/base/arena.c:70-75 | at 64 bits the capacity asked for holds a large region wherever the block lies if and only if size and alignment do not wrap together |
| `Arena.AllocKeeps` | src/base/arena.c:61-115 | any allocation, in a block, in a new block, huge, or failed, keeps all regions aligned, inside their blocks and disjoint, and the three totals exact |
| `Arena.ResetKeeps` | src/base/arena.c:138-163 | a reset keeps the totals exact and leaves no region |
| `Arena.RunSafe` | src/base/arena.c:61-163 | the same over any run of allocations and resets |
| `Arena.Allocator.constructor` | src/base/arena.c:36-42 | a new arena has no blocks |
| `Arena.Allocator.RoundAlign` | src/base/arena.c:64-66 | the loop computes the real alignment |
| `Arena.Allocator.AllocAligned` | src/base/arena.c:61-115 | the method does the allocation step for every malloc result; `AllocSucceedsIff` says when that succeeds and where the region lies |
| `Arena.Allocator.ResetAll` | src/base/arena.c:138-163 | the method does the reset step and its counters never go below zero |
| `Arena.InlineSucceedsIff` | src/base/arena.c:84-114 | below the size limit a call takes room from the head block if that has it and otherwise succeeds if and only if a block is given; the region is the first aligned one behind what is used |
| `Arena.AllocSucceedsIff` | src/base/arena.c:61-115 | a call succeeds if and only if it was given the mallocs it needs, said from the free room; with room in the head block the number of blocks stays |
| `Arena.ResetReuses` | src/base/arena.c:138-163 | after a reset whatever fits the newest block empty needs no malloc |
| `Slab.SlotsApart` | src/base/slab.c:98-116 | two slots never overlap, across all blocks |
| `Slab.SizeHoldsIff` | src/base/slab.c:64-71 | at 64 bits the rounded object size holds the object if and only if the rounding does not wrap; otherwise it is 0 |
| `Slab.PushedIs` | src/base/slab.c:108-113 | the loop that threads a new block puts its slots on the free list in this order, in front of the old ones |
| `Slab.AllocKeeps` | src/base/slab.c:118-127 | an allocation returns a slot that is not live, keeps free and live slots disjoint and their number conserved, or changes nothing |
| `Slab.ReleaseKeeps` | src/base/slab.c:129-135 | releasing a live slot keeps all that |
| `Slab.RunSafe` | src/base/slab.c:98-135 | over any disciplined run with growth failing at will: no overlap, no double use, live plus free is all slots, and blocks are the peak divided by the slots per block, rounded up |
| `Slab.Allocator.constructor` | src/base/slab.c:70-83 | object size rounded up to words, default slots per block |
| `Slab.Allocator.GrowSlab` | src/base/slab.c:98-116 | the method does the growth step, or nothing |
| `Slab.Allocator.AllocSlot` | src/base/slab.c:118-127 | the method does the allocation step |
| `Slab.Allocator.ReleaseSlot` | src/base/slab.c:129-135 | the method does the release step |
| `Slab.AllocSucceedsIff` | src/base/slab.c:98-127 | a slot is handed out if and only if one is free or a block can be had; a free one without a new block |
| `Slab.ReleasedIsNext` | src/base/slab.c:118-135 | releasing a slot and allocating again gives the slot back and the state before |
| `Slab.NewIs` | src/base/slab.c:64-83 | a slot is the least multiple of 8 that holds the object and a link; 64 slots a block by default |
| `Buffer.DoubledIs` | src/base/buf.c:7-21 | doubling gives a capacity of sixteen times a power of two that is enough and, if it grew, below twice what was wanted |
| `Buffer.MovedBelowTwicePeak` | src/base/buf.c:7-55 | over any run the bytes moved by all reallocations stay below twice the peak length |
| `Buffer.ContentsAreJoined` | src/base/buf.c:41-55 | after any run of successful appends the contents are all the pieces in order |
| `Buffer.Buf.constructor` | src/base/buf.c:23-27 | a new buffer is empty |
| `Buffer.Buf.GrowTo` | src/base/buf.c:7-21 | growth keeps the contents; overflow and failed allocation change nothing |
| `Buffer.Buf.AppendBytes` | src/base/buf.c:41-48 | the bytes are added behind with the capacity doubling gives, or nothing changes, exactly when there is no room to be had |
| `Buffer.Buf.AppendByte` | src/base/buf.c:50-55 | the byte is added behind with the capacity doubling gives, or nothing changes, exactly when there is no room to be had |
| `Buffer.Buf.Reset` | src/base/buf.c:84-86 | empties the buffer and keeps its memory |
| `Buffer.DoubledIff` | src/base/buf.c:7-21 | growth succeeds if and only if some doubling is enough and fits 64 bits, and takes the first |
| `Buffer.AppendSucceedsIff` | src/base/buf.c:41-48 | an append fails if and only if it needs memory that is refused or cannot be doubled to; otherwise the bytes follow the others |
| `Framing.Conn.SendAll` | cmd/cetcdctl/main.c:208-223 | for every pattern of partial sends the whole buffer goes out once and in order, or a proper prefix of it |
| `Framing.Conn.RecvAll` | cmd/cetcdctl/main.c:225-240 | for every pattern of partial receives exactly the asked number of bytes is taken from the stream, or on failure fewer |
| `Framing.Conn.SendRequest` | cmd/cetcdctl/main.c:406-439 | a request within the limits is sent as its frame, one beyond them sends nothing, and a path is copied past the header buffer exactly when a byte of it has no place there |
| `Framing.CopyInsideIff` | cmd/cetcdctl/main.c:409-414 | the copy of a path stays inside the header buffer if and only if the path has at most 2558 bytes |
| `Framing.Conn.RecvResponse` | cmd/cetcdctl/main.c:441-465 | takes one frame off the stream and returns its payload; `ResponseIff` says which streams have one |
| `Framing.FrameRoundTrip` | cmd/cetcdctl/main.c:406-465 | a token-free frame is received as its payload, consuming exactly its bytes, exactly when path and payload are within the receiver's limits |
| `Framing.StreamRoundTrip` | cmd/cetcdctl/main.c:406-465 | any sequence of such frames is received as the sequence of payloads, and the rest of the stream is left |
| `Framing.RecvMany` | cmd/cetcdctl/main.c:441-465 | receiving one frame after another takes the sequence off the stream |
| `Framing.FrameSays` | cmd/cetcdctl/main.c:406-439 | the frame says path, token and payload with their lengths most significant byte first, and flag 2 exactly when there is a token of at most 2048 bytes |
| `Framing.AdmittedIff` | cmd/cetcdctl/main.c:406-439 | a request is admitted if and only if path and token have at most 2550 bytes together and the payload is within the send limit, and its header then fits the buffer |
| `Framing.ResponseIff` | cmd/cetcdctl/main.c:441-465 | a response is received if and only if the stream starts with one within the limits, as its payload and with the rest left |
| `Defrag.NeverLost` | src/backend/backend.c:359-395 | with any operation failing and a crash after any step, a complete copy is at the live or backup path throughout |
| `Defrag.ReturnsLive` | src/backend/backend.c:359-395 | on return the live path holds the database exactly unless the second rename and its rollback both failed, and success means every step worked |
| `Defrag.SecondRunLoses` | src/backend/backend.c:359-395 | a further run from the empty database left behind destroys the backup if and only if it gets to the swap and the old backup is removed or replaced |
| `Defrag.CrashLeavesBackupOnly` | src/backend/backend.c:372-385 | there is a point at which only the backup path holds the database |
| `Defrag.Backend.CleanDir` | src/backend/backend.c:338-345 | removes the copy and its directory, nothing else |
| `Defrag.Backend.Reopen` | src/backend/backend.c:347-357 | opening creates an empty database where none is |
| `Defrag.Backend.Run` | src/backend/backend.c:359-395 | the method goes through exactly the states of the swap, for every pattern of failures |
| `Defrag.LeavesBehind` | src/backend/backend.c:359-395 | for every pattern of failures: whether the environment is open again, which of backup, copy and directory are left, and that an empty database is made where none is |
| `Defrag.SwapsIff` | src/backend/backend.c:372-380 | the swap is reached if and only if what was left of an earlier run could be cleared, the directory made and the copy written |

## Left out

- Raft membership: learners, joint consensus, adding and removing peers. The voters are fixed.
- Raft snapshots and log compaction, and the snapshot messages. The log starts at index 1.
- Raft heartbeat answers and leader transfer requests: the first are read by no handler, the second become a timeout at the receiver at any time.
- Raft timing: ticks become events that may happen at any time; leader identity and check-quorum are a parameter of the pre-vote step.
- Raft storage: the write-ahead log holds what was stored, in order, before any message of the step is sent; torn or unreadable records, a crash between the records of one step, its snapshots and its truncation are not modelled. Terms and indices do not wrap at 64 bits, and a failed allocation does not drop a message or entry.
- Raft peers past the sixteenth: the code keeps no progress for them and does not count them; the class follows it, but a cluster in which the nodes count different sixteen is not what the theorems over runs are about.
- RaftServer.Server.VoteQuorumOk: no learners and no outgoing voters.
- RaftServer.Server.MaybeAdvance: no learners and no outgoing voters.
- RaftServer.Server.HandleVoteResp: no learners; the vote list has room for every peer; votes of more strangers than the list has room for are not modelled.
- RaftServer.Server.HandlePreVoteResp: the same.
- RaftElection.ElectionSafety: the condition that no stale grant is counted is sufficient for the whole run; it is exact for the single step only (`StaleGrant`).
- RaftSafety.StateMachineSafety: the five checks are sufficient; that each is needed is shown by a run, not by an equivalence over runs.
- RaftRepair.RepairedIff: one leader and one follower that hear only each other; late refusals of other terms, which can set the leader back, are not part of it.
- RaftCatchUp.CatchesUpIff: the same two nodes, whose logs agree up to every index where their terms do, as log matching gives it.
- RaftProgress.AnswerCommitsIff: for a leader whose log has terms in order and who credits no voter with more than its log, as sound runs keep it.
- KvWire.DecodesIff: messages below 2^64 bytes.
- NULL arguments, everywhere.
- Hashmap internals: a map with an arbitrary iteration order.
- LMDB internals: committed and pending maps; a commit either happens or does not.
- Password hashing, OpenSSL, libcrypt and the random source: their results are parameters.
- Jwt.TokenRoundTrip: a token whose own signature has exactly 768 bytes, after which the code copies past a buffer, is excluded; what follows is not modelled.
- Reading keys from files and parsing the token specification string.
- AuthBackend.Save: one fault parameter says whether any growth of a blob fails; which one is not traced, as the code then writes nothing.
- AuthBackend.Load: allocation and read errors during a load are not modelled.
- AuthStore.Store.AddUser: names are kept whole, while the code also keeps a copy cut to 127 bytes (the cut is modelled where it shows, in tokens and saved records).
- AuthStore.Store.RevokeRole: the memory behind the blob is a parameter; what the C standard says about reading it is not modelled.
- AuthStore.Store.AddRole: the role is stored as given; how its prefix is measured and copied into a fixed field, and a failed allocation, are not modelled.
- Granting and revoking single permissions of a role, and changing a password through its plain text: they set fields.
- KvCodec.DecodeKv: a length that makes the position wrap around 64 bits ends in an outcome of its own; what the code then reads is not modelled.
- The client's own varint writer and reader, and all parsing and printing of responses.
- Reading bbolt pages, write-ahead logs and directories in the migrator.
- Migration.WriteAll: the batch size is a parameter; the code uses 500.
- Arena.Allocator.AllocAligned: alignments above 2^63 and sizes that wrap, where the code loops or wraps (`RoundEndsIff`, `HugeFitsIff`), are excluded; masks are modelled as rounding up.
- Slab.Allocator.constructor: object sizes that wrap when rounded up (`SizeHoldsIff`) are excluded.
- Slab.Allocator.ReleaseSlot: the free list is a sequence; that its links are stored inside the free slots is not modelled.
- Slab free and arena free, the slab registry and statistics.
- Buffer.Buf.AppendBytes: lengths that wrap 64 bits are excluded.
- Framing.Conn.SendRequest: what a copy past the header buffer does is not modelled.
- Defrag.Backend.Run: path names that do not fit their buffers; the disk is four slots and each operation atomic.
- MVCC, leases, watches, the write-ahead log, HTTP/2, the gRPC layer, the server and the client commands.
