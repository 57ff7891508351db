# Verified model of the Starknet sequencer repository

A Dafny model of three parts of the repository, with proofs of what they promise:

* **Compiled Cairo programs.** The words of `fibonacci.json` and `factorial.json`, an instruction decoder, the
  state transition over read-only memory, and the runner that fills in write-once memory, after "Cairo - a
  Turing-complete STARK-friendly CPU architecture", sections 4.4 and 4.5. The words are proved to compute the
  source recursion for every argument whose frames fit below the prime P, at any load address, with exact step
  and memory costs. They are also proved sound: over *any* read-only memory holding the code and the frame,
  wherever the stack lies, an execution of that length has the right result; so do both `main`s and the contract
  entry. The words are the literals of the files, so the negative operands tie the code to the prime.
* **The block pipeline.** `Engine` as a state machine over certificates and queries, with every request on the
  consensus connection answered, lost before or lost after the application handles it; its restarts;
  `StarknetApp` as a state machine over ABCI calls; and proposal trimming in 64-bit arithmetic.
* **Benchmark algorithms.** Best-throughput selection, committee ports and listings, host selection, log
  merging, and the printed summary with its reader.

Code that changes state is modelled by classes and loops (`Cpu`, `AbciClient`, `Engine`, `StarknetApp`,
`Committee`, and the methods of the benchmark modules), each proved equal to a specification function or
predicate; the theorems are about those specifications.

Library code is a parameter: the batch decoder (`Engine.Env.decode`) and the Starknet and hash functions
(`Transactions.Library`). Only `RunKeepsConsistent`, `DeclareDeployInvoke` and the lemmas they rest on assume anything
of them (`AppProperties.Lawful`: the two readers of a class hash agree where both succeed, and a deploy stores unless
the address is taken). Hashes and addresses may collide; what a collision in a run does is part of the statements.

## What turned out not to hold

* `prepare_proposal` exceeds the byte limit when the exact size sum saturates 64 bits (`SaturationBreaksLimit`).
  This is a failure of the arithmetic, not of a request that could be received: its witness totals more than 2^64
  bytes. For all inputs the result is the longest prefix within limit plus overflow, and it is the longest prefix
  within the limit exactly when no prefix total falls in that extra room (`RespectsLimitIff`, `IsLongestIff`); the
  same condition decides idempotence.
* An engine whose Info request is not answered restarts at height 0, so it commits height 1 again
  (`UninformedLifeRepeatsHeight`). Over any history the heights stay consecutive exactly when every life was told
  its height, cannot commit, or is the first that can (`RestartsConsecutiveIff`, `AllHarmlessIff`); whether a life
  can commit is decided by its inputs (`CommitsSomeIff`).
* A restart inside a block keeps the heights but not the app hash: the application has hashed the unfinished block
  already and is told to begin the same height again. Over any history of lives the hashed bytes are those of the
  committed blocks exactly when no life leaves a block open that holds an accepted transaction
  (`HashIsCommittedIff`), and the calls as a whole obey the grammar exactly when each life that is heard starts right
  and only the last of them leaves a block open (`HeardAcceptedIff`, `OrderlyIff`). Which block a life leaves open is
  fixed by its certificates, their stores and its connection (`RunHears`, `LifeLeaves`). `RestartChangesHash` is a
  concrete failure.
* A failing query ends the whole event loop, although it never changes what the application was told
  (`QueriesDoNotInterfere`).
* Collocated host selection can pass its count check and still return fewer hosts than asked for, and the round
  then runs on fewer nodes without an error (`CollocatedSelection`, `RoundSize`, `TooFewSelected`).
* Removing nodes and then listing with faults equals listing with the sum only when the counts do not have
  opposite signs (`RemoveThenListIff`, `OppositeCountsDiffer`).
* The summary reader fails on a negative figure, which clock skew can produce for the latency (`ReadBackAll`,
  `SkewedFails`).
* `factorial(0)` is 0 in the field, not 0! (`FactorialOfZero`), and its call depth never fits (`FactorialCorrect`).
* A host is recovered from an address string only when it holds no colon (`IpOfRender`).

Where comments and code disagree the model follows the code: `fibonacci.cairo` line 5 announces `fib(1, 1, 10)`
but the program calls it with 500; `engine.rs` line 210 speaks of an uninitialized chain while line 211 tests for
"already initialized"; `application.rs` line 86 (the reply to Info) speaks of a fixed hash while `commit` returns
the running digest.

## Model

| member | source | states |
|---|---|---|
| CairoInstruction.DecodeEncode | sequencer/programs/factorial.json:6-24 | decoding a word recovers every instruction with 16-bit biased offsets |
| CairoInstruction.EncodeDecode | sequencer/programs/fibonacci.json:27-59 | a word that decodes is the encoding of what it decodes to, so decoding loses nothing |
| CairoEquations.NextIsEquations | sequencer/programs/fibonacci.json:27-59 | the machine makes a transition exactly when the equations over the flag bits of the fetched word hold between the two states |
| CairoSteps.NegativeWords | sequencer/programs/fibonacci.json:38-58 | the negative operands, as the files hold them, lie 1, 8, 10 and 14 below the files' prime |
| CairoMachine.RunIsTrace | sequencer/programs/fibonacci.json:27-59 | completeness of the runner: its run is a valid trace over the memory it ends with and over every larger one |
| CairoMachine.TraceIsRun | sequencer/programs/fibonacci.json:27-59 | soundness of the runner: a trace over any memory with the initial cells is the run, and that memory holds every deduced cell |
| CairoSteps.ReachesRun | sequencer/programs/fibonacci.json:27-59 | a path of k single steps is the k-step run of the runner |
| CairoSteps.ReachesComplete | sequencer/programs/fibonacci.json:27-59 | over the memory a path ends with, the standard's machine makes the same k transitions |
| CairoSteps.ReachesSound | sequencer/programs/fibonacci.json:27-59 | over any memory with the initial cells, an execution of that length ends where the path ends |
| CairoMachine.Cpu.StepOnce | sequencer/programs/fibonacci.json:27-59 | fetch, decode, deduce and advance do one step of the specification, or stop with the registers unchanged |
| CairoMachine.Cpu.RunSteps | sequencer/programs/fibonacci.json:27-59 | stepping k times is the k-step run |
| Fibonacci.FibIsLinear | sequencer/programs/fibonacci.cairo:10-18 | the source recursion equals a F(n) + b F(n + 1) mod P |
| Fibonacci.FibRuns | sequencer/programs/fibonacci.json:47-59 | from a frame (a, b, n): exactly 7n + 4 steps, exactly the 6n + 2 cells from ap written and none changed, return to the stored pc and fp, result of the source recursion in [ap - 1] |
| Fibonacci.FibCorrect | sequencer/programs/fibonacci.json:47-59 | that result is a F(n) + b F(n + 1) mod P |
| Fibonacci.FibSound | sequencer/programs/fibonacci.json:47-59 | in every read-only memory holding code and frame, wherever the stack lies, an execution of 7n + 4 transitions returns with that value |
| Fibonacci.MainRuns | sequencer/programs/fibonacci.json:27-35 | main takes 3509 steps and 3007 cells and leaves F(502) mod P |
| Fibonacci.MainSound | sequencer/programs/fibonacci.json:27-35 | in every read-only memory holding the code and main's frame, an execution of 3509 transitions returns with F(502) mod P |
| Fibonacci.EntrySound | sequencer/programs/fibonacci.json:36-46 | an execution of the contract entry requires empty calldata, runs main on the way, and returns the two members of its argument structure, size 0 and the hint's pointer |
| Factorial.FactorialIsFact | sequencer/programs/factorial.cairo:2-8 | for n > 0 the source recursion equals n! mod P |
| Factorial.FactorialOfZero | sequencer/programs/factorial.cairo:2-8 | for 0 it equals 0, where 0! is 1 |
| Factorial.FactorialRuns | sequencer/programs/factorial.json:6-17 | from a frame with n: 6(n - 1) + 4 steps, exactly 5(n - 1) + 2 cells written, return with the result of the source recursion |
| Factorial.FactorialCorrect | sequencer/programs/factorial.json:6-17 | for every n whose rank n - 1 mod P fits (never n = 0) the result is n! mod P |
| Factorial.FactorialSound | sequencer/programs/factorial.json:6-17 | in every read-only memory holding code and frame, wherever the stack lies, an execution of that length returns with n! mod P |
| Factorial.MainRuns | sequencer/programs/factorial.json:18-24 | main passes its assertion and returns after 62 steps and 50 cells |
| Factorial.MainSound | sequencer/programs/factorial.json:18-24 | in every read-only memory holding the code and main's frame, an execution of 62 transitions returns with 10! |
| Abci.CommittedConsecutive | narwhal-abci/narwhal-abci/src/engine.rs:19-22 | in every call sequence of the grammar the committed heights are consecutive from the start |
| Abci.AcceptedIff | narwhal-abci/narwhal-abci/src/engine.rs:19-22 | the grammar accepts exactly the beginnings of sequences of complete blocks with heights rising by one |
| Engine.Engine.ReconstructBatch | narwhal-abci/narwhal-abci/src/engine.rs:132-148 | the bytes found are those stored under the digest by the worker, and none are found exactly when there are none |
| Engine.Engine.DeliverBatch | narwhal-abci/narwhal-abci/src/engine.rs:153-165 | a malformed batch sends nothing and fails; otherwise its transactions go out in order up to the first unanswered one |
| Engine.Engine.ReconstructAndDeliverTxs | narwhal-abci/narwhal-abci/src/engine.rs:169-193 | the batches before the first bad one are delivered; success exactly when none is bad and all requests are answered |
| Engine.Engine.HandleCert | narwhal-abci/narwhal-abci/src/engine.rs:86-102 | one certificate makes exactly the transition of the block specification |
| Engine.Engine.Run | narwhal-abci/narwhal-abci/src/engine.rs:66-82 | the event loop is the fold of its events, ended by the first error or a failed InitChain |
| EngineSafety.RunObeysGrammar | narwhal-abci/narwhal-abci/src/engine.rs:66-102 | over every interleaving and loss pattern the trace is complete blocks with heights rising by one, plus at most one unfinished block whose height is last_block_height |
| EngineSafety.QueriesDoNotInterfere | narwhal-abci/narwhal-abci/src/engine.rs:109-128 | trace and height equal those of the certificates before the first failing query; the run goes on exactly when that one does and no query fails |
| EngineLedger.PlanOfIntact | narwhal-abci/narwhal-abci/src/engine.rs:177-190 | a block is complete exactly when every batch is good, and then delivers all batches in payload order |
| EngineLedger.BlockOnStores | narwhal-abci/narwhal-abci/src/engine.rs:86-193 | one certificate in terms of the stored bytes: the transactions decoded before the first missing or undecodable entry are delivered in payload order; with none such the block is ended and committed, otherwise the engine stops |
| EngineLedger.LedgerIsFlattening | narwhal-abci/narwhal-abci/src/engine.rs:153-193 | when every entry is stored and decodes, the ledger is the flattening of the decoded batches by certificate, batch and transaction |
| EngineLedger.RunDeliversLedger | narwhal-abci/narwhal-abci/src/engine.rs:66-193 | every run delivers a prefix of the ledger its certificates fix, and all of it while it goes on |
| EngineLedger.EnginesAgree | narwhal-abci/narwhal-abci/src/engine.rs:132-193 | engines with the same certificates and stores agreeing on the certified digests deliver the same ledger, one a prefix of the other after failures |
| EngineLedger.LedgerPrefix | narwhal-abci/narwhal-abci/src/engine.rs:65-82 | a prefix of the certificates gives a prefix of the ledger |
| EngineLedger.BadBatchStops | narwhal-abci/narwhal-abci/src/engine.rs:84-102 | a missing or malformed batch, when the requests of that block are answered: exactly the batches before the first bad one are delivered, nothing follows, last_block_height is one above the last committed height |
| HeardCalls.RunHears | narwhal-abci/narwhal-abci/src/engine.rs:65-193 | what the application handles in a run is worked out from its inputs: block after block as far as each arrives, up to the first that is not complete and answered |
| HeardCalls.RunSucceedsIff | narwhal-abci/narwhal-abci/src/engine.rs:65-82 | a run ends without an error exactly when the chain was initialized, every query was served and every block was complete and answered to the end |
| EngineRestarts.LifeHeard | narwhal-abci/narwhal-abci/src/engine.rs:40-102 | whatever is lost, the application hears well-formed calls committing consecutive heights from the engine's start |
| EngineRestarts.CommitsSomeIff | narwhal-abci/narwhal-abci/src/engine.rs:66-102 | a life commits something exactly when InitChain succeeds, a certificate precedes the first failing query, the first one has only good batches, and its block is answered up to EndBlock and its Commit arrives |
| EngineRestarts.RestartsConsecutiveIff | narwhal-abci/narwhal-abci/src/engine.rs:47-50 | over any number of failures and restarts the committed heights are consecutive exactly when every life is harmless: Info answered, nothing committed before, or unable to commit |
| EngineRestarts.AllHarmlessIff | narwhal-abci/narwhal-abci/src/engine.rs:47-50 | the same in terms of the inputs: an uninformed life that commits is the first to commit anything, from height 0 |
| EngineRestarts.LifeContinues | narwhal-abci/narwhal-abci/src/engine.rs:47-50 | one life continues the heights exactly when it is harmless |
| EngineRestarts.UninformedLifeRepeatsHeight | narwhal-abci/narwhal-abci/src/engine.rs:47-50 | a life with an unanswered Info that commits height 1 again |
| SurvivingApplication.ReportsCommitted | sequencer/src/abci/application.rs:487-504 | the height file reports the height before a life plus the commits handled in it |
| UnfinishedBlocks.LifeLeaves | narwhal-abci/narwhal-abci/src/engine.rs:65-193 | the transactions a life commits, and those of the block it leaves open if any, are those its certificates, stores and connection fix |
| SurvivingApplication.HeardAcceptedIff | narwhal-abci/narwhal-abci/src/engine.rs:40-102 | all calls heard over a history of lives obey the block grammar exactly when every life that is heard starts from the committed height and none that leaves a block open is followed by another |
| SurvivingApplication.OrderlyIff | narwhal-abci/narwhal-abci/src/engine.rs:40-102 | that condition in terms of the inputs of each life alone |
| SurvivingApplication.StateOverLives | sequencer/src/abci/application.rs:152-344 | a surviving application has hashed the accepted transactions of every life, unfinished blocks included, and counts all commits |
| SurvivingApplication.HashIsCommittedIff | sequencer/src/abci/application.rs:152-344 | after any history of lives the hashed bytes are those of the committed blocks exactly when no block left open holds an accepted transaction |
| SurvivingApplication.RestartChangesHash | sequencer/src/abci/application.rs:166-174 | two lives, the first losing an EndBlock, commit the same height as one uninterrupted life with different hashed bytes; both runs survive |
| FeltText.ParseIdentifier | sequencer/src/lib/mod.rs:66-93 | reading a printed "0x" identifier past its prefix gives the felt back |
| FeltText.IdentifierInjective | sequencer/src/lib/mod.rs:66-93 | different felts have different identifiers |
| FeltText.IdentifierIff | sequencer/src/lib/mod.rs:66-93 | an identifier is "0x" and the shortest lower-case pairs of hexadecimal digits with the felt's value, and no other text is |
| FeltText.SameFeltIff | sequencer/src/lib/mod.rs:77-80 | two numbers in hexadecimal are read as one felt exactly when they differ by a multiple of P |
| Transactions.CalldataIff | sequencer/src/lib/mod.rs:77-80 | calldata determines the 32-bit inputs, absent and empty inputs alike |
| Transactions.CalldataAt | sequencer/src/lib/mod.rs:77-80 | calldata holds the inputs in order, a negative one as its distance below the prime |
| Transactions.InvokeHashIff | sequencer/src/lib/mod.rs:87-91 | for one function and address two invocations have the same hash string exactly when their inputs agree, absent and empty inputs differing |
| Transactions.InvokeHash | sequencer/src/lib/mod.rs:87-91 | how the hash string of an invocation reads |
| StarknetApp.TxAnswers | sequencer/src/abci/application.rs:152-292 | which raw transactions are accepted, answered with their own hash and hashed; which are rejected without effect; and which crash: undecodable bytes, an unreadable class hash, a panic in handling |
| StarknetApp.StarknetApp.DeliverTx | sequencer/src/abci/application.rs:152-292 | the answer is a rejection exactly when the hash string fails or differs, the transaction's hash exactly when it is right and handling does not panic; the state is that of the specification |
| StarknetApp.StarknetApp.Commit | sequencer/src/abci/application.rs:318-344 | commit returns the digest of the hashed bytes and raises the file's height, or crashes without a readable height |
| AppProperties.StateAfterCalls | sequencer/src/abci/application.rs:152-344 | after any calls: hashed bytes are the accepted hashes in order, tables are the fold of accepted transactions, the height file counts commits |
| AppProperties.ReportsCommits | sequencer/src/abci/application.rs:397-504 | a started application reports the height of its file, or 0 without one, plus the commits since |
| AppProperties.CommitReturnsDigest | sequencer/src/abci/application.rs:318-344 | every commit returns the digest of all hashes accepted so far |
| AppProperties.ReplicasAgree | sequencer/src/abci/application.rs:312-344 | the same transactions, however cut into blocks, give the same tables and app hash |
| AppProperties.InvokesTouchOnlyTheHash | sequencer/src/abci/application.rs:416-478 | deleting the accepted invokes leaves tables and heights alike and shortens the hashed bytes exactly when there was one |
| AppProperties.RunKeepsConsistent | sequencer/src/abci/application.rs:187-233 | every class stays filed under its own hash and every contract under an address of its class, and nothing is dropped |
| AppProperties.FiledIsLastDeclared | sequencer/src/abci/application.rs:187-209 | after any calls a class hash leads to the class last declared under its identifier |
| AppProperties.DeclareDeployInvoke | sequencer/src/lib/mod.rs:60-94 | the hash of a declare used as class_hash, and the hash of that deploy used as address, make an invocation run on that contract under that class hash, whatever else is delivered, when no deploy of another class gets the address; the class there is the declared one exactly when no later declare under the same hash string replaced it |
| PrepareProposal.PrepareProposal | sequencer/src/abci/application.rs:357-381 | for any sizes and max_tx_bytes: the longest prefix within max_tx_bytes plus overflow, hence within max_tx_bytes when the sum fits 64 bits, a negative limit counting as zero |
| PrepareProposal.RespectsLimitIff | sequencer/src/abci/application.rs:358-362 | the limit is respected exactly when no prefix total lies between limit and limit plus overflow |
| PrepareProposal.IsLongestIff | sequencer/src/abci/application.rs:368-381 | the result is the longest prefix within the limit under the same condition and only then |
| PrepareProposal.SaturationBreaksLimit | sequencer/src/abci/application.rs:369-372 | a request on which the saturated total lets the result exceed the limit |
| PrepareProposal.IdempotentIff | sequencer/src/abci/application.rs:357-381 | a second trimming changes nothing exactly when the first respects the limit |
| PrepareProposal.GrowsWithLimit | sequencer/src/abci/application.rs:368-381 | a larger limit keeps at least what a smaller one keeps |
| TpsSelection.KeepBest | narwhal-abci/demo/benchmark/aggregate.py:172-179 | removing from the list under iteration still keeps exactly the better point of the variable, given one entry per variable |
| TpsSelection.KeptSelects | narwhal-abci/demo/benchmark/aggregate.py:172-179 | weighing one more point maintains one first-best entry per variable |
| TpsSelection.PrintTps | narwhal-abci/demo/benchmark/aggregate.py:156-182 | on the records' fields: a group exists exactly for a latency bound and a record within it that has the group's faults, collocation, size and workers (nodes under scalability); it lists, ascending, one entry per nodes (workers) value, being the first record of highest TPS |
| TpsSelection.SelectionUnique | narwhal-abci/demo/benchmark/aggregate.py:156-182 | that description determines the list |
| TpsSelection.RaisingTheBound | narwhal-abci/demo/benchmark/aggregate.py:159-162 | a larger latency bound keeps every variable value with at least the same TPS |
| Committee.Committee.constructor | narwhal-abci/demo/benchmark/config.py:45-90 | the running port gives authority i the block at base + i(4 + 3w), laid out primary first; the caller's lists lose their first host |
| Committee.LayoutAt | narwhal-abci/demo/benchmark/config.py:63-90 | every address of authority i on its entry: name, stake 1, and the hosts in order on the ports of its block |
| Committee.PortsAreConsecutive | narwhal-abci/demo/benchmark/config.py:63-90 | the ports in allocation order are exactly base .. base + n(4 + 3w) - 1, authority i owning the i-th block |
| Committee.FitsFirewallIff | narwhal-abci/demo/benchmark/instance.py:94-95 | all ports lie in the opened range exactly when n(4 + 3w) <= 2001 |
| Committee.Committee.PrimaryAddressesOf | narwhal-abci/demo/benchmark/config.py:92-99 | the primary addresses of the good authorities in order |
| Committee.Committee.RpcAddresses | narwhal-abci/demo/benchmark/config.py:101-108 | the rpc addresses of the good authorities in order |
| Committee.Committee.AppAddresses | narwhal-abci/demo/benchmark/config.py:110-117 | the app addresses of the good authorities in order |
| Committee.Committee.WorkersAddresses | narwhal-abci/demo/benchmark/config.py:119-129 | the worker ids with their transaction addresses, per good authority in order |
| Committee.Committee.RemoveNodes | narwhal-abci/demo/benchmark/config.py:151-155 | the last nodes are removed, none for a count of zero or less |
| Committee.ListingsAligned | narwhal-abci/demo/benchmark/config.py:92-129 | the four listings have one length and at every index describe the same authority of the layout: same host, ports two and three above the primary's, and each worker's own host and port |
| Committee.MoreFaultsListLess | narwhal-abci/demo/benchmark/config.py:92-129 | each listing for more faults is a prefix of that for fewer |
| Committee.TargetsDistinct | narwhal-abci/demo/benchmark/remote.py:224-233 | the clients' targets are one per good worker, on strictly rising ports |
| Committee.RemoveThenListIff | narwhal-abci/demo/benchmark/config.py:92-155 | in each of the four listings, removing k and listing with f faults equals listing with k + f exactly when k and f do not have opposite signs |
| Committee.OppositeCountsDiffer | narwhal-abci/demo/benchmark/config.py:92-155 | the failing case on two nodes, k = 1 and f = -1 |
| Committee.IpOfRender | narwhal-abci/demo/benchmark/config.py:171-174 | the host is recovered from an address string exactly when it has no colon |
| Committee.RenderReads | narwhal-abci/demo/benchmark/config.py:66-83 | an address string is the host, a colon and the port in decimal |
| Committee.RenderIff | narwhal-abci/demo/benchmark/config.py:66-83 | address strings tell addresses apart as long as no host holds a colon |
| HostSelection.CollocatedSelection | narwhal-abci/demo/benchmark/remote.py:97-110 | min(nodes, R m) hosts, host k being number k / R of region k mod R; all asked for exactly when nodes <= R m |
| HostSelection.NothingSelectedIff | narwhal-abci/demo/benchmark/remote.py:101-110 | no host is selected exactly when more are asked for than there are, none is asked for, or there is no region or an empty one |
| HostSelection.TooFewSelected | narwhal-abci/demo/benchmark/remote.py:97-110 | three hosts in two regions pass the check for three nodes and two are selected |
| HostSelection.SelectionDistinct | narwhal-abci/demo/benchmark/remote.py:107-110 | distinct hosts stay distinct |
| HostSelection.RegionsBalanced | narwhal-abci/demo/benchmark/remote.py:107-110 | of any n first selected hosts, region r holds n / R, and one more when r is below n mod R; so regions are used alike to within one |
| HostSelection.SelectSpread | narwhal-abci/demo/benchmark/remote.py:114-130 | the first regions' first hosts, or nothing when there are too few regions or one is too small |
| HostSelection.CollocatedAcceptableIff | narwhal-abci/demo/benchmark/remote.py:186-195 | the built addresses pass the committee's assertions exactly when a host was selected and there is a worker |
| HostSelection.CollocatedAddressesAre | narwhal-abci/demo/benchmark/remote.py:186-190 | each selected host serves the primary and all workers of the node it is zipped with |
| HostSelection.SpreadAcceptableIff | narwhal-abci/demo/benchmark/remote.py:191-195 | the addresses of the spread selection pass the assertions exactly when a node was selected and each has a worker |
| HostSelection.RoundSize | narwhal-abci/demo/benchmark/remote.py:341-343 | a round for n nodes runs on n nodes exactly when n <= R m |
| LogMerge.MergeResults | narwhal-abci/demo/benchmark/logs.py:71-78 | exactly the keys that occur, each with its least timestamp |
| LogMerge.EarliestUnique | narwhal-abci/demo/benchmark/logs.py:71-78 | the merge depends only on which entries occur, not on their order |
| LogMerge.TwoLevelMerge | narwhal-abci/demo/benchmark/logs.py:47-49 | merging per-log merges is one flat merge |
| LogMerge.MergeLogs | narwhal-abci/demo/benchmark/logs.py:101-107 | the parser's two-level use yields the flat merge of all logs |
| SummaryLabels.LabelsApart | narwhal-abci/demo/benchmark/logs.py:210-233 | no printed label but its own ends with a key the reader searches for |
| SummaryLabels.KeyEndsLabel | narwhal-abci/demo/benchmark/aggregate.py:42-70 | what the reader searches for is what is printed, but for the space in front |
| TextSearch.FindNone | narwhal-abci/demo/benchmark/aggregate.py:42-70 | a search fails only when the key occurs nowhere before an acceptable value |
| TextSearch.FindLeftmost | narwhal-abci/demo/benchmark/aggregate.py:42-70 | otherwise it gives what follows the leftmost such occurrence |
| TextSearch.SplitJoins | narwhal-abci/demo/benchmark/aggregate.py:97 | the parts of a split joined again are the text, and no part holds the separator |
| SummaryRoundTrip.FieldFound | narwhal-abci/demo/benchmark/aggregate.py:42-49 | a search stops at its field's own line when the value is acceptable and otherwise goes past the summary |
| SummaryRoundTrip.StripGrouped | narwhal-abci/demo/benchmark/aggregate.py:97 | removing commas from a number with thousands separators gives its plain numeral |
| DecimalText.CommaPlaces | narwhal-abci/demo/benchmark/logs.py:214-232 | counted from the right, every fourth character of a grouped number and no other is a comma |
| DecimalText.DecimalIff | narwhal-abci/demo/benchmark/logs.py:211-213 | a numeral is the only text of digits without superfluous zeros that has its value |
| SummaryRoundTrip.SplitAll | narwhal-abci/demo/benchmark/aggregate.py:97-99 | splitting the collected text gives one chunk per summary, in order |
| SummaryRoundTrip.ChunkReads | narwhal-abci/demo/benchmark/aggregate.py:40-70 | a chunk gives its setup and result back exactly when no figure read is negative |
| SummaryRoundTrip.ReadBackAll | narwhal-abci/demo/benchmark/logs.py:204-240 | printing, appending, stripping, splitting and reading gives all setups and results back in order, exactly when no figure read is negative |
| SummaryRoundTrip.SkewedFails | narwhal-abci/demo/benchmark/aggregate.py:40-70 | a summary with latency -1 and zeros elsewhere, on which the reader fails |

## Left out

- CairoMachine.Cpu.StepOnce: the runner deduces only the cell an assertion or a call determines; deducing an operand from a known result, which these programs never need, is not modelled.
- Engine.Engine.Run: heights are unbounded integers; the overflow of the 64-bit height is not modelled.
- StarknetApp.StarknetApp.DeliverTx: a panic ends the model of that process (a poisoned lock is not followed further), and reads that fill the state cache are not recorded.
- Transactions.ArgumentFelt: drops two characters where the source drops two bytes, so its panic inside a multi-byte character is not modelled; a shorter argument panics as in the source.
- Whether the consensus layer serves a certificate again after a restart: an input of `RestartChangesHash`.
- FeltText.ParseIdentifier: the parser accepts hexadecimal digits only; a leading sign or underscores that the integer library may accept are read as errors.
- Host lists shared between two entries of the committee's dictionary, where taking the first host out of one shortens the other, are not modelled; the callers build one list per name.
- SummaryRoundTrip.ReadBackAll: summaries whose figures are not integers (the '?' committee size) are not modelled, nor is the averaging of repeated setups.
- The hint of the contract entry, which supplies a pointer (`EntrySound` takes the cell as given), memory segments, and `cairo_programs/account_without_validation.json`, which needs system calls the files do not define.
- `starknet_rs`, felt internals, SHA-256, Pedersen, Keccak, bincode and the class parser: parameters.
- `Transaction::with_type`, `assert_integrity`, `check_tx`, `process_proposal`, `query`: one-line wrappers or constant replies.
- Tokio scheduling, channels, HTTP and TCP, RocksDB access, RPC clients and command lines: events, replies and stores are inputs.
- Timers, throughput logging, random ids, and floating-point averages.
- `narwhal-abci/starknet-abci`: its replies are constants.
- `_print_latency`, plotting, regular-expression parsing of node logs, AWS, SSH and tmux.
