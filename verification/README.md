# Verified core of clash-rs

A Dafny model of the parts of clash-rs whose correctness rests on an argument rather than
on reading one function, with proofs. `dafny verify dfyconfig.toml` checks all of it.

| part | modules | what it is |
|---|---|---|
| domain index | `Bitmap`, `SortedKeys`, `Louds`, `SuccinctSet`, `EqualKeys`, `KeyGlob`, `SetLookup`, `LookupAnswer`, `StarJump`, `DomainNames`, `DomainTrie`, `DomainTraversal`, `DomainIndex`, `LabelGlob`, `DomainAgreement`, `LonePlus`, `DomainLimits` | the domain trie, the bit-packed level-order set built from it, and when the two agree |
| ring buffer | `RingIndex`, `RingBuffer`, `RingProtocol`, `TcpPath` | the lock-free byte ring between the TCP thread and the application, and its users |
| proxy groups | `RefGraph`, `ProxyGroups`, `GroupLoader` | the topological sort of proxy groups, its loop report, and the loader that relies on the order |
| stream copy | `AbstractCopier`, `CopyStreams`, `BufferCopy`, `PipeCopy`, `BidirectionalCopy` | the two copiers behind every relayed connection |
| Hysteria2 UDP | `UdpWire`, `UdpFragments`, `UdpDefrag`, `UdpReassembly`, `UdpSession`, `UdpEndToEnd` | datagram format, fragmentation and reassembly, and sessions over any channel |

`Basics` holds the shared value types.

## How the source is rendered

- Words of the bitmaps are naturals below 2^64 with the bitwise operators defined on halves.
  The rank and select tables hold 32-bit integers; the construction is for sets whose bitmap
  has fewer than 2^31 bits in whole words.
- Keys are ASCII. Queries are any string: `has` reduces each character to a byte, and so does
  the model.
- Where the source iterates over a hash map, the model picks elements in any order.
- A callback is a function of everything it has been given so far.
- A trie node owns its children, so the mutable reference that walks down during insertion is
  a path from the root.
- `keys.sort()` of the standard library is an insertion sort with a sortedness proof.
- The two ring threads take one step at a time. A load of the other side's index may return
  an old value, but none older than that side has already seen. That is what the source's
  acquire and release orderings provide. In the pump loops the application acts before every
  load, and each load returns any position it has published that is not older than the last.
- Readers, writers, flushes, shutdowns and timers of a copy return whatever a finite script
  says, and are pending beyond its end. A writer never claims more bytes than it was offered.
- The source spells out both directions of a bidirectional copy. The model has one
  `Transfer`, used twice, for the buffered and the pipe-backed copier.
- Both passes over the group graph count degrees down with one method, which is told which
  degree to count.
- Which datagrams a connection takes is a function of their number.
- Addresses in UDP packets stay bytes; which of them parse is a parameter. The packet counter wraps at 2^32 as in the source.

## What turned out not to hold

- The keys of the domain set stand for what the trie finds on every plain domain exactly when
  the lone pattern `+` is not stored, or paths of `*` cover all that it matches
  (`LonePlus.AgreementIff`). For `+` the trie finds everything, while the set stores an empty
  key: without `*`, it finds no label longer than all patterns (`LonePlus.LonePlusIsMissed`).
- With `*` patterns the set can miss what the trie finds: `DomainLimits.StarIsMissed` stores
  `*.com` and `ab.com` and asks for `b.com`. The final leaf test of `has` does not go back to
  the `*` it passed. `DomainLimits.OtherStarIsForgotten` stores `r.q.*` and `*.a` and asks for
  `r.q.a`: when no dot follows the `*` met last, `has` gives up with another one on its stack.
  Where no `*` stands beside another label the set misses nothing.
- With `*` patterns the set can also accept what no pattern matches:
  `DomainLimits.MatchIsMadeUp` stores `*.c`, `k-ddc` and `k.ddc` and asks for `k.b.c`. The
  search for the dot after a `*` reads the labels of other nodes. Where no `*` stands beside
  another label this happens only to a domain that runs past a `*` which no pattern goes on
  after; for all others the set is exact (`SetLookup.Has`, `DomainAgreement.AgreesOverRun`).
- The construction of the set ends exactly if no two keys are equal (`EqualKeys.EndsIff`).
  For a trie that is exactly if no stored path has a `+` at its left end where another has a
  leading dot (`EqualKeys.TrieEndsIff`). With `+.+.com` and `.com`, or any other label in place
  of `com`, it never ends (`DomainLimits.NeverBuilt`).
- `traverse` goes on after a refusal of its callback below the first level: the refusal ends
  only what is reported below that first-level label (`DomainTraversal.Traverse`). With `b` and
  `a.b` stored, a callback that always refuses is given both (`DomainLimits.RefusalIgnored`).
- A UDP payload arrives whole exactly when it takes 1 to 255 fragments
  (`UdpSession.WholeComesOutIff`): the count is cut to one byte and an empty payload has none.
- Packet ids are distinct exactly for runs of at most 65535 packets (`UdpSession.IdsDistinct`),
  and a reused id can join pieces of two packets (`UdpSession.ReusedIdMixes`).
- When a shutdown fails in the pipe-backed copy, the tracker of that direction is not called
  (`BidirectionalCopy.CopyBoth`, with a run in `BidirectionalCopy.FailedShutdownUntracked`).
- Whether a group can use the provider of another group depends on the order that the sort
  leaves, and the sort does not look at `use`: of two orders it allows, one loads and the other
  does not (`GroupLoader.UseTurnsOnOrder`). Where only given providers are used, loading
  succeeds exactly if every group is in order (`GroupLoader.LoadGroupOutbounds`).
- A buffered copy with a buffer of size zero reports success with all of its input unread
  (`BufferCopy.EmptyBufferGivesUp`).
- A malformed datagram, or one whose address does not parse, panics the receiving task
  (`UdpSession.Connection.RecvPacket`); nine bytes do (`UdpSession.EmptyAddressPanics`).

## Model

| member | source | states |
|---|---|---|
| `Bitmap.GetBitFlat` | clash-lib/src/common/succinct_set.rs:338-343 | `get_bit` reads the bit of the flattened vector |
| `Bitmap.SetBit` | clash-lib/src/common/succinct_set.rs:345-350 | the vector grows as far as needed, exactly the asked bit is set, all others keep their value |
| `Bitmap.RankTable` | clash-lib/src/common/succinct_set.rs:171-178 | entry k is the number of set bits before word k, for every bitmap |
| `Bitmap.SelectTable` | clash-lib/src/common/succinct_set.rs:180-199 | entry j is the position of set bit number 64 j, and the table reaches the last set bit |
| `Bitmap.CountZeros` | clash-lib/src/common/succinct_set.rs:352-355 | the number of clear bits below i, for every position in range |
| `Bitmap.SelectIthOne` | clash-lib/src/common/succinct_set.rs:357-376 | the set position with exactly i set bits below it; the `unreachable!` is never reached |
| `Bitmap.ScanWord` | clash-lib/src/common/succinct_set.rs:360-372 | the inner loop skips only clear bits and finds the bit in this word or counts the word off |
| `Bitmap.SelectUnique` | clash-lib/src/common/succinct_set.rs:357-376 | a set position is determined by its rank |
| `Louds.GroupIsNode` | clash-lib/src/common/succinct_set.rs:303-309 | a run of equal characters in one column is exactly the set of keys that the longer prefix begins |
| `Louds.AddChild` | clash-lib/src/common/succinct_set.rs:311-315 | adding a queue entry keeps the tree: prefixes distinct, intervals exact and adjoining |
| `Louds.EveryPrefixIsNode` | clash-lib/src/common/succinct_set.rs:293-332 | the finished queue holds every beginning of every key |
| `Louds.NodeCount` | clash-lib/src/common/succinct_set.rs:293-332 | it holds each beginning once |
| `Louds.LastIsLeaf` | clash-lib/src/common/succinct_set.rs:295-298 | the last node is a leaf, so the leaf bitmap covers every node |
| `Louds.CloseBlock` | clash-lib/src/common/succinct_set.rs:319-326 | the set bit after a node's clear bits closes its block with the right rank |
| `SuccinctSet.FromSorted` | clash-lib/src/common/succinct_set.rs:284-335 | the construction ends, encodes the key list, and has N set bits and N - 1 labels for N distinct beginnings of keys |
| `EqualKeys.PendingAgain` | clash-lib/src/common/succinct_set.rs:293-321 | a queue entry that holds two equal keys, or lies beyond the end of its key, adds another such entry |
| `EqualKeys.PushedShrinks` | clash-lib/src/common/succinct_set.rs:293-321 | a turn on an entry of distinct keys leaves fewer columns to do |
| `EqualKeys.EndsIff` | clash-lib/src/common/succinct_set.rs:287-332 | from a sorted list, the queue runs out exactly if no two keys are equal |
| `EqualKeys.TrieEndsIff` | clash-lib/src/common/succinct_set.rs:273-332 | from whatever a traversal of a trie reports, it runs out exactly if no path ends in `+` where another has a leading dot |
| `EqualKeys.EqualPairNeverEnds` | clash-lib/src/common/succinct_set.rs:287-332 | with two equal keys there is an entry left to expand after any number of turns |
| `SuccinctSet.GoDown` | clash-lib/src/common/succinct_set.rs:116-128 | a clear bit leads to the child it stands for, at the start of that child's block |
| `SetLookup.Has` | clash-lib/src/common/succinct_set.rs:21-139 | for every key list it ends, stays in range, and gives the one answer that the rounds from the root lead to; without `*` in the keys, or when the query begins a key, it accepts exactly `Accepts`; where every `*` stands alone it misses nothing the keys stand for, and accepts nothing else unless the query runs past a `*` that no key goes on after |
| `SetLookup.ScanLabels` | clash-lib/src/common/succinct_set.rs:54-114 | the label scan stops at the first label that decides, and remembers each `*` it passed |
| `SetLookup.Backtrack` | clash-lib/src/common/succinct_set.rs:57-100 | for every key list: which node the popped cursor leads to, where its label ends in the query, and whether the verdict, a retry, a jump to the first dot read or the end follows; the work left shrinks |
| `SetLookup.AcceptsPlainQuery` | clash-lib/src/common/succinct_set.rs:101-114 | a query of bytes at least `+` is accepted exactly if it is a key or a proper beginning followed by `+` begins one |
| `SetLookup.Round` | clash-lib/src/common/succinct_set.rs:45-129 | for every key list, one round scans to the first label that decides, and then accepts, goes down, goes back or gives up, with less work left |
| `SetLookup.RoundOnPath` | clash-lib/src/common/succinct_set.rs:45-129 | without the stack, a round gives the right verdict or keeps the node of the query's first characters |
| `SetLookup.RoundFollows` | clash-lib/src/common/succinct_set.rs:45-129 | where stars stand alone, a round gives the right verdict, keeps following the one way the query can go, or has lost a query that no key stands for |
| `SetLookup.StarRound` | clash-lib/src/common/succinct_set.rs:57-100 | a block with only a `*`: over the rest of the label, to the key that ends there or to the dot that follows |
| `LookupAnswer.OneAnswer` | clash-lib/src/common/succinct_set.rs:21-139 | the answer that the rounds of `has` lead to is a function of the set and the query: no two runs of rounds, whatever keys the set was built from, end differently |
| `LookupAnswer.HasIgnoresCase` | clash-lib/src/common/succinct_set.rs:21-26 | two queries of equal length whose characters are equal or the same letter in two cases get the same answer, from every set |
| `LookupAnswer.HasReadsBytes` | clash-lib/src/common/succinct_set.rs:101-114 | without `*` in the keys, only the low byte of each character but a capital counts |
| `StarJump.DotOfNext` | clash-lib/src/common/succinct_set.rs:85-97 | after a node without continuations, the first dot read belongs to the next node, and its position to another label of it |
| `StarJump.Elsewhere` | clash-lib/src/common/succinct_set.rs:85-129 | from a dot read outside its own block the walk goes down from the node whose position it is |
| `StarJump.NothingOverStar` | clash-lib/src/common/succinct_set.rs:57-99 | when no dot is left after the `*` met last the answer is no, whatever other cursors are on the stack |
| `StarJump.AnswersYes` | clash-lib/src/common/succinct_set.rs:21-139 | every set with the keys `c.*`, `cdd-k`, `cdd.k` accepts `c.b.k` |
| `StarJump.AnswersNo` | clash-lib/src/common/succinct_set.rs:21-139 | every set with the keys `*.q.r` and `a.*` refuses `a.q.r` |
| `KeyGlob.OneWay` | clash-lib/src/common/succinct_set.rs:101-114 | where stars stand alone, of two beginnings of keys that a query matches one begins the other |
| `KeyGlob.AtEnd` | clash-lib/src/common/succinct_set.rs:138 | a query that ends where the walk stands is accepted exactly if that is a key |
| `KeyGlob.AtDeadEnd` | clash-lib/src/common/succinct_set.rs:57-100 | a walk that cannot go on means that no key stands for the query |
| `SuccinctSet.Traverse` | clash-lib/src/common/succinct_set.rs:209-257 | depth first from a node emits the keys of its interval in order until the callback declines |
| `SuccinctSet.Keys` | clash-lib/src/common/succinct_set.rs:203-261 | enumeration gives the key list in order, up to the first key at which the callback declines |
| `SuccinctSet.RoundTrip` | clash-lib/src/common/succinct_set.rs:203-336 | building a set and enumerating it returns the list |
| `DomainNames.SplitJoin` | clash-lib/src/common/trie.rs:191-211 | splitting a domain undoes joining its labels |
| `DomainNames.ValidIff` | clash-lib/src/common/trie.rs:191-211 | a domain is accepted exactly if it is not empty, does not end in a dot and has no two dots in a row; its labels are then the domain cut at its dots |
| `DomainTrie.StringTrie.InsertInner` | clash-lib/src/common/trie.rs:153-166 | the nodes of the path exist afterwards, its end holds the data, nothing else changes |
| `DomainTrie.StringTrie.Insert` | clash-lib/src/common/trie.rs:66-84 | after any run of insertions every path holds what was inserted last for it; malformed patterns change nothing |
| `DomainTrie.SearchInnerFinds` | clash-lib/src/common/trie.rs:168-189 | the search finds the first matching path with data, or no matching path has data |
| `DomainTrie.SearchMeansMatch` | clash-lib/src/common/trie.rs:86-104 | a node is found exactly if some pattern inserted so far matches: `*` one label, a leading dot one or more, `+` zero or more |
| `DomainTrie.SearchReturnsFirst` | clash-lib/src/common/trie.rs:168-189 | the data is what was inserted last for the first matching path, exact before `*` before dot, from the right |
| `DomainTrie.PatternPaths` | clash-lib/src/common/trie.rs:74-81 | a pattern matches exactly if one of the paths it is stored at does |
| `DomainTraversal.TraverseInner` | clash-lib/src/common/trie.rs:120-151 | in whatever order children come, paths below a node with data are reported once each until the callback declines, all of them if it does not |
| `DomainTraversal.Traverse` | clash-lib/src/common/trie.rs:106-118 | nothing is reported twice, and every path with data is unless the callback declines; a refused first-level label ends the list, a refused longer path ends exactly the reports below its first-level label, whose own data is still reported; a leading dot as `+.` except at the top |
| `DomainTraversal.VisitTop` | clash-lib/src/common/trie.rs:110-117 | only a refusal of a first-level label with data stops the traversal |
| `DomainIndex.KeyGivesPath` | clash-lib/src/common/trie.rs:132-141 | a reported key determines its path, up to a leftmost `+` for a leading dot |
| `DomainIndex.RunIsLabelled` | clash-lib/src/common/trie.rs:66-84 | whatever is inserted, stored paths have labels without dots of which only the last may be empty |
| `DomainIndex.SortedDistinct` | clash-lib/src/common/succinct_set.rs:280 | the sorted keys increase strictly exactly if no two are equal |
| `DomainIndex.DistinctIff` | clash-lib/src/common/trie.rs:120-141 | the keys of a trie are distinct exactly if no path ends in `+` where another has a leading dot |
| `DomainIndex.FromTrie` | clash-lib/src/common/succinct_set.rs:273-336 | for every trie with some ASCII keys, all distinct, the set encodes the sorted, reversed keys of exactly the paths with data |
| `LabelGlob.ConsumeJoin` | clash-lib/src/common/trie.rs:168-189 | matching a joined pattern character by character is matching it label by label, for all patterns and domains |
| `LabelGlob.ConsumeBefore` | clash-lib/src/common/trie.rs:168-189 | a pattern and a dot are used up exactly if the pattern matches the first labels and more follow |
| `DomainAgreement.KeyIsJoin` | clash-lib/src/common/trie.rs:132-141 | the reversed key of a stored path is its labels joined from the right, a leading dot as `+` |
| `DomainAgreement.GlobGivesPath` | clash-lib/src/common/succinct_set.rs:273-281 | what the keys stand for, a stored path matches |
| `DomainAgreement.PathGivesGlob` | clash-lib/src/common/succinct_set.rs:273-281 | what a stored path other than the lone `+` matches, the keys stand for |
| `DomainAgreement.AgreeOn` | clash-lib/src/common/succinct_set.rs:273-281 | without the lone `+`, the keys stand for a plain domain exactly if the trie finds it |
| `LonePlus.AgreementIff` | clash-lib/src/common/succinct_set.rs:273-281 | they do so for all plain domains exactly if the lone `+` is not stored, or for some m paths of 1 to m stars are, and one of m stars after a leading dot |
| `LonePlus.AcceptsAllIff` | clash-lib/src/common/succinct_set.rs:273-281 | the keys stand for every plain domain exactly if stars cover them so |
| `LonePlus.LonePlusIsMissed` | clash-lib/src/common/succinct_set.rs:273-281 | in every run without `*` that inserts the lone `+`, the trie finds each label longer than all patterns and the set does not |
| `DomainAgreement.ApartIsAlone` | clash-lib/src/common/succinct_set.rs:273-281 | if no `*` of the trie stands beside a label, every `*` of the keys stands alone |
| `DomainAgreement.InnerGoesOn` | clash-lib/src/common/succinct_set.rs:273-281 | if stored paths go on after every `*` that a domain runs past, so do the keys |
| `DomainAgreement.AgreesOverRun` | clash-lib/src/common/succinct_set.rs:273-336 | for every run of patterns without lone `+` whose `*` keep apart: the trie finds exactly what some pattern matches; the set, asked in any mixture of cases, finds all of it, and nothing else unless the domain runs past a `*` that no pattern goes on after |
| `DomainLimits.StarIsMissed` | clash-lib/src/common/succinct_set.rs:132-139 | with `*.com` and `ab.com` the trie finds `b.com` and the set does not |
| `DomainLimits.OtherStarIsForgotten` | clash-lib/src/common/succinct_set.rs:85-99 | with `r.q.*` and `*.a` the trie finds `r.q.a` and the set does not |
| `DomainLimits.NeverBuilt` | clash-lib/src/common/succinct_set.rs:273-332 | with `+.+.x` and `.x` stored, for any label x, the construction never ends |
| `DomainLimits.RefusalIgnored` | clash-lib/src/common/trie.rs:106-118 | with `y` and `x.y` stored, a callback that always refuses is given `x.y` and then `y` |
| `DomainLimits.MatchIsMadeUp` | clash-lib/src/common/succinct_set.rs:85-97 | with `*.c`, `k-ddc` and `k.ddc`, whose `*` keep apart, the set accepts `k.b.c`, which no pattern matches |
| `RingIndex.WrittenHolds` | clash-netstack/src/ring_buffer.rs:46-57 | a wrapped copy keeps what the ring holds and adds the new bytes |
| `RingIndex.ReadOutIs` | clash-netstack/src/ring_buffer.rs:87-98 | a wrapped read gives the oldest bytes in order |
| `RingBuffer.LockFreeRingBuffer.EnqueueSlice` | clash-netstack/src/ring_buffer.rs:27-65 | appends exactly as many bytes as fit under the loaded read position |
| `RingBuffer.LockFreeRingBuffer.DequeueSlice` | clash-netstack/src/ring_buffer.rs:68-106 | hands out exactly the oldest bytes shown by the loaded write position, rest of the buffer untouched |
| `RingBuffer.LockFreeRingBuffer.IsEmpty` | clash-netstack/src/ring_buffer.rs:108-111 | true exactly if the loaded write position shows no byte |
| `RingBuffer.LockFreeRingBuffer.IsFull` | clash-netstack/src/ring_buffer.rs:113-117 | true exactly if the loaded read position leaves no slot |
| `RingProtocol.ProducerKeeps` | clash-netstack/src/ring_buffer.rs:27-65 | every producer step keeps the invariant of the two threads |
| `RingProtocol.ConsumerKeeps` | clash-netstack/src/ring_buffer.rs:68-106 | every consumer step keeps it |
| `RingProtocol.FifoInEveryRun` | clash-netstack/src/ring_buffer.rs:27-106 | in every interleaving the bytes taken are the first of the bytes accepted, and at most capacity - 1 are held |
| `RingProtocol.RefinesQueue` | clash-netstack/src/ring_buffer.rs:60-64 | publishing appends to or removes from a queue, all other steps leave it |
| `RingProtocol.NoOverlap` | clash-netstack/src/ring_buffer.rs:43-58 | the slots being written and the slots being read are disjoint |
| `RingProtocol.NeverStuck` | clash-netstack/src/ring_buffer.rs:31-57 | no subtraction underflows and no index leaves the buffer |
| `RingProtocol.CallMoves` | clash-netstack/src/ring_buffer.rs:31-41 | how many bytes a call moves, and that it moves some after a check that came out false |
| `RingProtocol.ChecksStayTrue` | clash-netstack/src/tcp_stream.rs:66-80 | a check that showed room or bytes stays true until its own side publishes |
| `RingProtocol.CheckFullMeans` | clash-netstack/src/ring_buffer.rs:113-117 | the comparison behind `is_full` is exact under stale loads |
| `RingProtocol.CheckEmptyMeans` | clash-netstack/src/ring_buffer.rs:108-111 | so is the comparison behind `is_empty` |
| `TcpPath.PollRead` | clash-netstack/src/tcp_stream.rs:64-88 | pending exactly on an empty ring; otherwise exactly as many of the oldest bytes as the second load shows and the buffer holds, at least one for a non-empty buffer, the rest of it untouched |
| `TcpPath.PollWrite` | clash-netstack/src/tcp_stream.rs:93-118 | pending exactly on a full ring; otherwise exactly as many bytes as the second load leaves room for, at least one of a non-empty slice |
| `TcpPath.PumpReceive` | clash-netstack/src/tcp_listener.rs:314-324 | ends with the socket empty or the ring full as the last load shows it, bytes moved in order, whatever the application takes meanwhile and however old the loads are |
| `TcpPath.PumpSend` | clash-netstack/src/tcp_listener.rs:329-339 | ends with the socket full or the ring empty as the last load shows it, bytes moved in order, whatever the application adds meanwhile and however old the loads are |
| `RefGraph.PredsGiveCycle` | clash-lib/src/app/outbound/utils.rs:106-110 | a non-empty finite set in which everything is referred to from inside has a cycle |
| `RefGraph.CycleIsTwoSided` | clash-lib/src/app/outbound/utils.rs:110-164 | the members of a cycle refer to and are referred to by members |
| `ProxyGroups.BuildGraph` | clash-lib/src/app/outbound/utils.rs:23-67 | fails exactly on a repeated name, the first one, else each node has its group and the number of references to it |
| `ProxyGroups.KahnPass` | clash-lib/src/app/outbound/utils.rs:69-104 | places groups from the back in order; what stays is referred to from what stays; no `unwrap` fails |
| `ProxyGroups.RecordParents` | clash-lib/src/app/outbound/utils.rs:110-137 | each name knows who lists it and how often, each group how many it lists |
| `ProxyGroups.PeelPass` | clash-lib/src/app/outbound/utils.rs:139-162 | ends with a set where every name refers to another; no `unwrap` fails |
| `ProxyGroups.DropRefs` | clash-lib/src/app/outbound/utils.rs:94-100 | degrees go down by the number of occurrences and the queue stays exactly the names of degree zero |
| `ProxyGroups.DagSort` | clash-lib/src/app/outbound/utils.rs:9-169 | succeeds exactly for distinct names and no cycle; then a permutation with references first; else the first repeated name or the largest two-sided set |
| `ProxyGroups.LoopReport` | clash-lib/src/app/outbound/utils.rs:164-168 | the reported names are groups and include every group on a cycle |
| `GroupLoader.MakeProvider` | clash-lib/src/app/outbound/manager.rs:474-517 | succeeds exactly for a name other than `DIRECT` and `REJECT` and a non-empty list of known proxies; which error otherwise, and the first proxy that is missing |
| `GroupLoader.BuildHandler` | clash-lib/src/app/outbound/manager.rs:549-591 | succeeds exactly if the group is in order, then adds its handler and its own provider; else the first fault in the order in which they are looked for |
| `GroupLoader.LoadGroupOutbounds` | clash-lib/src/app/outbound/manager.rs:459-823 | a proxy is not found only if it is neither loaded nor a group of the list; success exactly if each group is in order when its turn comes, and if no group uses the provider of another, exactly if all are in order; then all handlers, providers and names are there; else the first group that is not in order in its turn, with its first fault |
| `GroupLoader.UseTurnsOnOrder` | clash-lib/src/app/outbound/manager.rs:519-537 | a group that uses the provider of another loads in one of two sorted orders and not in the other, with the error |
| `AbstractCopier.AlwaysFaithful` | clash-lib/src/common/io/mod.rs:113-176 | after any actions output is a beginning of input, and a finished copy gave everything and flushed |
| `AbstractCopier.NothingAfterEnd` | clash-lib/src/common/io/mod.rs:116-143 | nothing is read after the end was seen |
| `BufferCopy.CopyBuffer.PollCopy` | clash-lib/src/common/io/mod.rs:103-177 | refines the abstract copy for all partial reads, writes and pendings; ready exactly when over; failures and waits come from polls; a pending copy with an empty buffer leaves nothing unflushed unless it has asked for the flush and that is pending |
| `BufferCopy.EmptyBufferGivesUp` | clash-lib/src/common/io/mod.rs:116-176 | a buffer of size zero reports success with the input unread |
| `BufferCopy.CopyBuffer.Fill` | clash-lib/src/common/io/mod.rs:116-143 | reads into an empty buffer; a reader that has nothing means a flush, if there is something to flush, and only then |
| `BufferCopy.CopyBuffer.Drain` | clash-lib/src/common/io/mod.rs:146-160 | writes out the buffer or stops with a pending or failed write |
| `PipeCopy.PipeBuffer.PollFill` | clash-lib/src/common/io/splice.rs:179-227 | the end is noticed exactly on a fill of no bytes |
| `PipeCopy.PipeBuffer.WriteOnce` | clash-lib/src/common/io/splice.rs:229-330 | bytes leave the pipe in order and are counted |
| `PipeCopy.PipeBuffer.PollCopy` | clash-lib/src/common/io/splice.rs:285-347 | refines the same abstract copy; the pipe always holds `cap - pos` bytes; a pending copy with an empty pipe leaves nothing unflushed unless the flush it asked for is pending |
| `BidirectionalCopy.Transfer.PollRunning` | clash-lib/src/common/io/mod.rs:226-252 | a running direction ends by finishing, failing, or by its timer; it waits only if the timer is not armed or was polled and did not fire |
| `BidirectionalCopy.Transfer.PollClosing` | clash-lib/src/common/io/mod.rs:253-271 | a direction is done when the shutdown completes, with its count set and tracked once |
| `BidirectionalCopy.PollSide` | clash-lib/src/common/io/splice.rs:498-546 | running, shutting down, done, in that order; nothing is written after shutdown begins; when done it arms the other timer with that timeout; it stays only if its armed timer does not fire or its shutdown is pending; what is tracked on errors |
| `BidirectionalCopy.CopyBidirectional.Poll` | clash-lib/src/common/io/mod.rs:206-332 | both directions only advance; success means both done and the counts are the bytes written; a direction is left running beside one that is done only if its timer, armed with its own timeout, was polled and did not fire, and left shutting down only if that is pending; on failure, what each tracker was given |
| `BidirectionalCopy.CopyBoth` | clash-lib/src/common/io/mod.rs:395-420 | over whole runs and for every buffer size no byte is lost, repeated or reordered; at most one direction was cut, the other ended with its input; trackers called once with the count; a run that has not ended has no timer that fired in any poll since the other direction was done, nor a shutdown that completed; on failure, each tracker by whether its direction had begun to shut down, had shut down, or neither |
| `BidirectionalCopy.FailedShutdownUntracked` | clash-lib/src/common/io/splice.rs:525-543 | a pipe-backed copy whose shutdown fails after its input ended fails with its tracker not called |
| `BidirectionalCopy.WaitedMore` | clash-lib/src/common/io/mod.rs:238-249 | over the polls of a run: one more poll takes one more entry of the timer's script, which did not fire |
| `BidirectionalCopy.SilentSideIsCut` | clash-lib/src/common/io/mod.rs:259-300 | one side at its end, the other silent for ever: the copy finishes as soon as the timer fires |
| `UdpWire.VarintRoundTrip` | clash-lib/src/proxy/hysteria2/codec.rs:107-121 | a variable-length integer of section 16 of RFC 9000 decodes to itself and takes `var_size` bytes |
| `UdpWire.PacketRoundTrip` | clash-lib/src/proxy/hysteria2/codec.rs:158-178 | a datagram decodes to the fields it was made from, exactly if its address parses |
| `UdpWire.DecodeIff` | clash-lib/src/proxy/hysteria2/codec.rs:158-178 | byte by byte: a datagram decodes to a packet exactly if session id, packet id, fragment number and count, address length, address and data stand at their places, big-endian, and the address parses |
| `UdpWire.DecodeFails` | clash-lib/src/proxy/hysteria2/codec.rs:159-172 | which datagrams are too short, have a length that is cut off, or an address that is |
| `UdpWire.EncodeLayout` | clash-lib/src/proxy/hysteria2/codec.rs:123-131 | every packet is written so, with its address length in as few bytes as can hold it |
| `UdpFragments.ChunkCount` | clash-lib/src/proxy/hysteria2/codec.rs:242-244 | `div_ceil` is the number of pieces, and the least number that holds the payload |
| `UdpFragments.Fragments.Next` | clash-lib/src/proxy/hysteria2/codec.rs:267-294 | the datagrams in order, each within the size limit, then nothing; byte by byte, the header, the shortest address length, the address, and as much of the payload as fits from where the last one ended |
| `UdpFragments.SendPacket` | clash-lib/src/proxy/hysteria2/mod.rs:504-527 | the datagrams of the packet are sent in order up to the first that the connection refuses; success exactly if all are; their number is that of the pieces up to multiples of 256 |
| `UdpDefrag.Feed` | clash-lib/src/proxy/hysteria2/codec.rs:314-354 | nothing is kept, or the count is that of the filled slots and below their number |
| `UdpDefrag.Defragger.FeedPacket` | clash-lib/src/proxy/hysteria2/codec.rs:314-354 | the imperative step computes `Feed`, of which `UdpReassembly.ComesOut` tells what it hands out over any arrivals; no `unwrap` meets an empty slot |
| `UdpDefrag.OnlySentComesOut` | clash-lib/src/proxy/hysteria2/codec.rs:314-354 | over any lossy, repeating, reordering channel with distinct ids only sent packets come out |
| `UdpDefrag.AnyOrder` | clash-lib/src/proxy/hysteria2/codec.rs:326-352 | fragments in any order give nothing until the last and then the message |
| `UdpDefrag.SeenIsWhole` | clash-lib/src/proxy/hysteria2/codec.rs:243-244 | the fragments amount to the payload exactly if there are at most 255 pieces |
| `UdpReassembly.ComesOut` | clash-lib/src/proxy/hysteria2/codec.rs:314-354 | for any arrivals: a packet of several fragments comes out at an arrival exactly if that brings its last missing fragment, counted since the last fragment of another packet or its own last completion, made of the first arrivals of its fragments; whole packets come out as they arrive; they, impossible numbers and repetitions change nothing |
| `UdpReassembly.SentComesOut` | clash-lib/src/proxy/hysteria2/codec.rs:314-354 | with distinct ids, a sent packet comes out whole exactly at the arrivals that complete it |
| `UdpSession.DeliveredInOrder` | clash-lib/src/proxy/hysteria2/codec.rs:314-354 | packets one after the other with losses: exactly the whole ones come out, in order |
| `UdpSession.IdsDistinct` | clash-lib/src/proxy/hysteria2/datagram.rs:57-62 | ids are distinct exactly for runs of at most 65535 packets |
| `UdpSession.FrameShows` | clash-lib/src/proxy/hysteria2/datagram.rs:57-62 | the bytes of a datagram show the session and the packet's number modulo 65535, counted from zero by a 32-bit counter |
| `UdpSession.OutgoingLoop` | clash-lib/src/proxy/hysteria2/datagram.rs:53-75 | packet i gets id i modulo 65535 and all datagrams are sent in order, up to the first that the connection refuses |
| `UdpSession.SessionDelivers` | clash-lib/src/proxy/hysteria2/datagram.rs:57-68 | a session of at most 65535 packets delivers exactly the packets that arrive whole |
| `UdpSession.ReusedIdMixes` | clash-lib/src/proxy/hysteria2/codec.rs:328-352 | a reused id joins pieces of two packets |
| `UdpSession.WholeComesOutIff` | clash-lib/src/proxy/hysteria2/codec.rs:243-244 | a packet comes back exactly if its payload takes 1 to 255 pieces |
| `UdpSession.Connection.RecvPacket` | clash-lib/src/proxy/hysteria2/mod.rs:529-552 | only the named session changes, by one feed; unknown sessions are ignored; a malformed datagram or an address that does not parse panics and changes nothing |
| `UdpSession.EmptyAddressPanics` | clash-lib/src/proxy/hysteria2/codec.rs:158-178 | nine bytes with an empty address panic the receiver |
| `UdpEndToEnd.ReceiveAll` | clash-lib/src/proxy/hysteria2/mod.rs:529-552 | however datagrams of several sessions are mixed, each session hands out what its defragger makes of its own |
| `UdpEndToEnd.OwnPackets` | clash-lib/src/proxy/hysteria2/mod.rs:529-552 | the packets a session is fed are its own fragments, in the order of arrival |
| `UdpEndToEnd.EndToEnd` | clash-lib/src/proxy/hysteria2/datagram.rs:53-75 | several sessions of up to 65535 packets of 1 to 255 fragments each, through the bytes, over a channel that may lose, repeat, reorder and mix: only packets sent in a session come out of it, and exactly the whole ones where packets arrive one after the other |
| `UdpSession.SendAndReceive` | clash-lib/src/proxy/hysteria2/mod.rs:504-552 | opening a session, sending and receiving over an ordered channel returns the packet, through the bytes |

## Left out

- SetLookup.Has: where a `*` stands beside other labels, what the rounds lead to is not put into words, except for queries that begin a key: it turns on which labels share beginnings with the query, and agreement with the trie is false there (`DomainLimits.StarIsMissed`).
- SetLookup.RoundFollows: a query that runs past a `*` which no key goes on after is only shown not to be one that the keys stand for. The dot that is read next belongs to another node, so that some are accepted (`DomainLimits.MatchIsMadeUp`).
- DomainAgreement.AgreeOn: labels are `*` or non-empty ASCII without upper case, with characters above `+`; smaller characters are looked at before `+`, and upper case never matches a lower-cased query.
- DomainIndex.FromTrie: keys are ASCII. The source compares a column that counts characters with a length in bytes, so other keys do not end where they should.
- ProxyGroups.DagSort: degrees are unbounded integers, the source's are 32-bit; the contents of the slice after an error are not described.
- BidirectionalCopy.CopyBoth: byte counts are unbounded, the source's are 64-bit; error values carry no text.
- UdpWire.PacketRoundTrip: which address texts parse is a parameter; the rules for host and port are not modelled.
- UdpEndToEnd.EndToEnd: sessions stay open while datagrams arrive; closing one, which drops its later datagrams, is not modelled.
- Memory orderings weaker than the source's acquire and release pairs, and wakers of the TCP stream and listener.
- Sets loaded from ready-made parts instead of a trie.
- The Hysteria2 TCP codec, Salamander obfuscation, port hopping and congestion control.
- Provider downloads, health checks and the handlers themselves: a handler is its name here.
- Configuration parsing, DNS, the HTTP API, logging, statistics and all other protocols.
