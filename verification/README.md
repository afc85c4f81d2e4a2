# Verification model of Vavёrka

Vavёrka turns a network and a routing table into probe frames and listens for answers. This project models
the parts of it that decide what is sent, to whom, over which route and in which order, and proves what the
program is for:

* **The route splitter** cuts a network into ranges, each with its own route, by painting one interval over
  with every specific route in turn. It is modelled over byte addresses and range objects that the code edits
  in place (`Router`), against intervals (`Intervals`, `Skipping`) and a reference longest-prefix-match lookup
  (`Routes`). The sort by address leaves routes with one address in any order (`RouteOrders`). `RouteLosses` and
  `RouteEdges` give the exact condition under which painting in one order agrees with the lookup on every address,
  `RouteTies` the exact condition for all orders, `RouteRuns` says what neighbouring ranges have in common,
  `Openings` when an interface that cannot be opened makes the splitter fail, and `Counterexamples` gives concrete
  inputs. `Trim` covers network and broadcast addresses of IPv4.
* **The enumerators** walk a range in chunks of 64, for IPv6 with a wrapping counter of two words, and share
  their encoding of ranges with the receive filter (`Enumerator`).
* **The packet builder** queues messages that only refer to header buffers and keeps rewriting those buffers for
  the next host or address; the kernel follows the references when a batch is submitted. `Batch` models that memory
  with arrays and I/O vectors; `PortScan`, `HostScan`, `RangeScan`, `Ping` and `Arp` are the sending loops over it.
  `Frames` and `Checksum` say what a frame should be, `Reading` what a receiver reads of it by the offsets of its fields
  alone; `Batching` and `ScanLaws` say what the batches amount to.
* **The goroutine protocol** is a step relation over all ranges (`Protocol`) with an inductive invariant
  (`ProtocolSafety`) and laws of all runs (`ProtocolRuns`), down to which hosts and ports are reported for the packets
  that arrive. Panics are steps of the model, so that their absence is a theorem. `ProtocolFrames` runs it on real
  enumerations and frames: a range has as many chunks as its enumerator sends, and probing, scanning and sweeping steps
  put the batches of `Ping`, `Arp`, `HostScan` and `RangeScan` on the wire. `Stream` is the merger behind it, with the ranges that feed it, errors included.
* **End to end**, `Plan`, `PlanV4`, `EndToEnd` and `EndToEndV4` join the splitter, the enumerators and the sender:
  which address is probed under which route, and which frames reach the wire.

Addresses are byte sequences of 4 or 16 bytes, networks an address and a prefix length. `Bytes` and
`Addresses` relate them to numbers. Choosing a source address (`Host.pick`) and opening an interface
(`Host.bind`) are functions that a host provides; nothing is assumed of them except that choosing a source
changes nothing else in a route. The lookup laws take destinations with no host bits set, as a kernel reports
them. Those about one painting order also take a table without a clash (`Routes.Clash`): no painted route shares its
address with a different painted route, nor, covering n, with n's own. `RouteTies.ExactlyWithoutHarmOrClash` shows
that this is what being right in every order needs. Painting itself (`Intervals.LastWriterWins`) and everything the
splitter's methods promise needs neither.

## What is false of the code

* Neighbouring addresses wrap around, so the splitter's overlap test and its last part go wrong for routes
  touching either end of the address space. `RouteLosses.ExactlyWhenNothingLost` and
  `RouteLosses.ExactlyWhenHarmless` are the exact conditions, `Counterexamples.AHarmfulRoute` an input.
* Routes are sorted by address without regard to their length (router/v4.go:184-186). Two routes with the same
  address are painted in either order (`RouteTies.TiesAreUndecided`), and one of the two contradicts the lookup.
* A comment promises specific routes "fully inside n" (router/v4.go:167); the code tests the base address only, so a
  supernet with n's base address passes. That is harmless when the supernet is the default itself
  (`RouteEdges.CoveringSpecificIsDefault`), but beside n's own route the supernet takes every address, in every order
  (`RouteTies.SupernetWins`, `Counterexamples.ASupernetWins`).
* Taken together: for a masked n the splitter is right in every order the sort may leave if and only if no route is
  harmful and no two routes clash (`RouteTies.ExactlyWithoutHarmOrClash`).
* Post-processing inverts the range of a single address that is a broadcast but not a network address and off a /32
  route, and dereferences the missing destination of a bare default route on a single address. `PlanV4.CoversExactly`
  and `PlanV4.CrashesExactly` tell both from the lookup of the address and of its two neighbours;
  `Counterexamples.AnInversion` and `Counterexamples.ACrash` are inputs. An inverted range is sent to and then rejected
  by the receive filter (`Enumerator.SenderAgreesWithFilter`).
* A single IPv4 address of a rule comes in its sixteen-byte form (rule/rule.go:228-232, utils/common.go:34-37), whose
  fourth byte is zero. Under the smart router it then counts as a network address, and nothing is sent to it unless
  its route is a /32; off a bare default the splitter crashes (`Trim.MappedSingle`).
* The error collector stops reading at the first error, and the error channel holds four. Six ranges that fail on
  their gateway's hardware address (scanner/v4.go:2023-2040) block each other: the findings are never closed and `Wait`
  never returns. So can a single failure, where an early return skips the meeting that another goroutine of the
  range waits for (scanner/v4.go:1986-1989). `Stream.WaitReturns` is the exact condition, `Stream.SixFailuresHang` and
  `Stream.OneFailureHangs` are inputs.
* ARP discovery submits all 64 slots for every chunk (`Arp.OneRequestEach`).
* With no port or no technique, the single-batch branch submits an empty batch for every host, which the
  general branch does not (`ScanLaws.FastPathIsGeneral`).
* A port range does not include its upper bound (`Ports.Expand`), although the documentation writes ranges as
  `1000-2000`.
* The comment on the IPv4 echo request calls it 26 bytes long; it has 12 (constants/v4.go:80-81).

## Model

| member | source | states |
|---|---|---|
| `Bytes.CompareIsNumeric` | utils/common.go:50-82 | comparing two addresses of equal length byte by byte orders them exactly as the numbers they denote |
| `Bytes.NumInjective` | utils/v6.go:145-149 | equal-length addresses with the same number are the same bytes |
| `Bytes.ToBytesNum` | utils/v6.go:172-173 | writing an address's number big-endian gives the address back |
| `Addresses.NextIP` | utils/v6.go:99-111 | the in-place carry loop computes the carry rule |
| `Addresses.PreviousIP` | utils/v4.go:25-38 | the in-place borrow loop computes the borrow rule |
| `Addresses.NextIsSuccessor` | utils/v4.go:40-51 | the successor is plus one, the highest address wrapping to zero |
| `Addresses.PreviousIsPredecessor` | utils/v6.go:84-97 | the predecessor is minus one, address zero wrapping to the highest |
| `Addresses.NextPreviousInverse` | utils/v6.go:84-111 | successor and predecessor undo each other at every address, the wrapping ones included |
| `Addresses.LastIP` | utils/v4.go:53-66 | setting the host bits byte by byte, in place, computes the last address |
| `Addresses.LastIsBlockEnd` | utils/v6.go:25-38 | the last address is the numeric end of the CIDR block and never lies before the network's own address |
| `Addresses.ContainsIsBlock` | utils/v4.go:68-70 | the masked comparison accepts an address exactly when its number lies in the block |
| `Addresses.ContainsSubnetIsInclusion` | utils/v6.go:113-115 | testing the two ends decides inclusion of every address from the sub-network's address to its end |
| `Addresses.BlocksNest` | router/v4.go:167-181 | two blocks sharing an address are nested, the longer prefix inside |
| `Enumerator.MaxIP` | utils/common.go:50-65 | the greater of two optional addresses, a missing one being ignored |
| `Enumerator.MinIP` | utils/common.go:67-82 | the smaller of two optional addresses, a missing one being ignored |
| `Enumerator.FillV4` | utils/v4.go:184-191 | the staging buffer receives consecutive addresses, split into bytes |
| `Enumerator.EmitChunk` | utils/v4.go:193-202 | a chunk is the staged addresses, as they are or as some permutation of them |
| `Enumerator.IPv4RangeBytesChunks` | utils/v4.go:134-207 | for every encoding of a range the chunks are the slices of 64 of lower to upper bound; with shuffle, each chunk is a permutation of its slice |
| `Enumerator.FillV6` | utils/v6.go:166-187 | the inner loop stages consecutive addresses up to 64 or the last one and leaves the two-word counter behind them |
| `Enumerator.SendV6` | utils/v6.go:154-206 | the wrapping two-word loop terminates and emits exactly start to end, the highest address included |
| `Enumerator.IPv6RangeBytesChunks` | utils/v6.go:118-209 | the same contract over 128-bit addresses |
| `Enumerator.CounterCarry` | utils/v6.go:182-186 | incrementing the low word and carrying on wrap is plus one modulo 2 to the 128 |
| `Enumerator.CounterOrder` | utils/v6.go:165-165 | comparing words lexicographically is comparing the 128-bit numbers |
| `Enumerator.FlattenSlices` | utils/v6.go:189-199 | the slices joined are every address from lower to upper bound, ascending, once |
| `Enumerator.SliceSizes` | utils/v6.go:170-199 | no chunk is empty, every chunk before the last has 64 addresses, and there is none exactly for an empty range |
| `Enumerator.ShuffledFlatten` | utils/v6.go:193-197 | shuffling inside chunks leaves the multiset of emitted addresses alone |
| `Enumerator.EmittedExactlyOnce` | utils/v4.go:134-207 | an address is emitted if and only if it is the one bound given, or lies between the two bounds in either order, and then once |
| `Enumerator.InRangeNumeric` | utils/common.go:21-32 | what the receive filter accepts, for each of the four encodings of a range |
| `Enumerator.SenderAgreesWithFilter` | utils/common.go:21-32 | sender and receive filter agree on every address if and only if the bounds are not inverted |
| `Intervals.CutHits` | router/v6.go:231-270 | which routes the up to three parts of a cut give any one address, wrapping comparisons included |
| `Intervals.CutTiles` | router/v4.go:203-246 | away from the wrapping cases the parts tile the range that was cut, and each end of the spec adds at most one part |
| `Intervals.PaintTiles` | router/v6.go:229-272 | repainting keeps the ranges ascending, non-empty, gap-free and disjoint and adds at most two |
| `Intervals.PaintHits` | router/v4.go:201-248 | after repainting an address has the spec's route inside the spec and its old one elsewhere |
| `Intervals.LastWriterWins` | router/v6.go:216-273 | after any number of non-wrapping specs, distinct or not, the ranges tile the seed, each address carries the route of the last spec containing it, and k specs make at most 2k+1 ranges |
| `Intervals.ZeroNeverPainted` | router/v4.go:204-205 | a spec from address zero on is never painted on address zero while the seed stays below the top |
| `Intervals.TopNeverPainted` | router/v4.go:236-246 | the top address keeps the seed's route for ever, or address zero ends up in two ranges |
| `Routes.ClaimsNest` | router/v4.go:167-181 | two routes sharing an address: the longer prefix lies inside, equal lengths mean equal destinations |
| `Routes.CoversNumeric` | router/v4.go:116-131 | the covering test is inclusion of n's address to n's end in the route's block |
| `Routes.SpecificNumeric` | router/v4.go:167-181 | the base-address test means starting inside n's block; unless the route covers n it also ends there |
| `Routes.OrderAscends` | router/v6.go:211-214 | the painting order ascends by start |
| `Routes.OrderTies` | router/v6.go:211-214 | without a clash, painted routes that start together are the same route |
| `Routes.LookupIsLastWriter` | router/v6.go:196-273 | with no clash in the table and no specific route at an end of the address space, the longest-prefix match of every address of n is the last route painted over it |
| `Routes.RepaintingIsLongestPrefixMatch` | router/v6.go:145-273 | with no specific route at an end of the address space the painted ranges tile n, agree with longest-prefix match at every address and number at most 2k+1 |
| `RouteEdges.CoveringSpecificIsDefault` | router/v4.go:167-181 | without a clash, a painted supernet is the chosen default itself and starts at n |
| `RouteEdges.TopBreaks` | router/v4.go:236-246 | a usable inner route up to the highest address defeats the lookup in every order, clash or not |
| `RouteEdges.ZeroBreaks` | router/v4.go:203-208 | so does one from address zero on, unless n reaches the top |
| `RouteEdges.HarmBreaks` | router/v4.go:201-249 | any harmful route does |
| `Skipping.LastPaintedWins` | router/v6.go:229-236 | painting is last-writer-wins over the specs that are not skipped by the wrapping overlap test, whenever every spec is clear of the ends, left alone by every range, or the only one from address zero |
| `Skipping.FirstAtZero` | router/v4.go:203-208 | in the whole address space the first painted spec from address zero keeps address zero, whatever is painted later |
| `Routes.PaintedOrLost` | router/v6.go:229-272 | in any order, an address gets another route than its lookup if and only if its longest match, other than the default, touches an end of the address space; no clash being in the table |
| `RouteLosses.ExactlyWhenNothingLost` | router/v6.go:145-273 | for every n, masked or not, every table of aligned routes without a clash and every order the sort may leave: longest-prefix match at every address if and only if no address is lost in that way |
| `RouteLosses.NothingLostExactlyWhenHarmless` | router/v4.go:116-249 | for a masked n nothing is lost if and only if no route is harmful, clash or not |
| `RouteLosses.ExactlyWhenHarmless` | router/v4.go:116-249 | for a masked n and a table without a clash, in any order: longest-prefix match at every address if and only if the table holds no usable inner route touching an end of the address space, a start at zero being harmless when n reaches the top |
| `RouteTies.EveryOrderMatches` | router/v4.go:183-249 | for any n and any table: every order the sort may leave gives longest-prefix match if and only if at every address each painted route that starts last there is its longest match; the whole address space with harmful or several different zero routes excepted |
| `RouteTies.NotWholeIsOrderly` | router/v4.go:116-249 | that exception is about the whole address space only: for any smaller network every table of aligned routes qualifies |
| `RouteTies.ClashBreaks` | router/v4.go:183-186 | a clash defeats the lookup in some order the sort may leave: two different painted routes with one address, or a supernet painted over n's own route |
| `RouteTies.ExactlyWithoutHarmOrClash` | router/v4.go:116-249 | for a masked n and every table of aligned routes with a usable default: every order gives longest-prefix match at every address if and only if the table holds no harmful route and no clash |
| `RouteTies.TiesAreUndecided` | router/v4.go:183-186 | in any table, two different painted routes with one address can be sorted so that the address gets either |
| `RouteTies.SupernetWins` | router/v4.go:116-181 | n's own route beside a supernet with n's address: the only order paints the supernet over every address, although n's own route is the longest match |
| `Counterexamples.ATieExists` | router/v4.go:183-186 | a concrete table with two routes of one address, in which some order contradicts the lookup |
| `Counterexamples.ASupernetWins` | router/v4.go:167-181 | a concrete table with a supernet of n's address, in which every order does |
| `Counterexamples.AHarmfulRoute` | router/v4.go:203-208 | 0.0.0.0/0 split with a bare default and a route to 128.0.0.0/1: no clash, one harmful route, and in every order the painted ranges contradict the lookup |
| `Counterexamples.AnInversion` | router/v4.go:264-270 | 0.0.0.15/32 split with a route to 0.0.0.8/29: its one range is inverted and its plan names 0.0.0.14 as well |
| `Counterexamples.ACrash` | router/v4.go:253-254 | 0.0.0.15/32 split with a bare default crashes |
| `RouteRuns.NeighboursDiffer` | router/v6.go:216-273 | where nothing is lost, neighbouring painted ranges carry different routes |
| `RouteRuns.SinglesAreAlone` | router/v6.go:216-282 | where nothing is lost, the single-address ranges are exactly the addresses looked up to another route than both neighbours in n |
| `Router.MakeIpRangeRoute` | router/common.go:12-33 | fails exactly when the route's interface cannot be opened, else a fresh range object with these ends and route |
| `Router.MakePart` | router/v6.go:240-270 | a part is made exactly when it is not empty, and fails if and only if it is not empty and the route's interface cannot be opened |
| `Router.CutRange` | router/v6.go:230-271 | one range against one specific route gives the cut of their numeric intervals; it fails if and only if the route takes a part of the range and cannot be opened |
| `Router.Refine` | router/v6.go:225-273 | the inner loop repaints the whole list by one specific route, or fails if and only if that route takes a part of some range and cannot be opened |
| `Router.RefineAll` | router/v6.go:216-273 | the outer loop paints all specific routes in order over the seed, or fails if and only if one of them takes a part when its turn comes and cannot be opened |
| `Openings.OpensExactly` | router/v6.go:216-273 | for a masked n and a table without a clash, whatever the order: every interface asked for can be opened if and only if those of the default and of all painted routes can |
| `Router.FindCovering` | router/v6.go:145-160 | the first of the longest routes covering n |
| `Router.FindSystemDefault` | router/v6.go:168-185 | the first bare default route or all-zero route of prefix length zero |
| `Router.CollectSpecific` | router/v6.go:196-209 | the usable specific routes in table order, source address filled in |
| `Router.SortByStart` | router/v6.go:211-214 | sorted by destination address only, a permutation of its input |
| `Router.Split` | router/v6.go:145-273 | fails exactly when there is no route at all, or no source address for the one chosen, or else some interface asked for on the way cannot be opened, and says which; otherwise the range objects hold the painted intervals, all fresh and distinct |
| `Router.MarkSingletons` | router/v6.go:275-280 | in place: a single address loses its end, every other range keeps both |
| `Router.SmartV6Route` | router/v6.go:73-283 | the splitter as a whole: exactly why it fails, or the painted intervals with singletons marked |
| `Router.TrimOne` | router/v4.go:252-277 | in place: post-processing of one range, its start in four bytes or sixteen, including the dereference of a bare default route's destination |
| `Router.TrimAll` | router/v4.go:251-277 | in place: every range trimmed, or a crash exactly when some single address carries a bare default route |
| `Router.SmartV4Route` | router/v4.go:59-280 | the IPv4 splitter as a whole: exactly why it fails, exactly when it crashes, and the trimmed ends of every painted interval |
| `Trim.IsV4NetworkAddress` | utils/v4.go:243-253 | whether the address, in four bytes or sixteen, is some route's base address, or has a zero fourth byte while there is any route; in numbers: a multiple of 256, or some route's address |
| `Trim.NetworkIsNumeric` | utils/v4.go:243-253 | that equivalence, for every four-byte address and table |
| `Trim.IsV4BroadcastAddress` | utils/v4.go:262-275 | whether the address is the last one of some route shorter than /31; in numbers: the end of a block with at least two host bits |
| `Trim.BroadcastIsNumeric` | utils/v4.go:262-275 | that equivalence, for every four-byte address and table |
| `Trim.SingleHostMaskIs32` | utils/v4.go:255-260 | four bytes of 255 in the mask mean a prefix length of at least 32 |
| `Trim.TrimsNumerically` | router/v4.go:258-276 | every test of the post-processing in numbers: network, trimmed at the start, trimmed at the end, inverted |
| `Trim.TrimmedRange` | router/v4.go:264-276 | exactly which addresses are left of a range of two or more; it is never inverted |
| `Trim.TrimmedSingle` | router/v4.go:253-276 | exactly what is left of a single address, the inverted case included |
| `Trim.MappedSingle` | router/v4.go:253-263 | a single address in its sixteen-byte form crashes, is kept, or is dropped as a network address, by its route alone: no destination, a /32, or any other |
| `Trim.TrimmingShrinks` | router/v4.go:251-277 | post-processing only shrinks a range if and only if it is not the inverting case; then it removes at most the two ends, each a network or broadcast address in numbers |
| `Plan.PlanIsHits` | utils/v6.go:154-206 | enumerating a list of ranges names an address once for every range containing it, under that range's route |
| `Plan.TilesPlan` | utils/v6.go:154-206 | tiling ranges enumerate every address between their ends, ascending, without a gap |
| `Plan.PlanIsLookupExactlyWhenNothingLost` | router/v6.go:145-282 | splitting and enumerating names every address of n once, ascending, under its longest-prefix match, if and only if nothing is lost |
| `PlanV4.KeptInside` | router/v4.go:251-277 | exactly which addresses a trimmed range has: those of the range but a lone network address off a /32 route, a broadcast address at the end, and a network address at the start unless that empties a range of two; addresses ending in 255 stay |
| `PlanV4.KeptHits` | router/v4.go:251-277 | of tiling ranges, every address is left in its range and no other, or taken out exactly if it is cut there |
| `PlanV4.CutsAreOmitted` | router/v4.go:251-277 | where neighbouring ranges differ, the addresses cut are told from the lookup of the address and its neighbours |
| `PlanV4.OmittedAtEdge` | router/v4.go:258-276 | only network and broadcast addresses are omitted |
| `PlanV4.TrimmedPlanCovers` | router/v4.go:59-280 | the half of the exact law used to prove it: if no range is inverted, the IPv4 plan ascends strictly and has every address of n under its longest-prefix match but exactly the omitted ones |
| `PlanV4.CrashesExactly` | router/v4.go:252-254 | where nothing is lost, the splitter crashes if and only if some address of n is looked up to a bare default and each of its neighbours in n to another route |
| `PlanV4.CoversExactly` | router/v4.go:59-280 | where nothing is lost and no address crashes it: the IPv4 plan names every address under its longest-prefix match, once, ascending, but for exactly the omitted network and broadcast addresses, if and only if no address is alone in its lookup, a broadcast address not ending in 255, no network address, and off a /32 route |
| `EndToEnd.EnumerateRange` | utils/v6.go:118-209 | the enumerator over one marked range object emits exactly its interval, in chunks of at most 64 |
| `PlanV4.EnumerateTrimmed` | utils/v4.go:134-207 | the enumerator over one trimmed range object emits exactly what trimming left |
| `EndToEnd.RunSendsAt` | scanner/v6.go:404-791 | where in the whole run the frame for one planned address, probe and port is found, and which range sends it |
| `EndToEnd.RunSendsPlan` | scanner/v4.go:1432-1796 | ranges scanned one by one send one frame per planned address, probe and port, in that order and no more, under the address's route |
| `EndToEnd.LookupIsSent` | scanner/v6.go:404-791 | if the plan is the lookup, the frame for any address, probe and port is at its place, built for the looked-up route |
| `EndToEnd.LookupIsRead` | scanner/v6.go:404-791 | and a receiver reads of that frame the address itself, the route's configured source, the technique and the port |
| `EndToEnd.ScanRange` | scanner/v6.go:404-791 | one range enumerated and scanned puts exactly its frames on the wire and leaves nothing queued |
| `EndToEnd.ScanV6` | scanner/common.go:183-195 | from network and routing table to frames: it fails exactly for the stated reasons; all senders together submit exactly the plan; and for aligned routes without a clash the plan is every address of n once, ascending, under its longest-prefix match, if and only if nothing is lost; for a masked n, if and only if no route is harmful |
| `EndToEndV4.ScanTrimmed` | scanner/v4.go:1432-1796 | the trimmed ranges scanned one by one send exactly what trimming left |
| `EndToEndV4.ScanV4` | scanner/common.go:215-226 | the same for IPv4: what is sent is the plan; for aligned routes without a clash and with nothing lost it crashes if and only if some address crashes it, and otherwise the plan is every address but exactly the omitted ones under its longest-prefix match if and only if no address inverts its range |
| `EndToEnd.PingRange` | scanner/v6.go:831-956 | enumerating and pinging one range sends one echo request per address, ascending, each read as one for that address |
| `EndToEnd.RequestRange` | scanner/v4.go:1799-1894 | enumerating and requesting one range by ARP sends one request per address, each read as asking for that address, then the extra slots |
| `Checksum.Accumulate` | scanner/common.go:562-569 | the 32-bit accumulator loop holds the word sum modulo 2 to the 32, odd lengths padded |
| `Checksum.AccumulatorFits` | scanner/common.go:562-569 | no data of this length overflows the accumulator if and only if it has at most 131074 bytes |
| `Checksum.FoldClosedForm` | scanner/common.go:570-572 | folding carries in until they fit is reduction modulo 65535 with zero kept apart |
| `Checksum.ComputeChecksum` | scanner/common.go:562-574 | the loop terminates and returns the one's complement of the folded word sum |
| `Checksum.TwoFoldsSuffice` | scanner/v4.go:1956-1957 | two unconditional folds equal folding to the end for every 32-bit sum |
| `Checksum.HeaderChecksum` | scanner/v4.go:1951-1958 | the inlined ping checksum equals the general one on every 20-byte header |
| `Checksum.VerifiesExactly` | scanner/common.go:562-574 | which values, written into an empty even-offset field, make the data sum to zero |
| `Checksum.SumsToZeroExactly` | scanner/common.go:562-574 | without words or carries: data sums to zero if and only if the big-endian number it denotes, padded to whole words, is a positive multiple of 65535 |
| `Checksum.U16IsNumber` | scanner/v4.go:492-502 | a sixteen-bit field is written big-endian |
| `Checksum.ChecksumVerifies` | scanner/v6.go:897-903 | the computed checksum does, and 65535 in place of a zero checksum does too (section 2 of RFC 1071) |
| `Frames.ProbesValid` | constants/common.go:57-140 | the header templates of all techniques have an empty checksum field at an even offset and an even header before any payload |
| `Frames.SegmentVerifies` | scanner/v4.go:475-624 | pseudo-header, transport header and payload sum to zero for every host and port, odd payloads included (section 3.1 of RFC 9293, section 8.1 of RFC 8200) |
| `Frames.Ipv4HeaderVerifies` | scanner/v4.go:480-486 | every IPv4 header sums to zero (section 3.1 of RFC 791) |
| `Frames.IpHeaderFields` | scanner/v4.go:222-232 | every field of the built header is read back: version, length, flags, time to live or hop limit, protocol, source, destination |
| `Frames.PacketInjective` | scanner/v4.go:475-624 | different hosts or ports make different packets |
| `Reading.HeadersAreRead` | scanner/common.go:391-401 | a receiver reads by their offsets, of every frame, the hardware addresses, the type 0x0800 or 0x86DD, and every field of the IP header, whose IPv4 sum is zero |
| `Reading.SummedIsSent` | scanner/common.go:363-388 | the pseudo-header a receiver puts together from the frame's own IP header (addresses, zero, protocol, length) is the one the sender summed |
| `Reading.ProbeIsRead` | scanner/v4.go:475-624 | of every probe frame a receiver reads link and IP header, a segment that sums to zero behind that pseudo-header, the destination port, and the template and payload everywhere else |
| `Reading.ProbesAreRead` | constants/common.go:57-140 | the techniques in order: SYN alone, SYN with URG and the payload, UDP; each with the source port, its checksum offset and a true header or datagram length |
| `Batch.Sender.Store` | scanner/v4.go:492-502 | overwriting memory no queued message looks at leaves all queued messages saying what they said |
| `Batch.Sender.Queue` | scanner/v4.go:504-520 | a message refers to the given memory and means what is there now; the slot count goes up by one |
| `Batch.Sender.GatherIsMeant` | scanner/v4.go:650-893 | at any time, following a queued message's references gives exactly the frame intended when it was queued |
| `Batch.Sender.Flush` | scanner/v4.go:1618-1640 | what is gathered and submitted is the queued frames in order, and the batch is empty again |
| `Batching.FinishRun` | scanner/v4.go:1618-1790 | flushing at 64 and once at the end submits the consecutive batches of 64 of all frames, whatever was queued before |
| `Batching.ChunksKeepEverything` | scanner/v4.go:1540-1790 | those batches lose, repeat and reorder nothing; every one before the last has exactly 64 messages |
| `PortScan.BuildIp` | scanner/v4.go:480-486 | copying the template, the destination and the checksum leaves exactly the reference header in that part of the buffer |
| `PortScan.SumSegment` | scanner/v4.go:497-501 | the scratch buffer holds pseudo-header, header and payload, so the sum is theirs |
| `PortScan.BuildTransport` | scanner/v4.go:492-502 | the per-port header is rebuilt from the template, so the reference header results whatever an earlier host left in it |
| `PortScan.QueuePort` | scanner/v4.go:492-520 | one port: header built and its frame queued, while every message queued before stays intact |
| `PortScan.QueuePorts` | scanner/v4.go:488-522 | one technique: the frames of all ports queued in order, flushing at 64 where the general branch does |
| `HostScan.BuildLead` | scanner/v4.go:477-486 | Ethernet and IP headers rewritten for one host, behind a gateway or on the link |
| `HostScan.QueueProbe` | scanner/v4.go:475-522 | one technique for one host, with buffers that earlier hosts used |
| `HostScan.QueueHost` | scanner/v4.go:472-626 | all techniques for one host |
| `HostScan.ScanHost` | scanner/v4.go:1039-1421 | one host: a single batch below 64 frames, batches of 64 otherwise; nothing stays queued |
| `HostScan.ScanPorts` | scanner/v4.go:907-1429 | every host in turn: exactly these batches are on the wire, each frame as intended |
| `ScanLaws.FastPathIsGeneral` | scanner/v4.go:1039-1421 | the single-batch branch submits the batches of the general branch, for every host sequence, if and only if a host has at least one frame |
| `ScanLaws.AllSent` | scanner/v4.go:1039-1421 | all batches joined are every host, technique and port once, in order, and no batch exceeds 64 |
| `ScanLaws.FrameAt` | scanner/v4.go:475-624 | which frame stands at which place of a host's frames |
| `ScanLaws.FrameIsValid` | scanner/v4.go:475-624 | every frame as a receiver reads it: to the gateway's or the host's hardware address, to the host at the port, and summing to zero behind the pseudo-header read back from the frame itself |
| `ScanLaws.AllAreRead` | scanner/v4.go:1039-1421 | among all frames of all hosts, the one for any host, technique and port stands at its place and is read so |
| `ScanLaws.FramesDiffer` | scanner/v4.go:475-624 | frames of one technique for different hosts or ports differ |
| `RangeScan.FillHeaders` | scanner/v4.go:1554-1579 | each address fills its own part of the chunk's header buffers while earlier messages may still be queued |
| `RangeScan.QueueProbe` | scanner/v4.go:1581-1640 | fresh transport headers behind the address's header, one batch array running across addresses |
| `RangeScan.QueueAddress` | scanner/v4.go:1555-1765 | all techniques for one address |
| `RangeScan.ScanChunk` | scanner/v4.go:1540-1766 | one chunk with fresh header buffers |
| `RangeScan.ScanWithoutDiscovery` | scanner/v4.go:1432-1796 | the wire holds the batches of 64 of all frames of all addresses, across chunk borders, and nothing stays queued |
| `RangeScan.SubmittedOnce` | scanner/v4.go:1540-1790 | submitted frames are addresses times techniques times ports, each once, every batch before the last full |
| `RangeScan.RangeFrameAt` | scanner/v4.go:1540-1766 | which frame stands at which place |
| `Ping.Echo4Verifies` | constants/v4.go:80-90 | the constant IPv4 echo request carries a correct checksum |
| `Ping.Echo6Verifies` | scanner/v6.go:889-903 | the ICMPv6 message verifies against its pseudo-header and its checksum is never sent as zero |
| `Ping.PingIsRead` | scanner/v4.go:1934-1958 | of every echo request a receiver reads protocol 1 or next header 58, source, destination and length, type 8 or 128 with code 0, and a sum of zero, for IPv6 behind the pseudo-header read back from the frame |
| `Ping.PingsDiffer` | scanner/v6.go:862-903 | different targets get different requests |
| `Ping.BuildPingIp` | scanner/v4.go:1944-1958 | the header of one address in the chunk buffer, with the two-fold checksum |
| `Ping.BuildEcho` | scanner/v6.go:889-903 | the ICMPv6 message of one address in the chunk buffer |
| `Ping.QueuePing` | scanner/v6.go:881-925 | one address: its message refers to its own part of the chunk buffers |
| `Ping.PingChunk` | scanner/v4.go:1938-2007 | one chunk is one batch with one echo request per address |
| `Ping.ScanPing` | scanner/v4.go:1899-2014 | the wire holds one batch per chunk, and a receiver of each batch reads echo requests for exactly the chunk's addresses, in order |
| `Ping.PingedOnce` | scanner/v6.go:831-956 | joined, the batches are one echo request per enumerated address, in order, each read as one for that address |
| `Arp.ArpSender.Place` | scanner/v4.go:1841-1864 | one address is written into bytes 16 to 20 of its slot's body, and the other slots keep saying what they said |
| `Arp.ArpSender.CopiedIsSlot` | scanner/v4.go:1845-1863 | following a slot's references gives a request read as asking for the address last placed there, or nothing |
| `Arp.ArpSender.Submit` | scanner/v4.go:1877-1882 | all 64 slots are submitted |
| `Arp.ArpIsRead` | scanner/v4.go:235-245 | of every request a receiver reads a broadcast of type 0x0806 with operation 1, the sender's two addresses, and in bytes 38 to 42 the address asked for; 64 bytes in all |
| `Arp.ArpsDiffer` | scanner/v4.go:1843-1843 | different addresses are asked for in different frames |
| `Arp.ScanArp` | scanner/v4.go:1799-1887 | the wire holds one batch of 64 slots per chunk, later chunks overwriting the first slots of earlier ones |
| `Arp.ArpSubmits` | scanner/v4.go:1840-1887 | every address is requested once, in order, in a frame read as asking for it, followed by exactly the slots the last chunk left over |
| `Arp.OneRequestEach` | scanner/v4.go:1877-1882 | exactly one message per address if and only if the last chunk is full or there is none |
| `Ports.Expand` | rule/rule.go:18-26 | the half-open range: the upper bound is not a port of the range |
| `Ports.Sort` | scanner/common.go:301-302 | ascending, a permutation |
| `Ports.Compact` | scanner/common.go:303-303 | strictly ascending with the same members |
| `Ports.BuildPorts` | scanner/common.go:286-309 | every wanted port once, ascending unless shuffled, or the first invalid range; an error if and only if some range is invalid |
| `ProtocolSafety.DiscoveryIsSafe` | scanner/common.go:403-529 | no step of prober or host interceptor sends on or closes a closed channel or leaves the wait group too often |
| `ProtocolSafety.PortIsSafe` | scanner/v4.go:25-126 | nor does any step of port scanner or port interceptor |
| `ProtocolSafety.DiscoveryKeeps` | scanner/v4.go:1899-2014 | discovery steps keep the range invariant: interceptor listening while probes leave, deferred calls in order, wait group equal to the goroutines left, hosts reported and handed on in order |
| `ProtocolSafety.PacketKept` | scanner/common.go:470-529 | packets are taken in order, and what has been reported, with the host about to be, is exactly the senders of replies from inside the range among the packets taken |
| `ProtocolSafety.PortKeeps` | scanner/v4.go:907-1429 | port-scan steps keep it: hosts scanned in the order handed on, the scanner ending only on a closed and drained channel |
| `ProtocolSafety.AnswersKept` | scanner/v4.go:60-126 | port packets are taken in order, and the ports found, with the one about to be reported, are exactly those the packets taken tell open: UDP segments, and TCP segments with SYN and ACK but not RST |
| `ProtocolSafety.NextKeeps` | scanner/common.go:183-243 | every step of the whole scan keeps the global invariant: findings sent are those read plus those buffered, and closed only when every range has returned |
| `ProtocolRuns.EveryStepIsSafe` | scanner/v4.go:1899-2067 | in every run: probes leave only while their interceptor listens, a scanned host is in the range and was reported before, ports are done only after every reported host was scanned, findings are closed only when nobody can send, nothing panics |
| `ProtocolRuns.FindingsAreTold` | scanner/v4.go:60-126 | at any time the hosts and ports sent for a range, with those about to be sent, are exactly what its packets so far tell, in order |
| `ProtocolRuns.Progress` | scanner/v4.go:2017-2067 | with a reader, some step other than a packet's arrival is possible in every reachable state until all is over |
| `ProtocolRuns.EveryActionDecreases` | scanner/v4.go:2017-2067 | every step uses up part of a measure over remaining chunks, packets, queued hosts and goroutine phases |
| `ProtocolRuns.EveryRunEnds` | scanner/common.go:238-243 | every run has a bounded number of steps; one that cannot go on has drained all wait groups, scanned every reported host and delivered every finding in order: for every range the hosts that replied from inside it and the open ports its packets told, each once for each packet |
| `ProtocolFrames.WireIsRecord` | scanner/v4.go:1899-2014 | in every run and at every step, the wire of a range's prober holds the first batches of its enumeration, and that of its port scanner the batches of exactly the hosts scanned, in order, or without discovery the frames of the chunks swept |
| `ProtocolFrames.CompleteRunSends` | scanner/v4.go:2017-2067 | a complete run has put out every probe batch of every range and the port frames of exactly the hosts delivered, in order; without discovery those of every address; nothing stays queued |
| `ProtocolFrames.DeliveredReplied` | scanner/common.go:470-529 | the hosts delivered are the senders of the replies accepted so far, once for each reply, in order |
| `ProtocolFrames.ScannedWasProbed` | scanner/v4.go:1899-2067 | in a complete run every scanned host replied, is an address its range's enumerator emitted, and was asked: some frame on the prober's wire is read as an echo or ARP request for that very address, or is the multicast request |
| `ProtocolFrames.DeliveredIsScanned` | scanner/v4.go:907-1429 | in a complete run, for every delivered host, technique and port, the frame at its place on the port scanner's wire is read as that probe of that host's port |
| `ProtocolFrames.AddressIsScanned` | scanner/v4.go:1432-1796 | without discovery, the same of every address the enumerator sent |
| `Stream.StepKeeps` | scanner/common.go:238-283 | every step of producers, closer, forwarder, collector and caller keeps the stream invariant |
| `Stream.OutputIsPrefix` | scanner/common.go:257-267 | in every interleaving the output is a prefix of the findings sent, in order, closed at most once and then final |
| `Stream.WaitReportsFirstError` | scanner/common.go:269-282 | once both goroutines have returned the output is closed once and Wait reports an error if and only if a non-nil one was sent, and then the first of them, never the context's; without one every range has returned and the output is all findings |
| `Stream.WaitReturns` | scanner/common.go:238-283 | as no error sent is nil, every run that cannot go on has ended, however scheduled, if and only if all ranges return and send at most five errors in all |
| `Stream.NilErrorsEnd` | scanner/common.go:269-276 | if all errors sent are nil and every range returns, a run that cannot go on has ended, however many there are |
| `Stream.RunsAreBounded` | scanner/common.go:238-283 | every run is bounded by the number of messages |
| `Stream.SixFailuresHang` | scanner/v4.go:2023-2040 | six ranges that each fail on the gateway's hardware address can make Wait hang |
| `Stream.OneFailureHangs` | scanner/v4.go:1986-1989 | so can a single range that returns early and leaves the goroutine it was to meet waiting |

## Left out

- Source address selection and interface lookup (router/v6.go:87-143): parameters, as said above.
- Masks with holes and IPv4-mapped IPv6 networks: networks are an address and a prefix length.
- Router.SmartV4Route: takes n's address in four bytes. Of a single address in sixteen, what post-processing leaves is in Trim.MappedSingle; comparing its start byte by byte with a shorter route at the same address is not modelled.
- `SimpleV4Route`, `SimpleV6Route`, hardware address lookup, local-port listing, rule parsing, printing, DNS and completion.
- Sockets, `sendmmsg`, packet capture, filter compilation and neighbour tables: submitting a batch appends what the kernel gathers to a log, and the kernel is taken to accept the whole batch.
- Service names and the other labels of a finding: the model's findings are a host's two addresses, or an open port's address, number and protocol.
- Rate limiters: waiting for tokens changes nothing in what is sent; a burst below the batch size, which makes the wait fail, is an error return.
- Error returns of the goroutines and interceptors: they skip rendezvous, so the protocol laws are about error-free runs. The stream has them, as errors sent and as ranges that do not return.
- Stream.WaitReturns: exact for errors that are not nil, as all the code sends are; with nil errors it only says that draining is enough.
- Timeouts and the random choice of source ports: `EndToEnd.ScanV6` and `EndToEndV4.ScanV4` take the configuration of each range as a parameter, gateway address included, and scan the ranges one after the other, each with a sender of its own.
- Transport headers: one array of headers per technique in the source is one array per port in the model.
- The wait of `scanV6OverGateway` and `scanV6PointToPoint`, which call the port scanner instead of starting it: in the protocol the scanner is a goroutine everywhere, and the waiting function returns when the group is empty.
- Batches inside a step: in `ProtocolFrames` one step submits a whole probe batch, all batches of one host, or the frames of one chunk.
- Multicast neighbour discovery: its one request is built by a library and a parameter of `ProtocolFrames`.
- `sort.Slice` and `slices.Sort`: insertion sorts stand for them; for routes with equal addresses every order is allowed.
- A checksum of zero in a UDP header: the code sends it as it is for both families, and so does the model.
- Routes.LookupIsLastWriter: one direction, for tables without routes at the address ends; the exact form is RouteLosses.ExactlyWhenNothingLost.
- Routes.RepaintingIsLongestPrefixMatch: the same direction, kept for its bound on the number of ranges.
- RouteTies.EveryOrderMatches: leaves out the whole address space with a harmful route, where RouteEdges.HarmBreaks applies, or with different routes from address zero, where RouteTies.ClashBreaks does.
- Openings.OpensExactly: for a masked n and a table without a clash; for any table Router.Split says which interface stands in the way, in terms of the ranges painted so far.
- PlanV4.TrimmedPlanCovers: one direction; PlanV4.CoversExactly has both.
- Enumeration with shuffling: the end-to-end laws are about the unshuffled order; shuffled chunks are permutations of the same slices by Enumerator.IPv6RangeBytesChunks, and ProtocolFrames allows any such chunks.
