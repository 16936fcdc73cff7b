# Firewall verification

A Dafny model of an identity-aware eBPF firewall: a policy compiler, an agent that swaps compiled
policies into kernel maps generation by generation, an XDP program that reads the generation once and
then makes three lookups, a TC program that tracks TCP connections, and the small services around
them. `dafny verify dfyconfig.toml` checks the whole project.

## The system as modelled

*Policies* (`text.dfy`, `policy.dfy`, `meaning.dfy`, `verdicts.dfy`, `applicable.dfy`). `Validate` and `Compile` are
methods proved against declarative predicates. The compiled lists are staged into three generation-keyed
maps; `meaning.dfy` works out what ends up there, and `verdicts.dfy` states the verdict of every packet
over the source rules alone. `applicable.dfy` says, also over the source rules, which policies can be
applied at all.

*Kernel maps* (`kernel.dfy`, `lpm.dfy`, `xdp.dfy`). The three maps are one finite map from
`Slot(generation, item)` to entries, with 1024 entries for each of the three kinds of item. The trie
match is defined on the bytes of the key, on a little-endian machine, and proved to be containment.

*The swap* (`folds.dfy`, `swap.dfy`, `flights.dfy`, `runs.dfy`, `trace.dfy`, `limits.dfy`, `loader.dfy`,
`reloads.dfy`, `served.dfy`, `twoswappers.dfy`). An apply is a sequence of single puts, deletes and one cell write. A packet is four
separate steps: the read of the generation cell and up to three lookups. A run is any sequence of such
steps. `MapSwapper.ApplyPolicyAtomic` is an imperative method over a mutable loader, and its log of
effective writes is proved to be the write trace of a run of this machine, so what is proved about all
runs holds of it. `reloads.dfy` joins the two halves: concurrent reloads, judged by source rules.
`served.dfy` carries this to the log a control server leaves behind, with packets interleaved anywhere.

*Connections* (`conntrack.dfy`, `conntrack_runs.dfy`). The flow table with two entries per connection is
compared with one session per connection, whose state is simply the list of packets it accepted.

*Programs and services* (`programs.dfy`, `events.dfy`, `control.dfy`, `lists.dfy`, `caps.dfy`, `audit.dfy`). The packet
programs with their counters and events, the control server with its roles, capability bits, and the
bounded audit history.

*Laws written out.* Where a specification and the code it specifies share a definition, a law pins that
definition to literal values: packets with their fields, keys with their four parts, flags, protocol and
reason numbers, IDs, words and bits. Their names end in `SpelledOut` or say what the values are.

## Assumptions

- Deletions succeed, iteration over a map is complete, and the generation lookup succeeds. Any put, and
  the write of the generation cell, may fail at any point (`fails`); a failed write has no effect.
- A put on an existing key of a full map succeeds.
- There is one swapper, except in `twoswappers.dfy`. The lock at `pkg/compiler/atomic_swap.go:29` belongs
  to one instance, and the agent creates a second one at `cmd/firewall-agent/main.go:98`.
- One TC packet, and one whole XDP packet outside `flights.dfy`, is an atomic step.
- Parsing of YAML and of CIDR text, resolution of cgroup paths, peer credentials, clocks and the text
  rendering of events are function parameters or inputs.
- Text is lower-cased where the result can be an ASCII letter; no comparison against ASCII text can tell
  the difference from full Unicode folding.

## Findings

- The repository promises reloads without drops, and that holds: `ZeroDropReload`, `DroppedOnlyByRules`.
  The opposite direction does not. The purge of the old generation can overtake a packet that has read
  it, and then a packet that the old and the new policy both drop is passed (`PurgeOvertakesPacket`).
  While its generation number is not reused, a verdict is safe from concurrent applies if and only if it
  is to pass (`VerdictSafeIffPass`).
- The bound of 2^32 applies on the zero-drop guarantee is tight (`GenerationReuseDrops`).
- CIDR and cgroup entries block whatever the action of their rule, and the default action is never read
  by the data plane. `HonouredExactlyUnless` says exactly which packets are misjudged and which way:
  sources that only allow rules list are dropped (`AllowRuleBlocks`, under either default), and packets
  that no rule lists pass under default deny (`DefaultDenyPasses`). `BlockListsHonoured` names policies
  that are honoured throughout.
- The agent starts the control server before it applies its startup policy with a swapper of its own.
  Such overlapping applies are safe if the second reads the generation after the first has flipped it
  (`OverlapAfterFlip`). If both read the same generation, every interleaving in which both succeed
  advances it only once (`OverlapLosesOne`), a mixture of both policies can be published
  (`MixedImagePublished`), though it drops only what one of them drops (`MixtureDropsOnlyIf`), and one
  policy can be erased after it was published and reported (`PublishedThenErased`).
- A rule with neither sources nor ports, such as one that only denies a protocol, is accepted and then
  lost: it changes nothing that is published (`BareRuleIsLost`, `ProtocolDenyPasses`). The written
  reading above is about sources and ports, so it is silent about such rules.
- Validation accepts IPv6 text and IPv4-mapped prefixes that staging then refuses, so such a policy
  passes validation and is rolled back (`AcceptedThenRolledBack`). `WouldApplyExactly` gives the exact
  condition over the source rules for a policy to be applied.
- A port rule for ICMP changes no decision, because only TCP and UDP packets have a port
  (`UnmatchableIsInert`); exactly the entries for TCP or UDP with a nonzero port can drop a packet
  (`MatchableExactly`).
- Permission is checked without regard to case, but the command is dispatched by exact match, so an
  admin's `APPLY_POLICY` is permitted and then answered as unknown (`ShoutedApplyUnknown`). A permitted
  command is known if and only if it is in lower case (`DispatchedIffLower`).
- `AddOperatorUID` turns an admin by group into an operator (`AddOperatorUid`).
- A pure SYN that also carries FIN or RST opens a closed session and closes an open one
  (`OpenByHistory`).
- When the second reading of the capabilities fails, `EnsureMinimalCapabilities` returns the report from
  before the drop.

## Model

| member | source | states |
|---|---|---|
| `Policies.Validate` | pkg/compiler/compiler.go:41-94 | returns no error iff the policy is accepted: header, default action, nonzero unique IDs, actions, addresses, ports, protocols; an error names the first offending rule and a real fault of it |
| `Policies.ValidateRule` | pkg/compiler/compiler.go:64-90 | one rule passes iff its fields are well formed; otherwise the field blamed is a faulty one |
| `Policies.ValidateRules` | pkg/compiler/compiler.go:54-91 | the rule loop accepts iff all rules are well formed with pairwise different IDs, and blames the first rule that is not |
| `Policies.Compile` | pkg/compiler/compiler.go:97-149 | succeeds iff the policy is accepted, and yields the expansion of its rules in declaration order |
| `Policies.CompileRule` | pkg/compiler/compiler.go:113-145 | the loops produce a rule's CIDRs, cgroups and port-protocol product |
| `Policies.CompilePorts` | pkg/compiler/compiler.go:131-145 | the nested loops produce one port rule for each port and protocol, TCP and UDP where none is given |
| `Policies.AcceptedSpelledOut` | pkg/compiler/compiler.go:41-94 | acceptance iff every literal condition holds: versions, the words for actions and protocols, nonzero IDs and ports, parseable texts, pairwise different IDs |
| `Policies.CompiledCidrsAre` | pkg/compiler/compiler.go:115-121 | a compiled CIDR is one of some rule's texts with that rule's ID and normalised action, and all of those are compiled |
| `Policies.CompiledCgroupsAre` | pkg/compiler/compiler.go:123-129 | the same for cgroup paths |
| `Policies.CompiledPortsAre` | pkg/compiler/compiler.go:131-145 | a compiled port rule is one of some rule's ports with one of its protocols, or with tcp or udp where it names none, and all of those are compiled |
| `Policies.CompiledDefault` | pkg/compiler/compiler.go:102-110 | the compiled default action is deny iff the policy's is, and allow where it gives none |
| `Text.NormalizeSplits` | pkg/compiler/compiler.go:49-64 | normalising strips white space from both ends and lower-cases the rest character by character |
| `Text.AsciiSpelledOut` | pkg/compiler/compiler.go:49-64 | which ASCII characters are white space, and what lower-casing does to each |
| `Text.WordsRecognised` | pkg/compiler/compiler.go:49-86 | keywords are recognised in any case and with white space around them |
| `Lpm.OctetNetworks` | pkg/bpf/loader.go:249-256 | networks of 0, 8, 16, 24 and 32 bits contain exactly the addresses that begin with their octets |
| `Lpm.WordRoundTrip` | pkg/bpf/loader.go:249-256 | a little-endian word of the address bytes lies in memory in network order |
| `Lpm.ContainsIsPrefix` | pkg/bpf/loader.go:249-256 | an address lies in the block of 2^(32-p) addresses of a network iff it agrees with it on the first p bits |
| `Lpm.TrieMatchIsContainment` | bpf/xdp_firewall.c:150-157 | the first 32+p bits of stored and lookup key agree iff the generations are equal and the network contains the address |
| `Lpm.SameLengthSameNet` | bpf/headers/common.h:29-34 | networks of one length that share an address are equal, so a longest match is unique |
| `Xdp.TrieLookupIsLongest` | bpf/xdp_firewall.c:150-157 | the trie's answer over all generations is the longest network listed in the packet's generation that contains the source (section 5.1 of RFC 4632); no answer iff none does |
| `Xdp.LongestUnique` | bpf/xdp_firewall.c:157 | there is one longest match |
| `Xdp.DropIsMonotone` | bpf/xdp_firewall.c:116-248 | a lookup that drops with part of a rule image drops with the whole image |
| `Xdp.PartExplained` | bpf/xdp_firewall.c:116-216 | what a lookup answers from part of an image names an entry of the whole image that applies to the packet |
| `Xdp.UnmatchableIsInert` | bpf/xdp_firewall.c:96-112 | a port entry for port 0, or for any protocol but TCP and UDP, changes no decision on any packet |
| `Xdp.MatchableExactly` | bpf/xdp_firewall.c:96-192 | a port entry can drop some packet iff its port is nonzero and its protocol TCP or UDP |
| `Xdp.PortsSpelledOut` | bpf/xdp_firewall.c:96-112 | source and destination port are the first and second of the transport header for protocols 6 and 17, and 0 otherwise |
| `Xdp.DenyEntryDrops` | bpf/xdp_firewall.c:183-217 | an entry with action 2 drops exactly the packets of its protocol, 6 or 17, to its nonzero destination port; one with action 1 drops none |
| `Xdp.DecisionSpelledOut` | bpf/xdp_firewall.c:116-248 | reason 4 iff a nonzero cgroup is listed, else reason 1 iff a network contains the source, else reason 2 iff the port entry denies |
| `RuleMaps.ImageConcat` | pkg/bpf/loader.go:258-318 | later writes to a key replace earlier ones |
| `Loader.FirewallLoader.SetActiveGeneration` | pkg/bpf/loader.go:219-228 | the cell takes the value or, on failure, nothing changes |
| `Loader.FirewallLoader.StageCidrRule` | pkg/bpf/loader.go:231-262 | refused text changes nothing; otherwise the entry is put iff there is room and the write works; the action is not stored |
| `Loader.FirewallLoader.StageCgroupRule` | pkg/bpf/loader.go:265-284 | the same for a resolved cgroup path |
| `Loader.FirewallLoader.StagePortRule` | pkg/bpf/loader.go:287-322 | the same for a port, protocol and action |
| `Loader.FirewallLoader.ClearTable` | pkg/bpf/loader.go:329-341 | collecting then deleting removes exactly the entries of that table and generation, one delete each |
| `Loader.FirewallLoader.ClearGenerationRules` | pkg/bpf/loader.go:325-371 | exactly the entries of that generation are removed from all three tables |
| `Loader.MapSwapper.StagePolicy` | pkg/compiler/atomic_swap.go:42-64 | the three loops stage everything, or stop at the first item that is refused, finds no room or fails, with exactly the earlier ones staged |
| `Loader.MapSwapper.StageAndFlip` | pkg/compiler/atomic_swap.go:42-70 | the cell is written iff everything was staged and no write failed |
| `Loader.MapSwapper.ApplyPolicyAtomic` | pkg/compiler/atomic_swap.go:28-76 | exactly when it succeeds; its writes, in order, are those of a run of the protocol; that run starts this one apply; success leaves exactly the new image under the next generation, failure leaves cell and maps as they were |
| `SwapProtocol.StepInv` | pkg/compiler/atomic_swap.go:37-75 | every step keeps the protocol invariant: the published generation is complete, only three generations hold entries, the next holds what was staged, the previous part of what was published, no map overflows |
| `SwapProtocol.RunInv` | pkg/compiler/atomic_swap.go:37-75 | so does every run |
| `SwapProtocol.EpochAdvances` | pkg/compiler/atomic_swap.go:37 | generation numbers count successes, across wrap-around |
| `Flights.SlotHolds` | pkg/compiler/atomic_swap.go:66-73 | until its number is reused a published generation only shrinks, and is whole until its purge begins |
| `Flights.StepKeeps` | bpf/xdp_firewall.c:89-248 | every control or packet step keeps the invariant of all packets in flight |
| `Flights.RunKeeps` | bpf/xdp_firewall.c:89-248 | so does every interleaving |
| `Flights.ZeroDropReload` | README.md:37 | in every interleaving with fewer than 2^32 applies, a packet is dropped only if the complete policy it read drops it, even mid-purge, and the drop names an entry of that policy that applies to the packet |
| `Flights.ExactBeforePurge` | pkg/compiler/atomic_swap.go:39-73 | a packet whose lookups precede the purge of its generation gets the full decision of the policy it read, rule and reason included |
| `Flights.ExactWithoutPurge` | pkg/compiler/atomic_swap.go:66-73 | if no purge starts between a packet's read of the cell and its last lookup, it gets the decision of what the maps held at that read, whatever else is staged, flipped, failed or rolled back meanwhile |
| `Flights.LinearisedAtRead` | bpf/xdp_firewall.c:89-94 | the policy a packet is judged by is what the maps held in full when it read the cell |
| `Flights.FlightIdentity` | bpf/xdp_firewall.c:89-94 | no later step changes which packet and which policy a flight is about, nor the policies already published |
| `SwapRuns.IdleIsExact` | pkg/compiler/atomic_swap.go:72-75 | between applies the maps hold the last published image and nothing else |
| `SwapRuns.HistoryIndependence` | pkg/compiler/atomic_swap.go:32-75 | after any run of applies from empty maps, the maps are the image of the last success with no stale entry, and the generation is the number of successes modulo 2^32 |
| `SwapRuns.FailedApplyInvisible` | pkg/compiler/atomic_swap.go:42-70 | as long as no apply succeeds, at every intermediate step of staging, failing and rolling back, cell and decisions are unchanged; at rest the maps are too |
| `SwapTrace.FailureReaches` | pkg/compiler/atomic_swap.go:42-70 | some puts followed by removals of the next generation are the trace of a protocol run that ends at rest |
| `SwapTrace.SuccessReaches` | pkg/compiler/atomic_swap.go:42-75 | all puts, the cell write and the removals of the old generation are the trace of a protocol run that publishes the image |
| `SwapTrace.ApplyRun` | pkg/compiler/atomic_swap.go:28-76 | from rest, every list of writes that fits can be published by some run |
| `SwapLimits.FitsExactly` | bpf/xdp_firewall.c:24-47 | an apply finds room iff old and new distinct keys together number at most 1024 in each map |
| `SwapLimits.RoomSpelledOut` | bpf/xdp_firewall.c:24-47 | room means at most 1024 networks, 1024 cgroups and 1024 port rules of both policies together |
| `SwapLimits.ReplaceForever` | bpf/xdp_firewall.c:24-47 | policies of at most 512 distinct keys per map can replace one another in any number |
| `SwapLimits.PurgeOvertakesPacket` | pkg/compiler/atomic_swap.go:72-73 | for every packet and every policy that fits, some interleaving passes the packet whatever the policies say |
| `SwapLimits.VerdictSafeIffPass` | pkg/compiler/atomic_swap.go:72-73 | all interleavings in which the packet's generation number is not reused keep the active policy's verdict on it iff that verdict is to pass |
| `SwapLimits.GenerationReuseDrops` | pkg/compiler/atomic_swap.go:37-40 | with exactly 2^32 applies begun, a packet that read the empty policy can be dropped |
| `Meaning.ListsPortSpelledOut` | pkg/compiler/compiler.go:131-145 | a rule lists a port for protocols 6 and 17 if it names none, else for those whose words, tcp, udp or icmp, it names |
| `Meaning.RuleImage` | pkg/bpf/loader.go:231-322 | in each table, the writes of one rule leave exactly the items it lists |
| `Meaning.TableImage` | pkg/compiler/compiler.go:112-146 | in each table, an item is present iff some rule lists it, as the last such rule wrote it |
| `Meaning.PolicyImageMeans` | pkg/compiler/compiler.go:97-149 | the same of the whole published image |
| `Verdicts.PortZeroUnlisted` | pkg/compiler/compiler.go:79-83 | no accepted rule lists port 0, so the guard on the destination port loses nothing |
| `Verdicts.PortMeans` | bpf/xdp_firewall.c:183-242 | the port lookup answers as the last rule listing port and protocol says |
| `Verdicts.CgroupMeans` | bpf/xdp_firewall.c:116-148 | the cgroup lookup hits iff the packet has a cgroup that some rule lists |
| `Verdicts.CidrMeans` | bpf/xdp_firewall.c:150-181 | the trie lookup hits iff some rule lists a network containing the source |
| `Verdicts.MeaningPreserved` | bpf/xdp_firewall.c:116-248 | for every accepted policy and packet: dropped iff a rule lists its nonzero cgroup, or a network containing its source, or the last rule listing its port and protocol denies |
| `Verdicts.PortVerdictSpelledOut` | bpf/xdp_firewall.c:96-248 | a packet no rule lists by source is dropped iff the last rule listing its destination port and protocol denies; without TCP or UDP ports it passes |
| `Verdicts.DecisionByRules` | bpf/xdp_firewall.c:116-248 | by the source rules: which packets are dropped for which reason number, and which passes are audited with which rule |
| `Verdicts.DenyPortPolicy` | pkg/compiler/compiler.go:131-145 | a policy that denies one port and names no protocol drops exactly the TCP and UDP packets to that destination port |
| `Verdicts.DropNamesItsRule` | bpf/xdp_firewall.c:123-216 | every drop carries a nonzero ID naming exactly one rule, the last to list the cgroup, the longest containing network, or the port and protocol with deny |
| `Verdicts.ExplainedNamesRule` | bpf/xdp_firewall.c:123-216 | a drop answered from any part of a published policy carries a nonzero ID naming exactly one rule, the last to list the cgroup, some network containing the source, or the port and protocol with deny |
| `Verdicts.HonouredExactlyUnless` | pkg/bpf/loader.go:231-284 | the policy read as written (deny rules drop, the default decides about packets no rule lists) is honoured for a packet iff the packet is outside two families: sources only allow rules list on a port none denies, which are all dropped, and packets no rule lists under default deny, which all pass |
| `Verdicts.BlockListsHonoured` | pkg/compiler/compiler.go:102-110 | with default allow and deny on every rule that lists sources, all packets are judged as written |
| `Verdicts.AllowRuleBlocks` | pkg/bpf/loader.go:231-262 | under either default, an accepted policy that only allows a network drops all packets of it |
| `Verdicts.BareRuleIsLost` | pkg/compiler/compiler.go:112-146 | a rule with neither sources nor ports can be left out of a policy without changing its image |
| `Verdicts.ProtocolDenyPasses` | pkg/compiler/compiler.go:85-90 | an accepted policy that only denies a protocol passes every packet |
| `Verdicts.DefaultDenyPasses` | pkg/compiler/compiler.go:102-110 | an accepted policy of default deny without rules passes every packet |
| `Applicability.RuleStageable` | pkg/bpf/loader.go:231-322 | no staging call of a rule is refused in a table iff its address texts are IPv4 networks, or its paths resolve |
| `Applicability.PolicyStageable` | pkg/compiler/atomic_swap.go:42-64 | no staging call of a policy is refused iff all address texts and cgroup paths of its rules can be staged |
| `Applicability.AppliedExactly` | pkg/compiler/atomic_swap.go:28-76 | a policy can be applied over the one in force iff its rules are stageable, each map has room for the distinct keys of both, and no write fails |
| `Applicability.ItemsCounted` | pkg/control/server.go:214 | the number of items is the sum over the rules of texts, paths, and ports times protocols, two where none is named |
| `Applicability.AcceptedUnstageable` | pkg/compiler/compiler.go:69-77 | a policy whose only text cannot be staged is accepted by validation |
| `Reloads.RunPublishable` | pkg/compiler/atomic_swap.go:28-76 | everything published in a run was begun in it |
| `Reloads.DroppedOnlyByRules` | README.md:37 | in every interleaving of packets with fewer than 2^32 reloads of accepted policies, a dropped packet is dropped by the source rules of the policy it read, and the drop names one rule of that policy that lists something about the packet, even mid-purge |
| `Reloads.JudgedByRules` | bpf/xdp_firewall.c:89-248 | and dropped exactly if they say so, when its lookups came before the purge |
| `Served.StartsAreBegins` | pkg/compiler/atomic_swap.go:28-76 | the applies started in a run's trace are those begun in the run |
| `Served.PacketsInBetween` | bpf/xdp_firewall.c:89-248 | packets interleaved with a run change neither the maps it reaches nor what it begins |
| `Served.ServedTraffic` | pkg/control/server.go:192-221 | the log of a server asked for fewer than 2^32 policies is the trace of a protocol run, and however packets are interleaved with that run, every drop is due to the source rules of a submitted policy and names one of them |
| `TwoSwappers.AppliedAlone` | pkg/compiler/atomic_swap.go:37-75 | the loader calls of one undisturbed apply leave exactly its image under the next generation |
| `TwoSwappers.OverlapAfterFlip` | pkg/compiler/atomic_swap.go:66-75 | a second apply that reads the cell after the first one's flip ends, in every interleaving with the first one's purge, as if they had run one after the other |
| `TwoSwappers.OverlapLosesOne` | cmd/firewall-agent/main.go:98-99 | in every interleaving of two applies that read the same generation it advances by one |
| `TwoSwappers.MixedImagePublished` | cmd/firewall-agent/main.go:98-99 | some such interleaving publishes exactly the two images laid over each other |
| `TwoSwappers.MixtureDropsOnlyIf` | bpf/xdp_firewall.c:116-248 | a mixture of two images drops only packets that one of them drops |
| `TwoSwappers.PublishedThenErased` | pkg/compiler/atomic_swap.go:39-40 | some such interleaving erases a policy that was published and reported, so that every packet passes |
| `Conntrack.OtherConnection` | bpf/tc_firewall.c:75-99 | a packet leaves the entries of other connections alone |
| `Conntrack.SameConnection` | bpf/tc_firewall.c:103-168 | a packet moves both entries of its connection as the session moves |
| `Conntrack.TableIsSessions` | bpf/tc_firewall.c:75-174 | after every packet history an entry is present iff its session is open, and state, counters and time are those the session's packets determine |
| `ConntrackRuns.VerdictIsSession` | bpf/tc_firewall.c:95-147 | a packet is accepted iff its session is open or it is a pure SYN |
| `ConntrackRuns.DirectionsMirrored` | bpf/tc_firewall.c:107-116 | keys come in mirrored pairs with equal states |
| `ConntrackRuns.CountersConserved` | bpf/tc_firewall.c:107-168 | the two packet counters sum to the session's packets plus one, the two byte counters to its bytes plus the opening SYN's, modulo 2^64; where both keys are one, the single entry counts the session's packets and bytes |
| `ConntrackRuns.OpenByHistory` | bpf/tc_firewall.c:103-168 | whether a session is open, by packet flags alone: the last packet that is only a pure SYN or only a FIN or RST decides, and every later packet that is both turns the answer around |
| `ConntrackRuns.OpenIffSynUnfinished` | bpf/tc_firewall.c:103-168 | for connections without packets that are both, a session is open iff some pure SYN was followed by no FIN or RST |
| `ConntrackRuns.StatesAgree` | bpf/tc_firewall.c:150-159 | under any evictions, two present directions are in the same state |
| `ConntrackRuns.EstablishedStays` | bpf/tc_firewall.c:150-168 | a live entry never leaves ESTABLISHED |
| `ConntrackRuns.AcceptedOnlyAfterSyn` | bpf/tc_firewall.c:95-168 | under any evictions, a packet that is not a pure SYN is accepted only after a pure SYN of its connection with no FIN or RST since |
| `ConntrackRuns.LifeOf` | bpf/tc_firewall.c:95-168 | under any evictions, what is live of a connection was created by a pure SYN that found none of it, has been live and without FIN or RST since, and every present direction is ESTABLISHED if an ACK came since that SYN, else SYN_SENT |
| `ConntrackRuns.EstablishedMeansAcknowledged` | bpf/tc_firewall.c:149-159 | only SYN_SENT and ESTABLISHED are stored, and an entry is ESTABLISHED iff an ACK came after the SYN that created what is present of its connection |
| `ConntrackRuns.ConnectionSpelledOut` | bpf/tc_firewall.c:75-93 | a connection is one key and the key with both addresses and both ports exchanged |
| `ConntrackRuns.UntrackedStep` | bpf/tc_firewall.c:103-147 | an untracked packet is accepted iff SYN is set and ACK is not, and then both keys are stored in state 1 with one packet and its bytes |
| `ConntrackRuns.TrackedStep` | bpf/tc_firewall.c:149-168 | a tracked packet is accepted; FIN or RST removes both keys, anything else is counted once and an ACK turns state 1 into 3 |
| `ConntrackRuns.BothWaysAccepted` | bpf/tc_firewall.c:95-168 | after a SYN from a:x to b:y with no FIN or RST since, packets are accepted both ways |
| `ConntrackRuns.StrayRefused` | bpf/tc_firewall.c:124-146 | without a SYN between two endpoints nothing but a SYN is accepted, under any evictions |
| `ConntrackRuns.NonInterference` | bpf/tc_firewall.c:75-174 | entries and verdict of a connection depend only on its own packets and evictions |
| `Counters.SaysMore` | bpf/xdp_firewall.c:82-87 | over any packets on a CPU the counters are the number of packets, their bytes, and the numbers passed and dropped, modulo 2^64 |
| `Counters.SaysBalanced` | bpf/headers/common.h:93-99 | so received equals passed plus dropped |
| `Counters.GetStats` | pkg/bpf/loader.go:434-459 | the loops compute the field-wise sums over all CPUs and both programs modulo 2^64, balanced if every CPU is |
| `Programs.TrieLookup` | bpf/xdp_firewall.c:157 | returns a stored key with the longest bit-level match, or none iff no stored key matches |
| `Programs.XdpProgram.Classify` | bpf/xdp_firewall.c:89-248 | the lookups in program order compute the decision of the active generation's image |
| `Programs.XdpProgram.XdpFirewallFunc` | bpf/xdp_firewall.c:64-249 | the verdict, one more packet counted on this CPU only, and the event that explains the decision if the ring has room |
| `Events.DropEventNamesItsRule` | bpf/xdp_firewall.c:123-216 | a packet dropped under an accepted policy gives one event with verdict 1 about that packet, whose rule ID is nonzero and names exactly the rule that accounts for its reason number |
| `Events.PassEventNamesItsRule` | bpf/xdp_firewall.c:217-248 | a passed packet gives an event iff a rule allows its port, with verdict 0, reason 0 and that rule's ID |
| `Events.EventIsAbout` | bpf/headers/common.h:77-91 | addresses, ports, protocol, cgroup and time of an event are the packet's |
| `Events.UntrackedEventSpelledOut` | bpf/tc_firewall.c:129-144 | the event of an untracked packet, field by field |
| `Programs.TcProgram.TcFirewallFunc` | bpf/tc_firewall.c:40-175 | the verdict, the new flow table, one more packet counted on this CPU only, and the event of a drop if the ring has room |
| `Programs.TcProgram.Track` | bpf/tc_firewall.c:95-168 | the in-place updates amount to one step of the flow table |
| `Control.RbacEnforcer.constructor` | pkg/security/rbac.go:28-35 | root is admin by user, root's and sudo's groups by group |
| `Control.RbacEnforcer.AddAdminUid` | pkg/security/rbac.go:38-42 | that user is admin from now on, and nobody else's role changes |
| `Control.RbacEnforcer.AddOperatorUid` | pkg/security/rbac.go:45-49 | that user is operator unless admin by UID, and nobody else's role changes |
| `Control.RolesSpelledOut` | pkg/security/rbac.go:52-78 | who is admin, operator and viewer, iff over the two UID and two GID sets; no credentials is viewer |
| `Control.PermissionsSpelledOut` | pkg/security/rbac.go:81-99 | which commands each role may give |
| `Control.AppliedToListedCaller` | pkg/control/server.go:141-221 | a success answers a request to apply from a caller whose UID or GID is in one of the four sets |
| `Control.RunAppliedToListed` | pkg/control/server.go:141-221 | so does every success of a whole run |
| `Control.FreshServer` | pkg/security/rbac.go:28-35 | on a fresh server only UID 0 and GIDs 0 and 27 may apply, and everybody sees the status |
| `Control.OtherAnswersSpelledOut` | pkg/control/server.go:152-180 | the answers to silence, bad JSON, unknown commands, status and dump |
| `Control.SuccessSpelledOut` | pkg/control/server.go:214-221 | a success names the generation now active and the number of staged items, counted rule by rule |
| `Control.WouldApplyExactly` | pkg/control/server.go:192-212 | a request to apply can succeed iff its text parses to an accepted policy whose texts and paths can all be staged, with room beside the active policy, and no write fails |
| `Control.AcceptedThenRolledBack` | pkg/bpf/loader.go:235-247 | a policy with an unstageable address text is accepted and its apply always answered with failure |
| `Control.DispatchedIffLower` | pkg/control/server.go:170-191 | a permitted command is dispatched iff it is in lower case |
| `Control.ShoutedApplyUnknown` | pkg/security/rbac.go:81-86 | APPLY_POLICY is permitted to admins and operators and answered as unknown |
| `Control.InForceJudges` | pkg/control/server.go:192-221 | a policy in force judges every packet as its source rules say |
| `Control.ControlServer.Reload` | pkg/control/server.go:203-212 | succeeds exactly when the swap does, then puts the policy in force, else changes nothing |
| `Control.ControlServer.ApplyPolicy` | pkg/control/server.go:192-221 | success iff the text parses to an accepted policy that can be staged; the answer names the new generation and the number of items |
| `Control.ControlServer.ProcessRequest` | pkg/control/server.go:190-348 | the answer for each command; only a successful apply changes the maps |
| `Control.ControlServer.HandleConnection` | pkg/control/server.go:141-188 | the answer called for by credentials, decoding, permission and command; the maps change only at a success for an admin or operator |
| `Control.ControlServer.Serve` | pkg/control/server.go:129-188 | over any sequence of connections: every answer is the one called for, maps change only at successful applies by admins or operators, the generation advances by the number of those modulo 2^32, and exactly the accepted policies that permitted callers submit reach the swapper, in a protocol run from empty maps |
| `Capabilities.WordsRoundTrip` | pkg/security/caps.go:79-84 | splitting 64 bits into two words and recombining them is the identity |
| `Capabilities.BitPlaces` | pkg/security/caps.go:49-50 | capability n is bit n of the low word or bit n-32 of the high one |
| `Capabilities.PackCaps` | pkg/security/caps.go:65-71 | a bit is set iff its ID is below 64 and in the list |
| `Capabilities.ExtractCapBits` | pkg/security/caps.go:141-149 | the strictly increasing list of exactly the IDs whose bit is set |
| `Capabilities.RoundTrip` | pkg/security/caps.go:49-85 | packing, splitting, recombining and extracting any list gives the increasing list of its distinct IDs below 64, and the bit test is membership in it |
| `Capabilities.Process.GetProcessCapabilities` | pkg/security/caps.go:39-62 | the report lists both sets, says whether the process is root, and its flags follow from the effective set |
| `Capabilities.Process.DropCapabilities` | pkg/security/caps.go:65-92 | afterwards both sets hold exactly the kept IDs below 64; a failure changes nothing |
| `Capabilities.Process.EnsureMinimalCapabilities` | pkg/security/caps.go:95-120 | with no failing call the report is exactly the five minimal IDs in order; which report is returned on each failure |
| `AuditHistory.AuditStore.constructor` | pkg/observability/audit.go:15-23 | empty, with capacity 1000 if none is given |
| `AuditHistory.AuditStore.Add` | pkg/observability/audit.go:25-34 | evicting the head keeps the store at the last min(capacity, n) of the n events since the last clear |
| `AuditHistory.AuditStore.Clear` | pkg/observability/audit.go:79-83 | starts a new history |
| `AuditHistory.AuditStore.Events` | pkg/observability/audit.go:36-43 | exactly the last min(capacity, n) events added since the last clear, in order |
| `AuditHistory.AuditStore.Count` | pkg/observability/audit.go:73-77 | min(capacity, n) |
| `AuditHistory.AuditStore.Filter` | pkg/observability/audit.go:45-71 | exactly the matching events of the history, each place once, in order |
| `AuditHistory.FilterSpelledOut` | pkg/observability/audit.go:49-58 | which verdict numbers the words pass, drop, redirect and unknown keep; a blank filter and all keep everything |
| `AuditHistory.OccursSpelledOut` | pkg/observability/audit.go:60-65 | a query matches the texts it is a part of |

## Left out

- Program loading, pinning, attachment and cleanup: system calls and foreign libraries.
- Socket operations and message redirection (`bpf/sockops_identity.c`, `bpf/proxy_redirect.c`): key matching rests on byte-order conventions outside the code.
- Decoding of ring-buffer records in user space: the Go record and the C structure are laid out differently.
- Direct edits of the active generation (`AddBlockCIDR` and its kin): they are made outside the swap and would break its run invariant.
- The user-space flow mirror and state labels.
- Control.ControlServer.ProcessRequest: status and dump answers carry the generation only; their summaries copy counters, flows and audit events.
- YAML, CIDR text, cgroup path resolution, JSON, sockets and peer credentials: abstract parameters.
- Header bounds checks and IP options: a packet arrives parsed, or as no packet at all.
- The terminal UI, the command line, scripts and generated bindings.
- The server without a loader, and its logging and caller fields.
- The names of capabilities, and the flags field of flows, which is always zero.
- Programs.XdpProgram.Classify: one packet undisturbed by an apply; the interleaved lookups are in `Flights`.
- TwoSwappers.OverlapLosesOne: overlapping applies whose writes fail, and roll back over each other, are not modelled.
- Control.ControlServer.Serve: connections are served one after another; the server starts a goroutine for each, serialised by the swapper's lock only while applying.
- Conntrack.TableIsSessions: without eviction, because an evicted entry is forgotten; runs with evictions have their own theorems in `ConntrackRuns`.
