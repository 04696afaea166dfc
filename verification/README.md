# Verified model of the agents.net boundary and tun2connect

A sandboxed guest reaches the network only through two programs. The engine
(`sdk/pkg/tun2connect`, `sdk/pkg/netnsproxy`) answers the guest's DNS queries
with synthetic addresses, turns each dialed address back into the name it was
given out for, and asks the boundary for a tunnel. The boundary
(`sdk/cmd/connect-proxy`) holds a policy descriptor and decides which host,
port and transport may be reached, and at which addresses. In the other
direction an ingress (`sdk/cmd/tun2connect`) lets the host reach pinned
loopback ports inside the sandbox.

This project models those programs in Dafny and proves what they promise over
every input, run or interleaving. Verify it with `dafny verify dfyconfig.toml`.

## How the model is laid out

- **Synthetic resolver.** `ResolverLog` defines recency over a log of uses and
  `ResolverRuns` a machine whose whole state is that log, together with the
  theorems about runs. `Resolver` is the resolver as `dns.go` keeps it, with
  maps, recency lists and allocators updated in place; each of its methods is
  proved to be one step of that machine, and `ResolverState` says what its
  fields hold. `SyntheticPools` instantiates the real pools and the bound of
  2^16 names and decides DNS queries. `ResolverTranscripts` works every answer
  out from the operations and answers before it, without the resolver's records.
- **Policy.** `Netip` and `Powers` define addresses and prefixes by division by
  powers of two, `AddressTables` the two tables of special addresses,
  `SpecialPrefixes` what the second one misses, `Labels` suffix matching,
  `Descriptors` what a descriptor entry loads to, `Policies` the decision on a
  plain list of entries. `PolicyObject` is the object of `policy.go` with its
  maps and loops, proved to decide the same.
  `PolicyTheorems` holds the laws of every loaded policy. `DescriptorMeaning`
  says what a descriptor entry means by its own fields, `PolicyAsWritten` reads
  the decision on every request off the descriptor.
- **Admission and shutdown.** `FlowTable` (namespace proxy) and
  `EngineShutdown` (netstack engine, with the code of its two handlers as a table
  of branches, deferred and inline calls) are state machines of atomic steps of
  any number of goroutines; their theorems hold over all `Runs`, so in every
  interleaving. `FlowDelivery` follows the packets and connections through them.
- **Codecs.** `Varint` and `Capsules` follow section 16 of RFC 9000, sections
  3.2 and 3.5 of RFC 9297 and section 5 of RFC 9298; `Heads`, `HostPorts`,
  `IngressHeads` and `Ingress` the hand-written ingress parser with its byte
  accounting; `Template` the connect-udp URI template; `ProxyStatus` the
  Proxy-Status field of RFC 9209.
- **Boundary.** `BoundaryRules` decides about a parsed head, `Boundary` is one
  connection with the trace of its effects, `BoundaryTraces` what all traces
  satisfy, `BoundaryMeaning` what the trace of a head is, read off the head and
  up to the descriptor. `Registry` ties every refusal to the registered status
  and error type of its reason.
- **End to end.** `Forwarding` composes the resolver's history with the
  policy's decision: a stale guest cache fails closed.

A Dafny `char` stands for one byte of a Go string. Library functions whose code
is not part of the repository (address and prefix parsing and printing, IDNA,
header validation, case folding) are arbitrary functions passed in a record, so
the theorems hold whatever they do; a law they are known to obey is stated as a
`requires` where a theorem needs it. Chunk sizes of reads, the success of dials
and the choice of the next goroutine are nondeterministic.

## Where code and documentation differ

`spec/draft/policy.md:57` says rules are unordered. With `resolve` lists they
are not: the first rule that permits a request supplies the addresses
(`sdk/cmd/connect-proxy/policy.go:532-546`). The model follows the code.
`OrderCanMatter` is a descriptor whose two orders dial different addresses,
`OrderIrrelevantExactly` gives the exact condition, and
`DescriptorOrderIrrelevant` shows that descriptors without `resolve` lists are
unordered.

## Properties that hold only under a condition

- `specialPurpose` asks for one range that holds the whole prefix, as its
  comment and `spec/draft/policy.md:60-61` say. That is not the same as every
  address of the prefix being special: `MissedExactly` proves that the two
  differ for exactly three of the prefixes a descriptor can load, 224.0.0.0/3,
  ::/127 and fe80::/9.
- `sameAuthority` is not symmetric; `SameAuthoritySymmetry` says exactly when
  the order matters.
- The boundary percent-decodes a path that is already decoded, so the template
  does not round-trip every host; `TemplateRoundTrip` says exactly which hosts.
- A capsule cut between its fields ends like a stream that ends properly;
  `TruncationSeenExactly` says exactly which cuts are noticed.

## Model

| member | source | states |
|---|---|---|
| ResolverLog.RememberedAreMostRecent | sdk/pkg/tun2connect/dns.go:30-36 | the remembered names are the most recently used distinct names, at most as many as the bound, in decreasing order of last use; anything not remembered was used before all of them |
| ResolverLog.RememberedAfterUse | sdk/pkg/tun2connect/dns.go:111-128 | one use moves a remembered name to the front, or puts a new one there and drops the least recent at the bound |
| ResolverRuns.RunAgrees | sdk/pkg/tun2connect/dns.go:44-53 | over any run every answer agrees with one final assignment of names to addresses, which only grows |
| ResolverRuns.AddressMeansOneName | sdk/pkg/tun2connect/dns.go:48-53 | an address handed out for a name is never handed out for another, and looking it up at any time gives that name or a miss |
| ResolverRuns.ForgottenForGood | sdk/pkg/tun2connect/dns.go:48-53 | an issued address that misses once misses for ever, whatever is resolved later |
| ResolverRuns.FamiliesAreIndependent | sdk/pkg/tun2connect/dns.go:107-150 | each family's answers and state are those of its own operations run alone |
| ResolverRuns.GivenOutIsIssued | sdk/pkg/tun2connect/dns.go:115-131 | the addresses a run gave out are exactly the first ones of the pool, as many as there were allocations |
| ResolverRuns.ExhaustionIsExact | sdk/pkg/tun2connect/dns.go:115-118 | a run that reports an exhausted pool has handed out exactly the pool's capacity of distinct addresses |
| ResolverRuns.NoEarlyExhaustion | sdk/pkg/tun2connect/dns.go:115-118 | before that every name with a label gets an address |
| ResolverRuns.ExhaustionFreezes | sdk/pkg/tun2connect/dns.go:111-118 | after exhaustion every name, remembered or not, gets for ever the answer it got then, and nothing is evicted |
| Resolver.NextAdmitted | sdk/pkg/tun2connect/dns.go:115-118 | the successor of the last address is inside the pool and outside the reserved block exactly while capacity lasts |
| Resolver.IndexHit | sdk/pkg/tun2connect/dns.go:111-114 | the name index hits exactly the remembered names and gives the binding of the name's latest allocation |
| Resolver.ReverseHit | sdk/pkg/tun2connect/dns.go:136-143 | the shared reverse map hits exactly the live addresses of both families, with the name each was issued for |
| Resolver.MovedToFront | sdk/pkg/tun2connect/dns.go:112 | MoveToFront keeps the list the recency list of the longer history |
| Resolver.InsertHolds | sdk/pkg/tun2connect/dns.go:119-129 | allocation with eviction keeps index, list and allocator those of the longer history |
| Resolver.VirtualDNS.constructor | sdk/pkg/tun2connect/dns.go:75-82 | a new resolver has an empty history, for any bound above zero and any pools laid out like the real ones |
| Resolver.VirtualDNS.Resolve | sdk/pkg/tun2connect/dns.go:100-131 | resolve is one step of the history machine, errors included, and leaves the other family untouched |
| Resolver.VirtualDNS.ResolveName | sdk/pkg/tun2connect/dns.go:105-131 | the locked part on one family: hit, exhaustion, or allocation with eviction |
| Resolver.VirtualDNS.Reverse | sdk/pkg/tun2connect/dns.go:136-150 | Reverse is one step of the history machine; a live address gives its name and uses it, which ResolverTranscripts.UsesAreMentions and ReverseFromAnswers pin by the answers of runs |
| ResolverState.MemoryIsBounded | sdk/pkg/tun2connect/dns.go:30-34 | in every valid state each family's list is its most recently used names in order, at most the bound, its index holds as many, and the shared reverse map as many as both together |
| ResolverState.ReverseKeys | sdk/pkg/tun2connect/dns.go:54-68 | the reverse map's keys are the disjoint union of the addresses in both lists |
| ResolverTranscripts.UsesAreMentions | sdk/pkg/tun2connect/dns.go:107-150 | over any run the recency log of a family is the list of names its own answers mention: every resolved name and every name a reverse lookup found, in order |
| ResolverTranscripts.NewestIsLatest | sdk/pkg/tun2connect/dns.go:115-129 | the newest address of a name is the last one the run answered for it |
| ResolverTranscripts.ReverseFromAnswers | sdk/pkg/tun2connect/dns.go:136-150 | a reverse lookup answers a name if and only if the address is the last one answered for it and the name is among the bound's most recent distinct names the answers mention, reverse hits included; otherwise it misses |
| ResolverTranscripts.ResolveFromAnswers | sdk/pkg/tun2connect/dns.go:100-131 | a resolution fails for the empty name, repeats the last address of a recent name, and otherwise gives the next address of the pool or fails when all are out |
| ResolverTranscripts.CanonicalIsFolded | sdk/pkg/tun2connect/dns.go:84-86 | the name used is the given one without one final dot, each letter in lower case |
| ResolverTranscripts.SpellingsShareNames | sdk/pkg/tun2connect/dns.go:84-86 | two spellings lead to one name exactly when they are the same up to case and one final dot |
| SyntheticPools.NewVirtualDNS | sdk/pkg/tun2connect/dns.go:23-34 | the real constants satisfy the layout, with capacities 2^22 - 257 and 2^64 - 257 |
| SyntheticPools.AddressesFillThePool | sdk/pkg/tun2connect/dns.go:20-28 | what can be handed out is exactly the pool without its own address and without the reserved top |
| SyntheticPools.NewAddressesIncrease | sdk/pkg/tun2connect/dns.go:115-126 | an address new to a run is above every address the run gave out before |
| SyntheticPools.StandardCapacity | sdk/pkg/tun2connect/dns.go:23-34 | for the standard resolver, 65536 names a family, a name it does not remember fails if and only if exactly 2^22 - 257 (or 2^64 - 257) addresses are out |
| SyntheticPools.HandleQuery | sdk/pkg/tun2connect/dns.go:167-183 | the reply is the one of its question's operation; RepliesAreOwned says in numbers which questions are operations and what they answer |
| SyntheticPools.RepliesAreOwned | sdk/pkg/tun2connect/dns.go:152-183 | a question of type 1 or 28 and class 1 is one resolution in its family and is answered with the address, owned by the name asked for, or SERVFAIL; any other question gets an empty answer and changes nothing |
| AddressTables.TablesAgreeOnAddresses | sdk/cmd/connect-proxy/policy.go:379-428 | for every unmapped address without a zone, publicAddress holds exactly when specialPurpose of its host prefix does not |
| AddressTables.PublicNumbers4 | sdk/cmd/connect-proxy/policy.go:379-409 | an IPv4 address is public exactly when its number lies in none of the fourteen special intervals |
| AddressTables.PublicNumbers6 | sdk/cmd/connect-proxy/policy.go:379-409 | the same for IPv6 addresses that are not IPv4-mapped and have no zone |
| AddressTables.SpecialPurposeIsSound | sdk/cmd/connect-proxy/policy.go:411-428 | no address of a special-purpose prefix is public |
| AddressTables.SpecialPurposeIsOneRange | sdk/cmd/connect-proxy/policy.go:411-428 | specialPurpose holds exactly of the prefixes that lie, as sets of addresses, inside one range of the table |
| AddressTables.SpecialPurposeIsNotComplete | sdk/cmd/connect-proxy/policy.go:411-428 | a concrete case of a missed prefix: 224.0.0.0/3 holds no public address and is not special-purpose |
| SpecialPrefixes.MissedExactly | sdk/cmd/connect-proxy/policy.go:379-428 | a masked prefix that is not IPv4-mapped holds no public address if and only if specialPurpose accepts it or it is 224.0.0.0/3, ::/127 or fe80::/9; those three are not accepted |
| SpecialPrefixes.LoadedPrefixIsJudged | sdk/cmd/connect-proxy/policy.go:216-226 | the same of every CIDR text a descriptor can load |
| SpecialPrefixes.MissedHoldsNoPublic | sdk/cmd/connect-proxy/policy.go:399-428 | each of the three holds no public address |
| SpecialPrefixes.MissedIsNotSpecial | sdk/cmd/connect-proxy/policy.go:411-428 | none of the three lies in one range |
| SpecialPrefixes.NotWider | sdk/cmd/connect-proxy/policy.go:379-421 | a prefix wider than a range it meets holds a public address unless it is the union of two ranges |
| AddressTables.CoversIsInclusion | sdk/cmd/connect-proxy/policy.go:423 | a range the test accepts holds every address of the prefix |
| AddressTables.InclusionNeedsLength | sdk/cmd/connect-proxy/policy.go:423 | a shorter prefix always has an address outside a longer one, so the length comparison rejects nothing that is inside |
| Netip.MaskedContains | sdk/cmd/connect-proxy/policy.go:323 | masking a prefix changes no membership |
| Labels.SuffixMeansLabels | sdk/cmd/connect-proxy/policy.go:521-528 | the string test and dot count match exactly when the suffix's labels are a proper suffix of the name's and the extra labels are within the depth |
| Labels.SuffixDepthMonotone | sdk/cmd/connect-proxy/policy.go:521-528 | a suffix never matches itself and a deeper rule matches more |
| Descriptors.NumberEntry | sdk/cmd/connect-proxy/policy.go:62-101 | a number in a ports list loads exactly when it is an integer and a port, and permits it alone; a fractional one is an error |
| Descriptors.RangeEntry | sdk/cmd/connect-proxy/policy.go:62-101 | a printed range loads exactly when both ends are ports in order |
| Descriptors.MappedPrefixMembership | sdk/cmd/connect-proxy/policy.go:309-324 | for an IPv4-mapped prefix of at least /96, an IPv6 address is in the written prefix iff its unmapped form is in the loaded one |
| Descriptors.PlainPrefixMembership | sdk/cmd/connect-proxy/policy.go:309-324 | loading changes the membership of no other prefix |
| Descriptors.LoadedPrefixIsUnmapped | sdk/cmd/connect-proxy/policy.go:309-324 | no loaded prefix is IPv4-mapped, and every one is masked |
| PolicyObject.ParsePorts | sdk/cmd/connect-proxy/policy.go:62-103 | the loop loads a ports list as its specification says, errors included; DescriptorMeaning.LoadedPortsMean says in digit values what that is |
| PolicyObject.ParseTransports | sdk/cmd/connect-proxy/policy.go:111-130 | the loop loads a transports list as its specification says; DescriptorMeaning.LoadedTransportsMean says what that is |
| PolicyObject.Select | sdk/cmd/connect-proxy/policy.go:433-447 | the loop with its running reason gives the first permitting rule, or how close any candidate came |
| PolicyObject.CoversOnPort | sdk/cmd/connect-proxy/policy.go:452-485 | true exactly when some rule covers the address on the port |
| PolicyObject.LoadedPolicy.File | sdk/cmd/connect-proxy/policy.go:276-304 | filing a rule by kind is appending it to the list of entries |
| PolicyObject.LoadedPolicy.AddRule | sdk/cmd/connect-proxy/policy.go:236-306 | a rule is appended exactly when the schema allows it (DescriptorMeaning.RulesLoadExactly), as the entry that means what the descriptor writes (LoadedNameMeans, LoadedAddressMeans, LoadedRightsMean, LoadedResolveMeans); otherwise the policy is unchanged |
| PolicyObject.LoadedPolicy.AuthorizeRequest | sdk/cmd/connect-proxy/policy.go:487-561 | authorize on the filed rules gives the verdict of the plain list of entries, which PolicyAsWritten.DecisionAsWritten and NamesAreServedAsWritten read off the descriptor |
| PolicyObject.LoadedPolicy.CandidatesFor | sdk/cmd/connect-proxy/policy.go:519-531 | the candidates of a name are its exact rules, then matching suffix rules, then wildcards, each in descriptor order |
| PolicyObject.LoadedPolicy.Filter | sdk/cmd/connect-proxy/policy.go:548-556 | the filtering loop keeps exactly the admitted answers, unmapped and in order |
| PolicyObject.LoadDescriptor | sdk/cmd/connect-proxy/policy.go:198-234 | loading succeeds exactly for valid descriptors, gives their entries in order, and otherwise names the first entry at fault |
| DescriptorMeaning.LoadedPortsMean | sdk/cmd/connect-proxy/policy.go:62-103 | a ports list loads exactly when it is absent or a non-empty list of ports and ordered ranges of ports, and then permits n exactly when it is absent, an element is the number n, or an element's text denotes n or a range a-b with a <= n <= b |
| DescriptorMeaning.LoadedTransportsMean | sdk/cmd/connect-proxy/policy.go:106-130 | a transports list loads exactly when absent or a non-empty list of tcp and udp; it names what it lists, and tcp alone when absent |
| DescriptorMeaning.ValidNamesExactly | sdk/cmd/connect-proxy/policy.go:326-365 | a name is valid exactly when it is at most 253 long and dot-joined labels of 1 to 63 lower-case letters, digits, hyphens and underscores |
| DescriptorMeaning.NormalizedNames | sdk/cmd/connect-proxy/policy.go:326-365 | a host normalizes to a name exactly when, lower-cased and without one final dot, it is no address and IDNA turns it into that valid name |
| DescriptorMeaning.RulesLoadExactly | sdk/cmd/connect-proxy/policy.go:236-306 | a rule loads exactly under the schema's conditions: one kind of target, identifier, ports, transports, resolve list and depth each within bounds |
| DescriptorMeaning.LoadedNameMeans | sdk/cmd/connect-proxy/policy.go:276-292 | a loaded rule matches a name if and only if the descriptor writes "*", or a name that normalizes to it, or a suffix its labels properly extend by at most the written depth, any number when 0 |
| DescriptorMeaning.LoadedAddressMeans | sdk/cmd/connect-proxy/policy.go:293-304 | a loaded rule covers an address exactly when the written ip unmaps to it or the written cidr holds it, an IPv4-mapped cidr holding the addresses it maps |
| DescriptorMeaning.LoadedRightsMean | sdk/cmd/connect-proxy/policy.go:236-262 | a loaded rule carries the written id and permits exactly the written ports and transports |
| DescriptorMeaning.LoadedResolveMeans | sdk/cmd/connect-proxy/policy.go:263-275 | a loaded rule carries the written resolve addresses, unmapped and in order |
| DescriptorMeaning.LoadedExceptionMeans | sdk/cmd/connect-proxy/policy.go:216-232 | a resolved_addresses entry loads exactly under the schema's conditions, and covers exactly the written prefix on the written ports |
| DescriptorMeaning.DescriptorsLoadExactly | sdk/cmd/connect-proxy/policy.go:188-234 | a descriptor loads exactly when its header and every entry satisfy the schema's conditions |
| PolicyAsWritten.DecisionAsWritten | sdk/cmd/connect-proxy/policy.go:433-547 | every request read off the descriptor: a bad port or host is malformed, a scoped address refused; any other is granted if and only if a written rule is about the host and names its port and transport, and otherwise refused for the furthest any rule came; a granted literal is allowed at that address |
| PolicyAsWritten.NamesAreServedAsWritten | sdk/cmd/connect-proxy/policy.go:519-561 | a granted name is served by the first granting rule as written, exact before suffix before wildcard; it fails exactly when that rule needs the resolver and the resolver fails, and else its addresses are exactly the offered ones that are listed, covered on the port, or public |
| PolicyAsWritten.LiteralsAreServedAsWritten | sdk/cmd/connect-proxy/policy.go:493-515 | a granted literal is allowed under the first written rule that grants it |
| PolicyAsWritten.OneRule | sdk/cmd/connect-proxy/policy.go:433-447 | a descriptor of one rule grants exactly what the rule is about, on exactly its ports and transports |
| PolicyAsWritten.KindsAreExhaustive | sdk/cmd/connect-proxy/policy.go:487-518 | every host text is a scoped address, an address, a name or nothing |
| PolicyTheorems.LoadedIsWell | sdk/cmd/connect-proxy/policy.go:216-306 | in every loaded policy only exact rules have resolve lists, those are plain addresses, no prefix is IPv4-mapped, exceptions are special-purpose |
| PolicyTheorems.SelectionIgnoresOrder | sdk/cmd/connect-proxy/policy.go:433-447 | whether a rule is selected, and otherwise the reason, depends only on the set of candidates |
| PolicyTheorems.RefusalReasons | sdk/cmd/connect-proxy/policy.go:430-447 | transport-not-allowed iff some candidate permits the port (none permitting both), port-not-allowed iff there are candidates and none permits the port, empty iff there is none |
| PolicyTheorems.RulesAreUnordered | sdk/cmd/connect-proxy/policy.go:487-561 | policies with the same entries decide alike, but for the rule they name, when the competing exact rules agree on their resolve lists |
| PolicyTheorems.DescriptorOrderIrrelevant | sdk/cmd/connect-proxy/policy.go:198-234 | permuting a descriptor without resolve lists changes neither whether it loads nor reason, status, error and address list of any request |
| PolicyTheorems.OrderIrrelevantExactly | sdk/cmd/connect-proxy/policy.go:532-546 | for a name, order is irrelevant under every resolver if and only if the exact rules allowing the request carry the same resolve list |
| PolicyTheorems.OrderCanMatter | sdk/cmd/connect-proxy/policy.go:532-546 | a loadable descriptor of two rules for one name: loaded in its two orders it dials different addresses, under every resolver |
| PolicyTheorems.AddingWithdrawsNothing | sdk/cmd/connect-proxy/policy.go:487-561 | any number of entries added at the end and any more exceptions turn no allowed destination into a refused or failed one, and leave literal verdicts as they are |
| PolicyTheorems.ExtendingWithdrawsNothing | sdk/cmd/connect-proxy/policy.go:198-234 | extending both lists of a descriptor at the end, as long as it loads, withdraws nothing |
| PolicyTheorems.AppendedRuleWithdrawsNothing | sdk/cmd/connect-proxy/policy.go:236-306 | appending any valid rule to a descriptor keeps it loadable and withdraws nothing |
| PolicyTheorems.AppendedExceptionWithdrawsNothing | sdk/cmd/connect-proxy/policy.go:216-232 | appending any valid resolved_addresses entry keeps it loadable and withdraws nothing |
| PolicyTheorems.AdmittedMembers | sdk/cmd/connect-proxy/policy.go:548-556 | an address is kept exactly when it is the unmapped form of an answer, has no zone, and is listed, covered on that port, or public |
| PolicyTheorems.AllowedAddressesAreJustified | sdk/cmd/connect-proxy/policy.go:487-561 | an allowing verdict has at least one address, all unmapped and zone-free, each the permitted literal itself or from the selected rule's source and admitted |
| PolicyTheorems.LiteralSelection | sdk/cmd/connect-proxy/policy.go:493-515 | a literal is allowed exactly when some literal rule covers it and permits port and transport |
| PolicyTheorems.ExceptionsNeverAuthorizeLiterals | sdk/cmd/connect-proxy/policy.go:493-515 | resolved_addresses never change the verdict on a literal host |
| PolicyTheorems.ExceptionsAreSpecialPurpose | sdk/cmd/connect-proxy/policy.go:224-226 | an exception never covers a public address |
| PolicyTheorems.MalformedExactly | sdk/cmd/connect-proxy/policy.go:487-518 | status 400 exactly for a bad port or a host that is neither address nor name, each with its own reason; scoped-ip exactly for an address with a zone |
| PolicyTheorems.RefusedExactly | sdk/cmd/connect-proxy/policy.go:433-547 | for a well-formed request the reason is exactly how far the matching rules come: none at all, none for the port, none for the transport |
| PolicyTheorems.ResolutionDecides | sdk/cmd/connect-proxy/policy.go:537-561 | a name some rule allows fails exactly when its resolver does, and is denied exactly when no address from the rule's source is admitted |
| FlowTable.StepKeeps | sdk/pkg/netnsproxy/proxy_linux.go:159-287 | every atomic step of every goroutine keeps the invariant of slots, tables, locks, wait groups and queues |
| FlowTable.SlotsAreSessions | sdk/pkg/netnsproxy/proxy_linux.go:168-178 | in every reachable state the slots in use are the live TCP and UDP sessions, at most MaxConnections |
| FlowTable.TableIsUndeletedFlows | sdk/pkg/netnsproxy/proxy_linux.go:224-268 | a listener's table is exactly its flows whose session has not deleted them, each under its own key |
| FlowTable.OnlyOwnSessionDeletes | sdk/pkg/netnsproxy/proxy_linux.go:242-269 | in every reachable state a table entry survives a step if and only if the step is not its own flow's delete |
| FlowTable.TableIsGuarded | sdk/pkg/netnsproxy/proxy_linux.go:206-280 | of a listener's loop and all its flows' sessions at most one stands where it reads or writes the table, and it holds the mutex |
| FlowTable.OnlyOwnerChangesTable | sdk/pkg/netnsproxy/proxy_linux.go:225-268 | a step that changes a table is the insert of the loop or the delete of the session that holds its mutex |
| FlowTable.DeleteRemovesOwnEntry | sdk/pkg/netnsproxy/proxy_linux.go:264-269 | the unconditional delete always finds, and removes, the goroutine's own flow |
| FlowTable.PacketsReachTheirFlow | sdk/pkg/netnsproxy/proxy_linux.go:281-285 | every queued packet is of its flow's peer and destination, and no queue holds more than 16; FlowDelivery says that packets do get there |
| FlowDelivery.PacketsAreDelivered | sdk/pkg/netnsproxy/proxy_linux.go:202-287 | over every run, what a listener received is, in order, what it has settled and at most one packet in hand; and what was put in a flow's queue is, in order, what its session took and what the queue still holds |
| FlowDelivery.QueuedMeans | sdk/pkg/netnsproxy/proxy_linux.go:270-285 | a packet settled as queued was put behind the queue of the flow of its own peer and destination, and nothing else changed |
| FlowDelivery.DroppedMeans | sdk/pkg/netnsproxy/proxy_linux.go:225-285 | a packet is dropped only when its own flow's queue holds 16 or the flow is done, when every slot is taken, or when no reply socket opens |
| FlowDelivery.ReceivedIsSettled | sdk/pkg/netnsproxy/proxy_linux.go:206-285 | the same from any state: no packet is lost, doubled or reordered between receiving and settling |
| FlowDelivery.PutIsTaken | sdk/pkg/netnsproxy/proxy_linux.go:242-285 | a flow's session takes exactly what was put in its queue, in order |
| FlowDelivery.AcceptedIsServed | sdk/pkg/netnsproxy/proxy_linux.go:159-195 | every accepted TCP connection got a session, was turned away with no slot free, or is being decided |
| FlowTable.ReturnedListenerIsClean | sdk/pkg/netnsproxy/proxy_linux.go:202-205 | when serveUDP has returned its table is empty and none of its flows runs or holds a slot |
| FlowTable.FlowCleanupNeverBlocks | sdk/pkg/netnsproxy/proxy_linux.go:261-269 | giving back a slot or a wait-group place never finds it already gone |
| FlowTable.ConnCleanupNeverBlocks | sdk/pkg/netnsproxy/proxy_linux.go:175-193 | the same for TCP sessions |
| FlowTable.AllReturnedFreesEverySlot | sdk/pkg/netnsproxy/proxy_linux.go:121-144 | when every listener has returned no slot is in use |
| EngineShutdown.StepKeeps | sdk/pkg/tun2connect/engine.go:145-264 | every atomic step of handlers and Close keeps the invariant of tokens, wait group, lock and closed flag |
| EngineShutdown.TokensAreHandlers | sdk/pkg/tun2connect/engine.go:157-175 | tokens and wait group count exactly the handlers in a session, never above the capacity |
| EngineShutdown.StepKeepsBalance | sdk/pkg/tun2connect/engine.go:182-264 | every instruction of the handlers, whichever branch it takes, keeps what the handler owes: one release, deferred exactly once the goroutine runs, none when it leaves |
| EngineShutdown.AcquireMatchesRelease | sdk/pkg/tun2connect/engine.go:182-264 | a handler that has returned, on whichever of its paths, has released exactly as often as it acquired, with nothing left deferred, and it is never ahead |
| EngineShutdown.EveryHandlerCanEnd | sdk/pkg/tun2connect/engine.go:157-264 | a handler that has not ended can step unless it waits for the lock another holds, and its steps run out |
| EngineShutdown.ReleaseNeverBlocks | sdk/pkg/tun2connect/engine.go:172-175 | a release always finds its token and its place in the wait group |
| EngineShutdown.NothingStartsAfterClosed | sdk/pkg/tun2connect/engine.go:145-170 | once closed is set no step adds to the wait group and no session begins, in any continuation |
| EngineShutdown.StackClosesQuiet | sdk/pkg/tun2connect/engine.go:145-155 | the stack is closed only with no session left, and none can begin afterwards |
| EngineShutdown.AcquireAnswersExactly | sdk/pkg/tun2connect/engine.go:157-170 | in every reachable state a call of acquire that holds the lock is decided by whether Close has set its flag and fewer handlers than the capacity hold a token: granted, it returns true in every continuation in which it returns; else it never begins a session |
| EngineShutdown.AcquireAlone | sdk/pkg/tun2connect/engine.go:157-170 | a whole call with the lock free runs through, and begins a session, one token and one worker more, exactly when there is room |
| Varint.AppendsShortest | sdk/pkg/tun2connect/capsule.go:24-37 | appendVarint writes the encoding of the least width that fits |
| Varint.DecodeEncode | sdk/pkg/tun2connect/capsule.go:39-56 | every encoding of a number, however wide, reads back as it and leaves what follows |
| Varint.DecodedIsEncoding | sdk/pkg/tun2connect/capsule.go:39-56 | the bytes a read consumed are an encoding of what it returned |
| Varint.AppendVarintIsMinimal | sdk/pkg/tun2connect/capsule.go:24-56 | no bytes that read as a number are fewer than those appendVarint writes for it |
| Varint.AppendVarintInverts | sdk/pkg/tun2connect/capsule.go:24-56 | readVarint inverts appendVarint on every number below 2^62 |
| Varint.DecodePrefix | sdk/pkg/tun2connect/capsule.go:45-52 | an encoding cut short is an unexpected end, unless nothing of it arrived |
| Varint.ByteReader.ReadVarint | sdk/pkg/tun2connect/capsule.go:39-56 | the loop consumes and returns what the specification says, errors included |
| Capsules.ContextAndPayload | sdk/pkg/tun2connect/capsule.go:105-116 | a datagram's value is its context in any width and its payload; only context 0 counts |
| Capsules.StreamReadsAsPayloads | sdk/pkg/tun2connect/capsule.go:86-118 | any stream of capsules in any valid widths reads as exactly the payloads of its context-0 datagrams, in order, and then its end |
| Capsules.ReadAllAfter | sdk/pkg/tun2connect/capsule.go:86-118 | the same with any bytes, good or bad, behind the capsules |
| Capsules.ReadDatagramConsumes | sdk/pkg/tun2connect/capsule.go:86-118 | a payload returned was carried by a well-formed capsule behind well-formed skipped ones, and nothing else was consumed |
| Capsules.TruncationSeenExactly | sdk/pkg/tun2connect/capsule.go:90-104 | a capsule cut short is told from the end of the stream unless the cut falls between its fields |
| Capsules.DatagramRoundTrip | sdk/pkg/tun2connect/capsule.go:72-118 | a written payload comes back exactly when it has at most 65535 bytes; a longer one is refused by its length |
| Capsules.DatagramsRoundTrip | sdk/pkg/tun2connect/capsule.go:72-118 | what one relay sends is what the other reads, every datagram in order and then the end |
| Capsules.CapsuleDecides | sdk/pkg/tun2connect/capsule.go:88-118 | after a type and a length in any widths: a length over 65536 is refused whatever the type, a value that ends early is an unexpected end unless nothing of it came, a datagram with a missing or cut context is malformed, another type is passed over |
| Capsules.ContentExactly | sdk/pkg/tun2connect/capsule.go:105-113 | a capsule is malformed exactly when it is a datagram whose context is missing or cut off |
| Capsules.CapsuleStream.WriteDatagram | sdk/pkg/tun2connect/capsule.go:74-84 | exactly the framed bytes are appended to what was sent |
| Capsules.CapsuleStream.ReadFull | sdk/pkg/tun2connect/capsule.go:101-104 | all the bytes of the value, or a plain end if there are none, or an unexpected end |
| Capsules.CapsuleStream.ReadDatagram | sdk/pkg/tun2connect/capsule.go:88-118 | the skipping loop, which terminates, consumes and returns what the specification says |
| HostPorts.SplitIsJoined | sdk/cmd/tun2connect/run.go:431-434 | whatever splits was written as host:port or [host]:port, without other brackets |
| HostPorts.JoinSplits | sdk/cmd/connect-proxy/main.go:186 | splitting undoes joining exactly when no brackets occur and the port has no colon |
| HostPorts.SplitExactly | sdk/cmd/connect-proxy/main.go:449-452 | a text splits into a host and a port exactly when it is written host:port without other colons, or [host]:port |
| Heads.NextLineOfBytes | sdk/cmd/tun2connect/run.go:405-409 | a written line, with or without a carriage return, reads back as its text and leaves what follows |
| Heads.BytesOfNextLine | sdk/cmd/tun2connect/run.go:405-409 | the bytes a line read consumed are that line as it can be written |
| Heads.TrimPadding | sdk/cmd/tun2connect/run.go:419 | TrimSpace removes blanks around a text of visible characters and nothing of the text |
| Heads.IsHostExactly | sdk/cmd/tun2connect/run.go:417 | a field is the Host field exactly when its name is those four letters in either case, or has a long s for the s |
| IngressHeads.LoopbackForms | sdk/cmd/tun2connect/run.go:431-444 | the target checks accept exactly 127.0.0.1, [127.0.0.1] or [::1] with a port text whose value is pinned |
| IngressHeads.HeadersOfBytes | sdk/cmd/tun2connect/run.go:402-421 | any well-formed header lines are read up to the blank one, counting exactly the Host fields |
| IngressHeads.AcceptedIsAcceptable | sdk/cmd/tun2connect/run.go:386-446 | an accepted head is a CONNECT to a pinned loopback port with at most one Host field, required by HTTP/1.1, equal to the target |
| IngressHeads.AcceptedExactly | sdk/cmd/tun2connect/run.go:386-446 | exactly those heads are accepted, and what is left is exactly the bytes after the blank line |
| IngressHeads.RefusalsTellTheFault | sdk/cmd/tun2connect/run.go:422-444 | 403 exactly when pinning another port would have the request accepted; no other refusal depends on the pinned ports; 405 and duplicate-host exactly for their faults |
| IngressHeads.RequestLineExactly | sdk/cmd/tun2connect/run.go:391-401 | a request line of three parts is taken under HTTP/1.1 and HTTP/1.0, refused 505 under another HTTP/ version, and anything else is malformed |
| IngressHeads.HeadersExactly | sdk/cmd/tun2connect/run.go:402-421 | headers are read exactly from field lines that a blank line ends, with exactly their Host fields |
| IngressHeads.FieldLineExactly | sdk/cmd/tun2connect/run.go:413-416 | a line is a field exactly when a colon follows a name that is not empty and has no blank, tab or colon |
| IngressHeads.OutcomesExactly | sdk/cmd/tun2connect/run.go:428-446 | for a CONNECT with at most one Host field: missing-host exactly under HTTP/1.1 without one; malformed-target without a loopback target; then malformed-port, authority-mismatch, port-not-permitted or acceptance by port text, Host value and pinned ports |
| IngressHeads.HeadOutcome | sdk/cmd/tun2connect/run.go:386-446 | the first fault decides: request line, then headers, then the decision |
| IngressHeads.GatewayHeadIsAccepted | demo/host_proxy.py:580-581 | the gateway's head for a pinned port, followed by any payload, is accepted and leaves exactly the payload |
| Ingress.ParsePinnedPorts | sdk/cmd/tun2connect/run.go:314-327 | succeeds exactly when every field is a port, with exactly their values; otherwise names the first field that is not |
| Ingress.BufferedReader.ReadString | sdk/cmd/tun2connect/run.go:343-405 | however reads are chunked, a line is taken from what the bound lets through and no byte is lost |
| Ingress.BufferedReader.ForwardRest | sdk/cmd/tun2connect/run.go:359-362 | buffered bytes then connection are exactly what was not consumed |
| Ingress.IngressTarget | sdk/cmd/tun2connect/run.go:386-446 | the line-by-line loop decides as the specification on the reachable bytes and leaves exactly the bytes after the head |
| Ingress.ServeIngress | sdk/cmd/tun2connect/run.go:340-368 | refusal, failed dial or tunnel; a tunnel forwards exactly the stream after the head |
| Ingress.ForwardedIsAfterTheHead | sdk/cmd/tun2connect/run.go:359-373 | an accepted stream is an acceptable head of at most 8 KiB followed by exactly what is forwarded |
| Ingress.TunnelsExactly | sdk/cmd/tun2connect/run.go:340-373 | a stream is tunneled to a target exactly when it begins with an acceptable head for it of at most 8192 bytes, and everything behind that head is forwarded |
| Ingress.GatewayStreamIsForwarded | demo/host_proxy.py:580-581 | a stream opened by the gateway reaches a pinned port whole, of any length |
| Template.EncodedHostDecodes | sdk/pkg/tun2connect/connect.go:129-137 | decoding the encoded host gives the host, for every host |
| Template.RawPathIsSent | sdk/pkg/tun2connect/connect.go:129-137 | RawPath decodes to Path and holds only characters that keep it on the wire, for every host |
| Template.UnescapeIsIdentity | sdk/cmd/connect-proxy/main.go:502 | a text decodes to itself exactly when it holds no percent sign |
| Template.EscapeReads | sdk/cmd/connect-proxy/main.go:502 | a percent sign and two hexadecimal digits in either case read as the byte of that value |
| Template.BadEscapeFails | sdk/cmd/connect-proxy/main.go:502 | any other use of a percent sign does not decode |
| Template.TemplateRoundTrip | sdk/cmd/connect-proxy/main.go:495-507 | masqueTarget of the client's Path gives back host and port exactly when the host is not empty and has neither a percent sign nor a slash |
| Template.ClientToBoundary | sdk/pkg/tun2connect/connect.go:129-137 | for those hosts and every port the boundary reads over the wire what the client meant |
| Template.EncodedBytes | sdk/pkg/tun2connect/connect.go:129-137 | byte by byte, letters, digits and -_.~$&+=@ stand for themselves in the encoded host and any other byte is a percent sign and two upper-case digits |
| Template.MasqueTargetExactly | sdk/cmd/connect-proxy/main.go:495-507 | a path is accepted as a host and port exactly when, between any slashes, it is .well-known/masque/udp/ with one segment that decodes to the host, not empty, and one that is the port |
| ProxyStatus.ScanReason | sdk/pkg/tun2connect/connect.go:149-157 | the scanning loop finds what the specification says |
| ProxyStatus.ReasonRoundTrip | sdk/pkg/tun2connect/connect.go:149-164 | a reason comes back from the field that carries it exactly when it has no separator, no trailing space and no outer quotes |
| ProxyStatus.TokensArePrintable | sdk/pkg/tun2connect/connect.go:166-186 | every token of letters and hyphens, as all registered reasons are, comes back |
| BoundaryRules.SameAuthoritySymmetry | sdk/cmd/connect-proxy/main.go:464-475 | the comparison is the same in both orders except when one host is an address and the other only folds to it |
| BoundaryRules.SameAuthorityIsNotSymmetric | sdk/cmd/connect-proxy/main.go:464-475 | 127.0.0.1. and 127.0.0.1 compare differently in the two orders |
| BoundaryRules.ConnectNamesItsTarget | sdk/cmd/connect-proxy/main.go:445-475 | a CONNECT let through names its host and port in its target, and its Host field the same port and the same address, or the same name up to case and a final dot |
| BoundaryRules.RejectionsHaveReasons | sdk/cmd/connect-proxy/main.go:187-216 | a rejection before dialing is a block or fail with a reason and an error status, never an allow |
| BoundaryRules.CausesAreRecorded | sdk/cmd/connect-proxy/main.go:187-216 | fail is recorded exactly without a policy (503) or without a resolver answer (502), block otherwise; udp-disabled exactly for udp under a policy that forbids it, before any rule |
| BoundaryRules.DialedAddressesAreJustified | sdk/cmd/connect-proxy/main.go:195-217 | what is dialed is a non-empty list of addresses the policy justifies for this host, port and transport, udp only where enabled; so dialAuthorized never returns neither a connection nor an error |
| Boundary.Connection.DialAuthorized | sdk/cmd/connect-proxy/main.go:231-241 | addresses are dialed in order up to the first success; without one there is an error exactly if the list is not empty |
| Boundary.Connection.ConnectUpstream | sdk/cmd/connect-proxy/main.go:185-227 | either the dials, then the allow record; or the dials, then one record and one refusal with its reason |
| Boundary.Connection.HandleConnect | sdk/cmd/connect-proxy/main.go:314-331 | the trace of a CONNECT is one the ruling on it allows; BoundaryMeaning.ConnectIsServed says which by its head alone |
| Boundary.Connection.HandleConnectUDP | sdk/cmd/connect-proxy/main.go:333-354 | the same for a connect-udp upgrade; BoundaryMeaning.UpgradeIsServed and TransportOfTheHead say which by its head alone |
| Boundary.Connection.Serve | sdk/cmd/connect-proxy/main.go:551-569 | the whole connection's trace is one the ruling on its head allows, and ends by closing the client |
| BoundaryTraces.OneRecord | sdk/cmd/connect-proxy/main.go:538-570 | exactly one audit record is written, none only after an I/O error in the head |
| BoundaryTraces.RecordTellsTheTrace | sdk/cmd/connect-proxy/main.go:185-252 | for every head and policy the recorded decision is allow iff an upstream was opened, at an address of the verdict, followed by success, relay and close; otherwise the one refusal carries the record's reason and nothing was opened |
| BoundaryTraces.RelayIsLast | sdk/cmd/connect-proxy/main.go:314-354 | relaying comes after the success response, that after the allow record, that after the dial, with nothing closed before |
| BoundaryTraces.OpenAndClose | sdk/cmd/connect-proxy/main.go:324-348 | every opened upstream is closed, and there is at most one |
| BoundaryTraces.DialsAreAuthorized | sdk/cmd/connect-proxy/main.go:203-241 | every dial of a connection, successful or not, is to an address the policy justifies for the request's own host, port and transport |
| BoundaryMeaning.ConnectIsServed | sdk/cmd/connect-proxy/main.go:314-331 | a CONNECT whose target writes a host and port is refused for a bad port text or a Host field that disagrees, and otherwise the policy is asked about exactly that host and port over tcp and its answer followed to the last event; without such a target it is malformed |
| BoundaryMeaning.UpgradeIsServed | sdk/cmd/connect-proxy/main.go:333-354 | a connect-udp upgrade without both tokens or a path is malformed-upgrade, with a path that is no template malformed-template, and otherwise the policy is asked about exactly the host and port the template names over udp and its answer followed |
| BoundaryMeaning.ClientIsServed | sdk/cmd/connect-proxy/main.go:333-354 | a head that carries the client's URL is ruled on for exactly the client's host and decimal port over udp |
| BoundaryMeaning.TransportOfTheHead | sdk/cmd/connect-proxy/main.go:314-354 | every dial, record and success response of a CONNECT is tcp and 200, of an upgrade udp and 101 |
| BoundaryMeaning.UdpDisabled | sdk/cmd/connect-proxy/main.go:196-202 | under a policy without udp an upgrade dials nothing, and a properly written one is recorded and refused 403 udp-disabled |
| BoundaryMeaning.OthersAreRefused | sdk/cmd/connect-proxy/main.go:562-569 | every other head is recorded and refused 405 connect-only |
| BoundaryMeaning.UnreadHeads | sdk/cmd/connect-proxy/main.go:553-560 | a head its reader refuses is recorded and refused with the reader's reason, one that ends in an I/O error only closed |
| BoundaryMeaning.TunnelAsks | sdk/cmd/connect-proxy/main.go:185-227 | the trace of a tunnel request, event by event: 503 without a policy, 403 udp-disabled, the verdict's own reason and status, 502 resolve-failed, or dials in order up to the first success and then record, success, relay, close, or 502 dial-failed |
| BoundaryMeaning.ConnectFollowsTheDescriptor | sdk/cmd/connect-proxy/main.go:185-227 | a CONNECT to a name, under a loaded descriptor, dials only addresses at which the serving rule as written lets the name be dialed, on the written port over tcp, and dials at all exactly when there is one |
| BoundaryMeaning.UpgradeFollowsTheDescriptor | sdk/cmd/connect-proxy/main.go:185-227 | the same for an upgrade over udp, exactly where the descriptor has udp |
| Registry.RefusalsAreRegistered | sdk/pkg/tun2connect/connect.go:166-186 | every refusal of every readable head carries the status and the error type registered for its reason (spec/draft/registries.md, section 2) |
| Registry.ListenerReasonsAreRegistered | sdk/pkg/tun2connect/connect.go:166-186 | so do the reasons given before a head is read |
| Registry.IngressRefusalsAreRegistered | spec/draft/registries.md:41-67 | so does every refusal of the ingress's head parser |
| Forwarding.TargetHost | sdk/pkg/tun2connect/forwarder.go:34-43 | the lookup on the live resolver gives the name or the literal and is one step of its history |
| Forwarding.TargetFromAnswers | sdk/pkg/tun2connect/forwarder.go:34-43 | an invalid destination or port 0 is refused and touches nothing; any other leads to the name its address was last answered for while that name is among the most recent the answers mention, and else to the literal; the lookup is a use |
| Forwarding.NameOrLiteral | sdk/pkg/tun2connect/forwarder.go:34-43 | an address given out for a name leads at every later time to that name or to the literal |
| Forwarding.LiteralOffAllowlist | sdk/cmd/connect-proxy/policy.go:493-515 | a literal is answered 403 ip-not-on-allowlist, on any port and transport, exactly when no literal rule covers it |
| Forwarding.StaleCacheFailsClosed | sdk/pkg/tun2connect/dns.go:48-53 | a guest dialing at any later time an address once given out reaches the boundary as the original name, or as a literal the boundary refuses under every policy whose literal rules avoid the pools |

## Left out

- Sockets, TUN devices, nftables, netlink, vsock, the gVisor stack and process supervision: system calls and libraries outside the repository.
- TLS, certificates, HTTP/2 framing and the HTTP/2 handler: foreign code; its one request path ends in the same connectUpstream.
- JSON decoding, IDNA tables, DNS message packing and MIME header parsing: the model starts from decoded descriptors, questions and heads.
- `readHead`, `boundedReader` and `ParseHTTPVersion` of the boundary: reading a head gives an I/O error, a refusal or a parsed head.
- Clocks, deadlines and idle timers: timeouts are failing dials, ending relays or ending streams, chosen nondeterministically.
- Reloading a policy while a connection runs: the connection sees one policy, and the policy version stamped on its record is not modelled.
- The connection slots of `serveListener`: the same token discipline as in EngineShutdown.
- Relaying itself: the copy loops of tunnels are one event; the ingress forwards one direction only.
- Write errors: a write to a peer is modelled as sending everything.
- List elements of `container/list`: the recency list holds bindings by value, and its maps hold them instead of pointers into the list.
- Integer widths: lengths and counters are unbounded; ports, addresses and varints carry their bounds explicitly.
- ResolverRuns.Canonical: lower-casing is ASCII; names with other letters are not modelled.
- SyntheticPools.HandleQuery: starts from the parsed question and stops before packing, so the header bits and the TTL of the reply are not modelled.
- FlowTable.StepKeeps: a packet that is truncated, has no destination or is for a forbidden port changes nothing and is no step; Proxy.Close appears as the failing accepts and receives it causes.
- EngineShutdown.StepKeepsBalance: a handler and the goroutine it starts are one thread of control, and port 53, EnableUDP, dials and endpoints are free choices of branch.
- Ingress.BufferedReader.ReadString: the capacity of the buffer is not modelled, so more chunkings are covered than can occur.
- BoundaryRules.SameAuthoritySymmetry: takes case folding as any symmetric function.
