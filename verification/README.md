# Network policy manager: a verified model

This project models the network policy manager, which turns container topology and an ordered policy
into an nftables table on every host, and proves what the pieces promise. Its parts follow the
program:

- **Policy compiler** (`Topology`, `Choices`, `Compiler`, `Meaning`, `ChoiceMeaning`, `Cluster`,
  `Canonical`). `Meaning.Verdict` reads a policy directly off a snapshot: system sources pass, then
  the first rule that relates the two addresses decides, then the default for local applications.
  `Compiler.Compile` is the grouping, sorting, compacting, port-expanding compiler, loop by loop,
  over a plan object it appends to. The two agree on every packet; all hosts together enforce one
  cluster policy if the hosts behind every address agree on its rules, and that condition is exact;
  the plan does not depend on the order of workloads, links or map iteration. Where it may depend on
  the answers of the selector matcher, `Choices` says which plans there are and `ChoiceMeaning` what
  they decide.
- **nft rendering** (`Network`, `Firewall`, `Rendering`, `Pipeline`). The emitted script is a
  program of named sets and two chains with `jump`, `return` and `drop`; running it decides like the
  plan. `Pipeline` composes this with the compiler, down to what the kernel does with a packet, and
  `EndToEnd` with the metadata and the reconcile loop.
- **Reconcile loop** (`Manager`, `ManagerRuns`). A state machine over attempts, with every state
  that another goroutine can see between its steps, and the theorems over all runs: the installed
  table is determined by the attempts, status readers are never misled, enforcement is suspended
  only when due, once per outage, in time, and restored by the next success.
- **Selectors and normalisation** (`Text`, `Selector`, `SelectorLaws`, `Grammar`, `Labels`,
  `Policy`, `Spelling`, `Document`, `DocumentLaws`). Parser, canonical printer and evaluator of the
  selector language, a grammar that generates exactly the texts the parser accepts, and the
  canonical form of rules and of whole audit documents, with the spellings that do and do not matter
  to it.
- **Metadata** (`Views`, `Metadata`, `SnapshotBuilder`, `MetadataLaws`, `MetadataOrder`,
  `LinkNames`). Redundant views of services and containers are merged while Go maps are ranged over
  in arbitrary order; every such loop takes its next key by nondeterministic choice. The result is a
  function of the input as far as it is one, and of the order of the document as far as it depends
  on that. `Example` is a small topology on which `LabelChoice` and `Overlong` show what can go
  wrong.
- **Audit planner** (`Counting`, `Audit`, `AuditPlan`, `AuditLaws`). Its products of counters are
  the sizes of relations between workloads, and its counts are those of the live compiler.
- **Duplicate-field scanner** (`JsonScan`), over a stream of JSON tokens.
- **Readings** (`TextReading`, `AddressReading`, `SelectorReading`, `RuleReading`, `PolicyReading`,
  `DocumentReading`, `SnapshotReading`, `InputReading`, `AuditReading`, `StatusReading`, and the
  last parts of `Network` and `EndToEnd`). Each says what an operation promises in terms of what was
  submitted alone: characters and digits, intervals of addresses, written clauses, submitted rules,
  stacks and documents, attempts. Beyond the texts that `TextReading` spells out they name none of
  the functions that specify the operations, and lemmas or contracts equate the two for all inputs:
  which snapshots, documents and metadata are accepted, what the policy says about a packet, what a
  snapshot says of its workloads and links, what every number of an audit plan counts (`Sizes`), and
  what is published and installed after a run.

`Ordering` holds sorting and the unique ascending listing of a set, on which all canonical forms
rest.

Go maps are finite maps; slices are sequences, except the one that is compacted in place, which is
an array. `SHA-256` over an encoded value is an injective constructor applied to that value. An
error is the absence of a result: the model says when an operation fails, not with which text.

## Findings

The following hold of the code and are stated where the lemmas are:

- The canonical text of a selector can be longer than the selector, because a blank is printed where
  none was submitted (`internal/policy/selector.go:16`, `internal/policy/selector.go:146`), and then
  exceeds the limit of 1024 bytes that parsing it again applies. The live compiler then refuses the
  policy that `buildSnapshot` normalised (`MetadataLaws.PipelineCannotGetStuck`; for every snapshot
  of the input in `Overlong.CompilerRefusesNormalPolicy`), normalising twice fails
  (`DocumentLaws.NormalizeTwice`; for the document in `Overlong.NormalisingTwiceFails`), and the
  audit planner, which drops the error (`internal/policy/plan.go:219`), takes the selector to match
  everything (`AuditLaws.PlannerReadsSelectorsThatFit`). `PipelineCannotGetStuck`, `NormalizeTwice`
  and `PlannerReadsSelectorsThatFit` give the exact conditions.
- Label maps with two keys that differ only by case and carry different values have a lower-cased
  form that depends on map iteration order (`Labels.LoweringIsDetermined`,
  `MetadataLaws.CombiningIsDetermined`). The workloads of a snapshot then depend on it
  (`MetadataLaws.WorkloadsAreDetermined`, an if-and-only-if), and so can the plan:
  `LabelChoice.LabelOrderChangesVerdict` has a server with labels `A=x` and `a=y`, a client on
  another host with `a=x`, one rule that denies from `a=x` to `a=x`, and two snapshots of which one
  drops a request that the other lets pass. Whether the compiler accepts a snapshot does not depend
  on it (`MetadataLaws.MetadataDeterminesAcceptance`).
- `README.md:79` of the repository calls links bidirectional. That is true of the audit planner
  only; the live compiler follows them from source to target (`AuditLaws.LinkedIsLiveBothWays`
  relates the two).
- Cluster-wide enforcement can fail when application workloads on different hosts share an address:
  a host drops what the policy allows to reach the workload on the other. Given the rules,
  enforcement holds for every choice of actions, ports, order and default exactly when the hosts
  behind every address agree on each rule (`Cluster.HostsEnforceExactly`). One host per address is
  enough (`Cluster.OneHostAgrees`) and not needed: of the two topologies in
  `Cluster.SharedAddressesCanDisagree`, where the twins are in one stack or in two, only the second
  fails.
- A service is listed under the trimmed name of its stack
  (`internal/enforcement/metadata.go:535-537`), and a bare link is looked up under the name as it is
  (`internal/enforcement/metadata.go:539-549`). A bare name finds the service of its own stack if
  and only if the stack name is trimmed (`LinkNames.BareNameResolves`); otherwise, if the stack name
  has no slash, the link is dropped without an error (`LinkNames.BareNameInTable`,
  `LinkNames.UntrimmedStackLinksNothing`).
- Variants of a service that compare equal are sorted stably, so the one listed first lends its
  labels and other fields. The order in the document does not matter exactly when those variants
  agree on all fields but containers and system (`MetadataOrder.VariantOrderIsIrrelevant`), and it
  can matter (`MetadataOrder.VariantOrderCanMatter`).
- `sameWorkloadIdentity` takes a missing label on the right for an empty one
  (`SnapshotBuilder.SameIdentityIsEquality` says when that is equality); in `buildSnapshot` the
  difference never shows, because a container met twice belongs to two services
  (`SnapshotBuilder.OtherService`).

## Model

| member | source | states |
|---|---|---|
| Compiler.SortAddresses | internal/enforcement/compiler.go:317-318 | the result is sorted by address and has the elements of the input: the comparison is total, so the unstable sort has one outcome |
| Compiler.Compact | internal/enforcement/compiler.go:319-325 | compacting in place over the front of the same array yields the sorted input without immediate repetitions, whatever the writes overtake |
| Compiler.CompactedIsListing | internal/enforcement/compiler.go:313-326 | dropping immediate repetitions from a sorted sequence gives the one strictly ascending listing of its elements |
| Compiler.UniqueAddresses | internal/enforcement/compiler.go:313-326 | the result is the strictly ascending listing of the set of its elements, whatever their order and number; the input is untouched |
| Compiler.AppendPort | internal/enforcement/compiler.go:293-309 | one encoded port adds a rule per protocol it stands for, nothing for an unreadable number |
| Compiler.AppendAddressRule | internal/enforcement/compiler.go:278-311 | adds the rules of the block of source and destination sets: none if one is empty, one without ports, else one per port and protocol |
| Compiler.AppendGroups | internal/enforcement/compiler.go:129-132 | the groups are emitted by ascending key, each as its block |
| Compiler.GroupByStack | internal/enforcement/compiler.go:102-111 | the groups are the application workloads of every stack, all and local ones |
| Compiler.GroupByService | internal/enforcement/compiler.go:113-122 | the groups are the application workloads of every primary service, all and local ones |
| Compiler.GroupByLabel | internal/enforcement/compiler.go:228-242 | the groups are the application workloads of every value of the label, all and local ones |
| Text.SortedKeys | internal/enforcement/compiler.go:337-353 | the keys of a map, drained in any order and sorted, are the ascending listing of the key set |
| Compiler.CompileWithin | internal/enforcement/compiler.go:94-134 | adds the blocks of the within rule in key order; fails exactly for an unknown form |
| Compiler.ReverseLinks | internal/enforcement/compiler.go:145-153 | the table holds for every link target the set of its sources, for every order of map iteration; also for container links |
| Compiler.IndexByService | internal/enforcement/compiler.go:137-143 | the index lists, per primary service, its application workloads |
| Compiler.IndexByID | internal/enforcement/compiler.go:170-173 | the index holds every workload under its identifier |
| Compiler.ServiceSources | internal/enforcement/compiler.go:157-161 | the sources collected for a target are those of all its source services, in any order of iteration |
| Compiler.ContainerSources | internal/enforcement/compiler.go:188-194 | the sources collected for a target container are its application source containers, in any order of iteration |
| Compiler.CompileServiceLinks | internal/enforcement/compiler.go:137-168 | adds the directed blocks of all service links in order of target |
| Compiler.CompileContainerLinks | internal/enforcement/compiler.go:170-196 | adds the directed blocks of all container links in order of target |
| Compiler.CompileLinked | internal/enforcement/compiler.go:136-198 | adds the blocks of service links, then of container links, from source to target only |
| Compiler.SelectBetween | internal/enforcement/compiler.go:201-219 | the addresses collected are those of the application workloads for which the matcher answered yes, all and local, each with an answer its labels allow; fails exactly when there is an application workload and the selector is refused |
| Compiler.SelectDirected | internal/enforcement/compiler.go:250-273 | the addresses collected are those of the sources and of the local destinations for which the matcher answered yes, each with an answer its labels allow; fails exactly when a selector that is evaluated is refused |
| Compiler.CompileBetween | internal/enforcement/compiler.go:200-248 | adds a block the selector allows, or the blocks of the label groups; fails exactly when the selector has to be evaluated and is refused |
| Compiler.CompileDirected | internal/enforcement/compiler.go:250-276 | adds a block the two selectors allow, from sources to local destinations; fails exactly when a selector that has to be evaluated is refused |
| Compiler.GatherWorkloads | internal/enforcement/compiler.go:32-49 | refuses exactly invalid, foreign and duplicate workloads; collects system and local application addresses and counts the local applications |
| Compiler.CompileRule | internal/enforcement/compiler.go:60-75 | one turn of the rule loop: blocks the rule may emit, or failure exactly when the rule is not accepted |
| Compiler.CompileAllRules | internal/enforcement/compiler.go:58-79 | all rules in submitted order, each with blocks it may emit, counting those that add nothing; fails exactly when some rule is not accepted |
| Compiler.AppendSystems | internal/enforcement/compiler.go:51-56 | puts the rule for system sources in front, if there are any |
| Compiler.AppendDefault | internal/enforcement/compiler.go:81-86 | puts the default rule for local applications at the end, if there are any |
| Compiler.Compile | internal/enforcement/compiler.go:17-93 | succeeds exactly on compilable snapshots: known host, identified workloads with addresses between the base and the end of the IPv4 subnet, known forms of rule with readable selectors; the plan has the base of the subnet, the counts of the snapshot, its default action and its own digest; for a normal policy and labels with one lower-cased form it decides every packet as the written policy says and counts the rules that relate nobody; it is one of the plans that the answers of the selector matcher allow |
| Network.ContainsIsInside | internal/enforcement/compiler.go:36 | an address is contained in an IPv4 prefix of length b if and only if it is at least the largest multiple of 2^(32-b) not above the prefix address, and less than that plus 2^(32-b) |
| Network.MaskedIsBase | internal/enforcement/compiler.go:26 | masking moves the address to that multiple and keeps the length |
| PolicyReading.CompilableIsAccepted | internal/enforcement/compiler.go:17-93 | the compiler accepts a snapshot if and only if it is compilable, read off the snapshot |
| PolicyReading.VerdictAsRead | internal/enforcement/compiler.go:51-86 | the verdict on a packet is that of the policy read off workloads, links and the text of selectors and ports: system sources pass, then the first rule that connects source and destination on the port, then the default at a local application |
| PolicyReading.OneVerdict | internal/enforcement/compiler.go:51-86 | the reading gives one verdict |
| PolicyReading.PossiblePlanCounts | internal/enforcement/compiler.go:87-93 | every plan the compiler may return has the counts, base address, default action and digest that the snapshot says |
| PolicyReading.PlanAsRead | internal/enforcement/compiler.go:17-93 | the plan of a snapshot with a normal policy decides every packet as read and counts the rules that connect nobody |
| Choices.OnePossiblePlan | internal/enforcement/compiler.go:17-93 | when the lower-casing of labels has one outcome there is one possible plan, the plan function of the snapshot |
| ChoiceMeaning.PossiblePlansAreAnswers | internal/enforcement/compiler.go:200-276 | a plan is possible if and only if it is compiled from answers of the matcher that the labels allow |
| ChoiceMeaning.PossiblePlanMeansAnswers | internal/enforcement/compiler.go:17-276 | for a normal policy, every possible plan decides every packet as the policy does, read directly under such answers |
| ChoiceMeaning.AnswersHavePossiblePlan | internal/enforcement/compiler.go:17-276 | and for all such answers there is a possible plan that does |
| Topology.PortsOfText | internal/enforcement/compiler.go:293-309 | a canonical port stands for its number with its protocol, or with both in the order tcp, udp |
| Topology.PortsOfEncoded | internal/enforcement/compiler.go:293-309 | any other text stands for nothing unless a number up to 65535 comes before its first slash; a text after that slash is the protocol unless it has a slash itself |
| Meaning.OnePort | internal/enforcement/compiler.go:293-309 | the port matches of a canonical port admit exactly the packets the port names |
| Meaning.EmitDecides | internal/enforcement/compiler.go:278-311 | the rules emitted for a block decide its packets on admitted ports and no others |
| Meaning.KeyedMeaning | internal/enforcement/compiler.go:102-132 | the blocks emitted per key cover exactly the address pairs of workloads the key relates, for groups and for links |
| Meaning.SelectorMeaning | internal/enforcement/compiler.go:201-222 | a selector block covers exactly the pairs of a selected source and a selected local target |
| Meaning.BlocksMeaning | internal/enforcement/compiler.go:94-276 | the blocks of a rule, of any form, cover exactly the address pairs of workloads the rule relates |
| Meaning.RulesDecide | internal/enforcement/compiler.go:58-79 | the first match among the compiled rules is the action of the first submitted rule that applies |
| Meaning.CompilationPreservesMeaning | internal/enforcement/compiler.go:17-311 | for every snapshot, normal policy and packet, first match over the compiled plan equals the direct reading of the policy |
| Cluster.OnlyTheTargetDrops | internal/enforcement/compiler.go:43-48 | a host other than that of a local application at the destination never drops |
| Cluster.TargetHostDecides | internal/enforcement/compiler.go:45-86 | when the hosts behind every address agree on every rule, each host with an application workload at the destination decides as the policy without locality does |
| Cluster.HostsEnforceClusterPolicy | internal/enforcement/compiler.go:45-86 | when the hosts behind every address agree on every rule, a packet passes all hosts exactly when the policy without locality allows it |
| Cluster.DisagreementShows | internal/enforcement/compiler.go:45-86 | when they disagree on a rule, some packet allowed by a policy made of that rule is dropped by a host |
| Cluster.HostsEnforceExactly | internal/enforcement/compiler.go:45-86 | the hosts enforce every normal policy that can be made of some rules, by choice of actions, ports, order and default, if and only if the hosts behind every address agree on each rule |
| Cluster.OneHostAgrees | internal/enforcement/compiler.go:45-86 | when application workloads at one address share a host, the hosts agree on every rule |
| Cluster.SharedAddressesCanDisagree | internal/enforcement/compiler.go:45-86 | two workloads behind one address on two hosts: in one stack the hosts agree on the stack rule, in two stacks they do not and enforcement fails |
| Canonical.CompiledOutputIsCanonical | internal/enforcement/compiler.go:129-132 | reordering workloads and reordering or repeating links leaves acceptance, plan and digest unchanged |
| TextReading.AddressAsPrinted | internal/enforcement/firewall.go:104 | an address is printed in dotted decimal |
| TextReading.AddressesByWord | internal/enforcement/compiler.go:317-318 | IPv4 addresses are ordered by their words |
| Network.AddrTextIsInjective | internal/enforcement/firewall.go:104 | distinct addresses are written differently |
| Rendering.SetNameIsInjective | internal/enforcement/firewall.go:111 | distinct set numbers give distinct names, also beyond three digits |
| Rendering.KeyIsInjective | internal/enforcement/firewall.go:99-107 | the comma-terminated key determines the address list |
| Rendering.BuildKey | internal/enforcement/firewall.go:99-107 | yields the key of a list of IPv4 addresses of the subnet, and fails on any other |
| Rendering.SetTable.GetSet | internal/enforcement/firewall.go:98-119 | the name returned is that of the one set with these addresses, declared now if it is new; sets declared before keep their names |
| Rendering.RenderRules | internal/enforcement/firewall.go:127-154 | fails exactly when some rule cannot be rendered; else every rule is rendered with names that stand for its address sets |
| Rendering.RenderNFT | internal/enforcement/firewall.go:84-213 | succeeds exactly on plans with an IPv4 subnet, proper actions, addresses between its base and end and at least one in every rule, and ports other than 0 of tcp or udp; the program renders the plan, and its sets are numbered in order and none is declared twice |
| Rendering.RenderableAsRead | internal/enforcement/firewall.go:85-154 | which plans are renderable, spelled out |
| Rendering.SetNameCounts | internal/enforcement/firewall.go:111 | a set name is an s and the number in at least three digits |
| Rendering.StatementMatches | internal/enforcement/firewall.go:184-207 | a rendered line matches a packet exactly when the plan rule does |
| Rendering.RulesRun | internal/enforcement/firewall.go:184-209 | running the rendered lines ends as the first match among the plan rules says |
| Rendering.EnforceRuns | internal/enforcement/firewall.go:182-210 | the enforce chain returns established traffic and otherwise decides as the plan |
| Rendering.RenderingPreservesMeaning | internal/enforcement/firewall.go:84-213 | the emitted chains accept a packet exactly when it is established, outside the subnet, or allowed by the first match of the plan |
| Pipeline.CompiledPlanRenders | internal/enforcement/firewall.go:85-154 | every plan compiled from an accepted snapshot with a normal policy renders, and so does its fail-open plan |
| Pipeline.KernelEnforcesPolicy | internal/enforcement/firewall.go:84-213 | the kernel, running any rendering of the compiled plan, accepts a packet exactly when the policy, read directly, does not deny it |
| Pipeline.FailOpenDropsNothing | internal/enforcement/compiler.go:366-382 | the rendered fail-open table drops nothing |
| Pipeline.ReadyMeansEnforced | internal/enforcement/manager.go:70-126 | after any run, when "ready" is published the last attempt had a snapshot the compiler accepts, and if that has a normal policy and labels with one lower-cased form, the table is its plan and the kernel accepts a packet exactly when the policy, read directly, does not deny it |
| EndToEnd.ReadyEnforcesMetadata | internal/enforcement/manager.go:70-126 | the same for every snapshot built from metadata, which has a normal policy and such labels |
| EndToEnd.ReadyEnforcesAsRead | internal/enforcement/manager.go:70-126 | and read off the texts: the metadata is buildable, and the kernel accepts a packet exactly when it is established, or an end is outside the interval of the subnet, or the policy as it is written allows it |
| EndToEnd.MetadataPlanIsCompiled | internal/enforcement/manager.go:81-91 | an attempt on a snapshot built from metadata that has a plan has the plan function of the snapshot |
| Manager.Backend.Apply | internal/enforcement/firewall.go:25-45 | installs a rendering of the plan or changes nothing, and reports which |
| Manager.Manager.constructor | internal/enforcement/manager.go:52-55 | the state before the first attempt: starting, nothing applied |
| Manager.Manager.NoteFailure | internal/enforcement/manager.go:129-147 | the first locked section: counts the failure, and "starting" and "ready" become "degraded" |
| Manager.Manager.RecordFailure | internal/enforcement/manager.go:128-173 | the states other goroutines see are those of the failure trace: degraded first, then possibly the fail-open table, then its publication |
| Manager.Plan | internal/enforcement/manager.go:81-91 | the plan of an attempt: none when metadata or compiler fail, else one the compiler may return for the snapshot |
| Manager.ReplyDeterminesPlan | internal/enforcement/manager.go:81-91 | when the lower-casing of labels has one outcome, that is the plan function of the snapshot |
| Manager.Manager.Reconcile | internal/enforcement/manager.go:70-126 | the states other goroutines see are those of the attempt trace; the attempt is the one that comes of the reply of metadata, clock and nft |
| Manager.Manager.Status | internal/enforcement/manager.go:175-179 | returns the published status |
| StatusReading.StatusAsRead | internal/enforcement/manager.go:70-173 | after every run, all published fields and the table in force are those of the plan of the latest success, with FailureCount the number of the others: suspending enforcement changes the digest, the default action to allow, the firewall rule count to 0 and FailOpen, and nothing else; before the first success everything is zero |
| StatusReading.RunAsRead | internal/enforcement/manager.go:81-126 | an attempt succeeds if and only if it has a plan that nft takes, or that of the latest success with enforcement not suspended since |
| ManagerRuns.StepKeepsInv | internal/enforcement/manager.go:70-173 | every attempt keeps the invariant that ties table, digest and status to what is remembered |
| ManagerRuns.InvAlways | internal/enforcement/manager.go:70-173 | the invariant holds after every run |
| ManagerRuns.TableIsDetermined | internal/enforcement/manager.go:70-173 | after every run the table is untouched before the first success, else the remembered plan or its fail-open form, as FailOpen says; the applied and published digests are its digest |
| ManagerRuns.Remembered | internal/enforcement/manager.go:107-173 | after every run the remembered plan is that of the latest successful attempt, "ready" is published exactly when the last attempt succeeded, and FailOpen exactly when an attempt since the latest success suspended enforcement |
| ManagerRuns.TableOfRun | internal/enforcement/manager.go:70-173 | so the table is untouched before the first success, else the plan of the latest success, or its fail-open form if enforcement has been suspended since |
| ManagerRuns.Run | internal/enforcement/manager.go:38-68 | refuses intervals below a second and fail-open times below the interval; else reconciles once per reply, and the states seen and left are those of the run of these attempts |
| ManagerRuns.ReadersAreNeverMisled | internal/enforcement/manager.go:175-179 | in every state visible between two steps of any run, "ready" means that an enforcing table is installed, and FailOpen that "degraded" is published |
| ManagerRuns.Bookkeeping | internal/enforcement/manager.go:107-147 | FailureCount counts the failed attempts, LastSuccess is the start of the latest success, LastAttempt of the latest attempt |
| ManagerRuns.FailuresKeepTheTable | internal/enforcement/manager.go:128-154 | a failing attempt that does not suspend enforcement never changes the table |
| ManagerRuns.OpeningIsEarned | internal/enforcement/manager.go:152-173 | a fail-open table is installed only by a failing attempt that starts at least FailOpenAfter after the latest success |
| ManagerRuns.OpensOncePerOutage | internal/enforcement/manager.go:143-171 | between two suspensions of enforcement there is a success |
| ManagerRuns.OpensInTime | internal/enforcement/manager.go:152-161 | if every attempt fails, attempts start at most G apart and nft takes the table, one that starts before LastSuccess+FailOpenAfter+G suspends enforcement |
| ManagerRuns.SuccessRestores | internal/enforcement/manager.go:92-125 | the first success after a suspension installs its own plan: its digest is never the fail-open one |
| Selector.ParseSetValues | internal/policy/selector.go:103-117 | the values of a set clause: refused exactly when one is invalid or repeated, else cleaned and sorted |
| Selector.ParseSelectorClause | internal/policy/selector.go:99-139 | the parsed clause, or refusal, for the four patterns |
| Selector.SplitSelector | internal/policy/selector.go:62-97 | the loop over start and depth splits at the commas outside parentheses, as the recursive reading of the text does, and refuses the same texts |
| Selector.ParseClauses | internal/policy/selector.go:40-54 | the clauses of the parts in order; refused exactly when one is no clause or two have one canonical text |
| Selector.Parse | internal/policy/selector.go:28-60 | the canonical text and the clauses in that order, or refusal |
| Selector.SearchStrings | internal/policy/selector.go:184-187 | binary search finds the first element not below the target |
| Selector.ContainsString | internal/policy/selector.go:184-187 | on ascending values, binary search agrees with membership |
| Selector.Matches | internal/policy/selector.go:152-182 | holds exactly when for every clause the key is present and its value is none of those listed for != and notin, one of them for = and in, anything for a bare key |
| SelectorReading.AcceptedIsReadable | internal/policy/selector.go:28-60 | an expression is accepted if and only if it can be read as written clauses, no two of which say the same, within the limits |
| SelectorReading.ReadingMeans | internal/policy/selector.go:152-182 | under every reading, the clauses hold of labels as their text says: in and = need a label with one of the written values, notin and != one with none of them, a bare key any, letter case aside, and a list says the conjunction |
| TextReading.LowerAsRead | internal/policy/selector.go:99-139 | lower-casing takes each capital to the letter at its place in the alphabet and leaves every other character |
| TextReading.TrimAsRead | internal/policy/selector.go:80 | trimming takes off white space on both sides, and all of it |
| TextReading.StrLessAsRead | internal/policy/selector.go:54-58 | strings are compared by the first difference, and a proper prefix comes first |
| TextReading.KeyAsRead | internal/policy/selector.go:11-14 | a key is one to 127 letters, digits and ._/- and starts with a letter or digit |
| TextReading.ValueAsRead | internal/policy/selector.go:15 | a value is one to 256 of these and colons |
| TextReading.ClauseAsPrinted | internal/policy/selector.go:141-150 | the five forms of canonical clauses |
| TextReading.NumberAsRead | internal/policy/validate.go:313-322 | a run of digits is read by its decimal places |
| TextReading.NumberAsWritten | internal/policy/validate.go:322 | a number is written in digits of that value, without leading zeros |
| SelectorLaws.ClauseRoundTrip | internal/policy/selector.go:99-150 | parsing the canonical text of a clause gives the clause |
| SelectorLaws.ClauseTextIsInjective | internal/policy/selector.go:141-150 | distinct clauses have distinct canonical text |
| SelectorLaws.ClauseIsValid | internal/policy/selector.go:99-139 | an accepted clause is lower-case and sorted, and its canonical text at most one byte longer, and only for a set clause |
| SelectorLaws.ScanCanonical | internal/policy/selector.go:62-97 | splitting the canonical text of clauses gives back their texts |
| SelectorLaws.PrintThenParse | internal/policy/selector.go:28-150 | canonical text is read back, to the same text and clauses, exactly when it is within 1024 bytes |
| SelectorLaws.ParsedIsValid | internal/policy/selector.go:28-60 | what parsing returns is valid; its text exceeds the expression by at most one byte per set clause |
| SelectorLaws.ParseThenParse | internal/policy/selector.go:28-60 | parsing the canonical text of an accepted expression succeeds exactly when it is within 1024 bytes, as for every expression up to 992, and returns the same |
| SelectorLaws.OverlongCanonical | internal/policy/selector.go:16-29 | a set clause of 1025 canonical bytes is accepted when written without the blank, and its canonical text refused |
| SelectorLaws.CanonicalTextCanBeRefused | internal/policy/selector.go:16-29 | such an expression exists |
| Labels.LowerLabels | internal/enforcement/metadata.go:527-533 | returns one of the lower-cased maps the iteration order allows |
| Labels.LoweringIsDetermined | internal/enforcement/metadata.go:527-533 | lower-casing has one outcome if and only if no two keys that differ by case carry values that differ by more |
| Labels.MatchSelector | internal/policy/selector.go:192-203 | refuses exactly expressions that cannot be read; else the answer is what every reading of the text says of one entry for each key, and so of the labels themselves if no two keys differ only by case with different values |
| Labels.AnswerReads | internal/policy/selector.go:192-203 | every answer is what the text says of some choice of one entry for each key |
| Labels.SelectsAsRead | internal/policy/selector.go:192-203 | on unambiguous labels the answer is what every reading says of them |
| Labels.AnswerIsDetermined | internal/policy/selector.go:192-203 | on labels with one lower-cased form there is one answer |
| Labels.CanonicalSelectsTheSame | internal/policy/selector.go:28-60 | canonical text within the limit selects what the expression selects |
| Spelling.ClauseIgnoresCase | internal/policy/selector.go:99-139 | a clause reads the same in any letter case |
| Spelling.TextIgnoresOrderAndCase | internal/policy/selector.go:53-59 | the canonical text depends on the set of clauses only |
| Grammar.ClauseGrammar | internal/policy/selector.go:99-139 | a text is read as a clause if and only if it is one of the ways to write it: key, operator = or == or != with blanks around it, or in and notin with blanks, values in any order and case and blanks around each, or the bare key |
| Grammar.SelectorGrammar | internal/policy/selector.go:28-97 | an expression is read as a list of clauses if and only if it is such writings, with blanks around them, joined by commas, within the limits and without repetition |
| Grammar.WrittenExpressionIsRead | internal/policy/selector.go:28-97 | every such writing of distinct clauses within the limits is read as these clauses, in order |
| Grammar.WrittenAlikeIsTheSame | internal/policy/selector.go:28-60 | two writings of the same clauses, in any order, are accepted or refused together, with one canonical text |
| Grammar.SameTextIsWrittenAlike | internal/policy/selector.go:53-60 | and accepted expressions with one canonical text are two writings of the same clauses |
| Grammar.CanonicalTextTells | internal/policy/selector.go:53-60 | canonical texts of valid clause lists are equal only for equal lists |
| Spelling.SpellingDoesNotMatter | internal/policy/selector.go:28-60 | expressions that differ in letter case, order of clauses, blanks around or inside clauses, == for = or order of set values are refused together or have one canonical text |
| Spelling.SpellingIsExact | internal/policy/selector.go:28-60 | two accepted expressions have one canonical text if and only if they are spellings of one another |
| Spelling.SpellingsOfOneClause | internal/policy/selector.go:99-139 | examples: blanks around an equality sign and its doubling, and case, blanks and order in a set clause |
| Spelling.PortSpellingDoesNotMatter | internal/policy/validate.go:307-338 | port lists that differ in order or letter case are refused together or have one canonical form |
| Spelling.RuleSpellingDoesNotMatter | internal/policy/validate.go:211-283 | spellings of one rule, its selectors spelled in any of these ways and its ports in any order and case, are refused together or have one normal form |
| Policy.NormalizePorts | internal/policy/validate.go:307-338 | refuses exactly lists that are too long, or with an invalid or repeated port; else the ascending listing of the canonical ports |
| Policy.NormalizeRule | internal/policy/validate.go:211-283 | the normal form of the rule, or refusal, by the number of forms and the parts of each |
| Policy.NormalizePolicy | internal/policy/validate.go:288-305 | refuses exactly what is not accepted; else every rule in its place is in normal form |
| RuleReading.PortAsRead | internal/policy/validate.go:312-329 | a port is canonical for a text if and only if it prints a number from 1 to 65535 that the text writes in decimal, alone or with tcp or udp in any letter case |
| RuleReading.NormalPortsAsRead | internal/policy/validate.go:307-338 | a list is normal for submitted ports if and only if it has the canonical port of each, no others, as many, ascending |
| RuleReading.SelectorAsRead | internal/policy/selector.go:28-60 | a text is canonical for an expression if and only if it joins the texts of the clauses that some reading of it stands for, each once, ascending |
| RuleReading.RuleAsRead | internal/policy/validate.go:211-283 | a rule is normal for a submitted one if and only if action and form are kept and every part is replaced by its canonical text; without such a rule the submitted one is refused |
| RuleReading.PolicyAsRead | internal/policy/validate.go:288-305 | and so for policies of at most 256 rules, rule by rule |
| Policy.PortTextIsInjective | internal/policy/validate.go:322-329 | canonical ports determine number and protocol |
| Policy.CanonicalPortOf | internal/policy/validate.go:313-329 | a canonical port is its own canonical form and splits into its parts |
| Policy.NormalPortsAre | internal/policy/validate.go:307-338 | normalised ports are canonical, ascending and as many as submitted |
| Policy.NormalPortsFixed | internal/policy/validate.go:307-338 | normalising normal ports returns them |
| Policy.NormalRuleIs | internal/policy/validate.go:211-283 | what normalizeRule returns is in normal form |
| Policy.NormalRuleFixed | internal/policy/validate.go:211-283 | a normal rule is accepted again exactly when its selectors are within the limit, and then returned |
| Document.NormalizeLabels | internal/policy/validate.go:173-192 | refuses exactly label maps that are too large, invalid or have case-insensitive duplicates; the result is the lower-cased map for every order of iteration |
| Document.NormalizeIDList | internal/policy/validate.go:194-209 | refuses exactly lists that are too long, invalid or repeat; else the ascending listing |
| Document.NormalizeStacks | internal/policy/validate.go:47-59 | refuses exactly invalid and repeated identifiers; else the stacks in ascending order, and a table of them |
| Document.NormalizeService | internal/policy/validate.go:63-81 | one service: refused exactly when not acceptable by itself, else in canonical form |
| Document.CleanAllServices | internal/policy/validate.go:61-84 | the first service loop: refuses exactly unacceptable and repeated services |
| Document.CheckServices | internal/policy/validate.go:85-100 | the second service loop: passes exactly when every primary and every link resolves as it must |
| Document.LabelsConflict | internal/policy/validate.go:126-132 | finds a conflict exactly when a label has another value than inherited |
| Document.NormalizeWorkload | internal/policy/validate.go:106-137 | one workload: refused exactly when it is unacceptable, its service does not fit or its labels conflict |
| Document.CleanAllWorkloads | internal/policy/validate.go:103-143 | the first workload loop: refuses exactly unacceptable and repeated workloads, and finds whether one is local |
| Document.CheckWorkloads | internal/policy/validate.go:147-156 | the second workload loop: passes exactly when every link resolves to another workload |
| Document.Normalize | internal/policy/validate.go:24-171 | succeeds exactly on accepted documents, and returns the canonical form |
| DocumentReading.AcceptableIsAccepted | internal/policy/validate.go:24-171 | a document is accepted if and only if it is acceptable, read off the submitted entities: identifiers, sizes, labels, references; every primary another service of the same stack without one itself |
| DocumentReading.NormalFormKeeps | internal/policy/validate.go:24-171 | in the canonical form every submitted stack, service and workload is there once, with the same references, the lower-cased entries of its labels and the same links, nothing else is there, and everything is in the order of identifiers |
| DocumentLaws.NormalFormIsUnique | internal/policy/validate.go:24-171 | a document has one canonical form |
| DocumentLaws.NormalFormIsStructured | internal/policy/validate.go:24-171 | what normalize returns is canonical in every part, and all its references resolve |
| DocumentLaws.NormalFormFixed | internal/policy/validate.go:24-171 | a canonical document is accepted again if and only if its selectors are within the limit, and is then returned |
| DocumentLaws.NormalizeTwice | internal/policy/validate.go:24-171 | normalising twice succeeds under that same condition, and changes nothing the second time |
| Overlong.NormalisingTwiceFails | internal/policy/validate.go:24-171 | an accepted document whose canonical form is refused |
| DocumentLaws.OrderDoesNotMatter | internal/policy/validate.go:59-157 | the order of stacks, services and workloads changes neither acceptance nor the canonical form |
| DocumentLaws.DocumentSpellingDoesNotMatter | internal/policy/validate.go:173-338 | the letter case of labels and ports, the order of links and ports, and the spelling of selectors, blanks inside clauses included, change neither acceptance nor the canonical form |
| JsonScan.ScanJSONValue | internal/policy/decode.go:45-87 | the recursive scanner over the stateful decoder consumes and accepts as its recursive specification does |
| JsonScan.ScanIsExact | internal/policy/decode.go:45-87 | on the tokens of any JSON value followed by anything it accepts exactly when no object at any depth repeats a key, and leaves what follows |
| JsonScan.NoDuplicatesAsRead | internal/policy/decode.go:45-87 | that is: no part of the value, however deep, is an object with one key at two places |
| JsonScan.MembersAreExact | internal/policy/decode.go:56-75 | the member loop accepts exactly when the keys still to come differ from each other and from those seen, and every member value is accepted |
| JsonScan.ItemsAreExact | internal/policy/decode.go:76-83 | the item loop accepts exactly when every item is accepted |
| Views.AppendUnique | internal/enforcement/metadata.go:551-558 | appends the value unless it is present |
| Views.MergeFields | internal/enforcement/metadata.go:358-374 | fails exactly when a field has two non-empty values, else keeps the non-empty one |
| Views.MergeLabels | internal/enforcement/metadata.go:379-387 | fails exactly when a label has two values, else the union, for every order of iteration |
| Views.MergeContainerViews | internal/enforcement/metadata.go:357-395 | fails exactly when the views have two values for a field or label; else every named field, label and link of the merge is that of the first or second view as it must be |
| Views.FoldIsJoin | internal/enforcement/metadata.go:326-344 | merging views one after the other succeeds exactly when no two contradict each other, and gives their join |
| Views.MergeIsOrderIndependent | internal/enforcement/metadata.go:326-344 | any two orders of the same views fail together or merge to the same view |
| Views.JoinIsUnique | internal/enforcement/metadata.go:357-395 | views have at most one join |
| SnapshotBuilder.SelectDefaultNetwork | internal/enforcement/metadata.go:416-438 | succeeds exactly when one default network has a subnet, and returns it |
| SnapshotBuilder.CollectService | internal/enforcement/metadata.go:178-198 | one service variant: refused without identifier, beyond the limit or with a conflicting path, else filled in and recorded |
| SnapshotBuilder.CollectStack | internal/enforcement/metadata.go:173-199 | the services of one stack |
| SnapshotBuilder.CollectVariants | internal/enforcement/metadata.go:163-199 | the first loop: refuses exactly what is not acceptable; the variants, paths and system stacks are those of the input |
| SnapshotBuilder.AbsorbContainers | internal/enforcement/metadata.go:331-344 | the container map after some views and these is the merge of all of them, or they contradict each other for good |
| SnapshotBuilder.MergeVariants | internal/enforcement/metadata.go:326-345 | fails exactly when the variants are not of one service or some container has contradictory views |
| SnapshotBuilder.CanonicalizeServiceVariants | internal/enforcement/metadata.go:308-355 | succeeds exactly when the variants merge, with the canonical service |
| SnapshotBuilder.CanonicalServices | internal/enforcement/metadata.go:200-209 | every service is canonicalised, for every order of iteration |
| SnapshotBuilder.FindPrimaries | internal/enforcement/metadata.go:210-218 | the primary of every service, for every order of iteration |
| SnapshotBuilder.AddServiceLink | internal/enforcement/metadata.go:225-231 | one link of one variant is resolved by key, else by value, and recorded |
| SnapshotBuilder.AddLink | internal/enforcement/metadata.go:230 | adds one link and keeps every list free of repetitions |
| SnapshotBuilder.AddVariantLinks | internal/enforcement/metadata.go:224-232 | the links of one variant, in any order of iteration |
| SnapshotBuilder.AddServiceLinks | internal/enforcement/metadata.go:221-233 | the links of all variants of one service |
| SnapshotBuilder.ServiceLinks | internal/enforcement/metadata.go:220-234 | the service links are those declared by some variant, without repetition, for every order of iteration |
| SnapshotBuilder.SortLinks | internal/enforcement/metadata.go:560-564 | every list is sorted and keeps its elements |
| SnapshotBuilder.CombineLabels | internal/enforcement/metadata.go:253-256 | the labels are one of the combinations of lower-cased service and container labels |
| SnapshotBuilder.SameWorkloadIdentity | internal/enforcement/metadata.go:397-414 | compares all fields, and labels with a missing one read as empty |
| SnapshotBuilder.SameIdentityIsEquality | internal/enforcement/metadata.go:397-414 | that is equality if and only if every empty label on the left is present on the right |
| SnapshotBuilder.OtherService | internal/enforcement/metadata.go:271-274 | a container met again takes part under another service, so the two workloads differ there |
| SnapshotBuilder.MakeWorkload | internal/enforcement/metadata.go:253-270 | the workload of an eligible container: stack, service, primary, system flag and combined labels |
| SnapshotBuilder.AddContainerLinks | internal/enforcement/metadata.go:281-285 | adds the non-empty links of the container |
| SnapshotBuilder.BuildServiceWorkloads | internal/enforcement/metadata.go:241-286 | the container loop of one service: after it exactly its eligible containers have been added |
| SnapshotBuilder.BuildWorkload | internal/enforcement/metadata.go:241-286 | one eligible container becomes one workload and its links are recorded; a conflict or one too many ends the loop |
| SnapshotBuilder.BuildWorkloads | internal/enforcement/metadata.go:236-287 | succeeds exactly when no container takes part twice and the limit is kept; every participant has its workload and links |
| SnapshotBuilder.DrainWorkloads | internal/enforcement/metadata.go:288-294 | the workloads of the map, each once, sorted by address; those that share one come in an order that depends on iteration |
| SnapshotBuilder.BuildSnapshot | internal/enforcement/metadata.go:153-306 | succeeds exactly on acceptable inputs, with one of the snapshots the input admits; no workload comes before one with a lower address |
| InputReading.AcceptanceAsRead | internal/enforcement/metadata.go:153-306 | an input is acceptable if and only if it is buildable, read off the documents: one usable default network, rules that have a normal form, identified stacks and services within the limits, one service per path, one stack per service, views of a container that agree, and no container that takes part under two services |
| InputReading.SnapshotHeadAsRead | internal/enforcement/metadata.go:153-306 | subnet, host and policy of every snapshot are those of the input, the policy in normal form |
| SnapshotReading.SnapshotWorkloadsAsRead | internal/enforcement/metadata.go:236-294 | the workloads of every snapshot are the containers that take part, one each: with the host, address and labels that the submitted views have, the stack of the variants, the primary that the first variant names, and system exactly if the last stack listed under its stack id is, or some variant of its service, or some view of it |
| SnapshotReading.SnapshotLinksAsRead | internal/enforcement/metadata.go:210-303 | the links of every snapshot are those declared: by some variant of a service under the primary, to a service its key or else its value leads to by path; by some view of a container that takes part; ascending |
| SnapshotReading.LeadOf | internal/enforcement/metadata.go:308-322 | the variant that stands for a service is the first by precedence, own primaries before others, then by path, then by position |
| AddressReading.AddressIsRead | internal/enforcement/metadata.go:248 | a text is read as an address if and only if it is its dotted decimal, four numbers to 255 without leading zeros |
| MetadataLaws.CombiningIsDetermined | internal/enforcement/metadata.go:253-256 | combining labels has one outcome if and only if the labels of the container are unambiguous, and so are those of the service that it does not override |
| MetadataLaws.SnapshotIsDetermined | internal/enforcement/metadata.go:153-306 | all snapshots of one input have the same policy and sorted links, and up to order the same workloads when their labels have one outcome |
| MetadataLaws.SnapshotLabelsAreDetermined | internal/enforcement/metadata.go:253-256 | labels in a snapshot are lower-case, so evaluating selectors has one outcome |
| MetadataLaws.MetadataDeterminesAcceptance | internal/enforcement/compiler.go:17-93 | all snapshots of one input are accepted by the compiler or all rejected, whatever the labels |
| MetadataLaws.MetadataDeterminesPlan | internal/enforcement/compiler.go:17-93 | all snapshots of one input are rejected together or accepted together, and then compile to one plan if the labels of every participating container have one outcome |
| MetadataLaws.LabelsMustBeFixed | internal/enforcement/metadata.go:253-256 | the condition on labels is needed: otherwise the input has two snapshots with different workloads |
| MetadataLaws.WorkloadsAreDetermined | internal/enforcement/metadata.go:253-256 | all snapshots of an input have one multiset of workloads if and only if the labels of every participating container have one outcome |
| Example.OutcomeIsSnapshot | internal/enforcement/metadata.go:153-306 | buildSnapshot may return either outcome for a container with labels A=x and a=y, whatever the rule |
| LabelChoice.LabelOrderChangesVerdict | internal/enforcement/metadata.go:527-533 | an input with two accepted snapshots, different plans, and a packet from another host that one plan denies and the other allows |
| LabelChoice.TwinsAreNotFixed | internal/enforcement/metadata.go:253-256 | so the labels of that input do not have one outcome |
| MetadataLaws.PipelineCannotGetStuck | internal/enforcement/metadata.go:239-305 | a snapshot built from metadata compiles exactly when the host is known and every evaluated selector is within the limit; then plan and fail-open plan render |
| Overlong.CompilerRefusesNormalPolicy | internal/enforcement/compiler.go:201-276 | an input with a known host that has a snapshot, and every snapshot of it is refused by the compiler |
| MetadataOrder.SameContextSameWorkloads | internal/enforcement/metadata.go:236-294 | whether workloads fit, which they are and how containers link depend on the containers of a service only up to identity fields, labels, running, system and non-empty links |
| MetadataOrder.CanonicalServicesCompare | internal/enforcement/metadata.go:308-355 | two orders of the same variants give the same canonical service, up to that, exactly when the variants sorted first agree on everything but containers and system |
| MetadataOrder.VariantOrderIsIrrelevant | internal/enforcement/metadata.go:308-355 | the order of the variants never changes whether they merge; it leaves the canonical service unchanged, up to that, if and only if the minimal variants agree on everything but containers and system |
| MetadataOrder.VariantOrderCanMatter | internal/enforcement/metadata.go:308-355 | two accepted documents that list the same two variants in different order and make different services of them |
| MetadataOrder.DocumentOrderIsIrrelevant | internal/enforcement/metadata.go:153-306 | under that condition for every service, listing stacks and variants in another order leaves the snapshots of an input unchanged |
| MetadataOrder.ReorderedIsRelisted | internal/enforcement/metadata.go:163-199 | reordering the stacks is such a listing, unless two stacks with one identifier differ in their system flag |
| LinkNames.LinkPathIsServicePath | internal/enforcement/metadata.go:535-549 | the path a bare name is looked up under is that of the service of this name in the same stack if and only if the stack name is trimmed |
| LinkNames.BareNameResolves | internal/enforcement/metadata.go:539-549 | a bare name resolves to the service of its own stack, for every table, if and only if the stack name is trimmed |
| LinkNames.BareNameInTable | internal/enforcement/metadata.go:535-549 | in the table of an input, for a stack name without a slash, it resolves to that service if the stack name is trimmed and to nothing if not |
| LinkNames.UntrimmedStackLinksNothing | internal/enforcement/metadata.go:220-234 | the bare links of a variant in an untrimmed stack without a slash declare nothing |
| Counting.ProductSize | internal/policy/plan.go:170-175 | a product of counters is the number of pairs |
| Counting.SumProducts | internal/policy/plan.go:170-175 | summed over the keys in any order, local count times count of all is the number of pairs that share a key |
| Audit.TabulateStacks | internal/policy/plan.go:101-104 | the system flag of every stack |
| Audit.TabulateServices | internal/policy/plan.go:105-114 | every service by identifier, and its root |
| Audit.AddServiceLinks | internal/policy/plan.go:180-187 | the links of one service join its root to the roots of its targets, both ways, not within one root |
| Audit.LinkServices | internal/policy/plan.go:177-188 | the table joins two roots exactly when a service under one links to a service under the other |
| Audit.LinkWorkloads | internal/policy/plan.go:189-195 | the table joins two workloads exactly when one links to the other |
| Audit.Overlay | internal/policy/plan.go:130-137 | the label loops: what is written later wins, in any order of iteration |
| Audit.Inherited | internal/policy/plan.go:128-137 | labels and root of a workload: those of its service, overwritten by its own labels, or only its own |
| Audit.Tabulate | internal/policy/plan.go:142-159 | counting one workload keeps all counters and tables in step with the workloads seen |
| Audit.MakeNode | internal/policy/plan.go:127-138 | a workload inherits the labels and root of its service and the system flag of its stack |
| Audit.CountStack | internal/policy/plan.go:145-148 | the counters per stack follow the workloads seen |
| Audit.CountRoot | internal/policy/plan.go:149-155 | the counters and lists per root follow the workloads seen |
| Audit.TabulateWorkloads | internal/policy/plan.go:127-160 | after the workload loop every counter is the size of its set, every table that of the workloads |
| Audit.DirectSources | internal/policy/plan.go:194-199 | the sources are the application workloads directly linked to the destination |
| Audit.AddRootSources | internal/policy/plan.go:200-206 | adds the application workloads whose root is linked to the root of the destination |
| Audit.SourcesAreLinked | internal/policy/plan.go:189-207 | both together are the workloads the linked relation has for the destination |
| Audit.CountLinked | internal/policy/plan.go:189-207 | the linked count is the size of the union of direct and root links over local destinations, each pair once |
| Audit.NewCompiler | internal/policy/plan.go:100-209 | the stack, service and linked counters are the sizes of their relations; the inventory counts are those of the workloads |
| AuditPlan.ClausesOrNone | internal/policy/plan.go:219 | with the error dropped, the clauses hold of labels exactly as the planner chooses: a refused expression chooses everything |
| AuditPlan.SelectorRelationships | internal/policy/plan.go:218-231 | the number of chosen workloads times the number of local ones among them |
| AuditPlan.GroupRelationships | internal/policy/plan.go:233-254 | the number of pairs that share a value of the label, and the number of values |
| AuditPlan.FromToRelationships | internal/policy/plan.go:256-272 | the number of chosen sources times the number of chosen local destinations |
| AuditPlan.Relationships | internal/policy/plan.go:50-74 | for every form of rule the count is the size of the relation of the rule |
| AuditPlan.CountRule | internal/policy/plan.go:43-67 | rules are counted by action and by form |
| AuditPlan.CountRules | internal/policy/plan.go:40-80 | the sums over all rules |
| AuditPlan.BuildPlan | internal/policy/plan.go:28-98 | succeeds exactly on accepted documents; all counts of the plan are those of the canonical form |
| AuditReading.PlanAsRead | internal/policy/plan.go:28-98 | every plan reports a document that says what was submitted: each number is the size of a set of workloads, rules, relationships (rule, source, local destination), port scopes (a relationship of a from/to rule and one of its ports, or one wildcard if it lists none) or label groups, by direct tests on the rules |
| AuditReading.CompilationAsRead | internal/policy/plan.go:40-80 | the estimates of a list of rules are the sizes of these sets |
| AuditReading.RuleCountsAsRead | internal/policy/plan.go:39-67 | the rule counts are the numbers of rules with each action and with each form, by tests on within, between, from and to |
| AuditReading.RelatesAsRead | internal/policy/plan.go:100-272 | what the planner counts as a pair of compiled workloads are the pairs of workloads of the document that the rule connects, by stack, group, links, labels or written selectors |
| AuditPlan.PlanIsDetermined | internal/policy/plan.go:28-98 | reordering or respelling a document, blanks inside selector clauses included, and any order of map iteration, leave the plan and its digest unchanged |
| AuditPlan.EstimatesFit | internal/policy/plan.go:75-80 | at most 2^32 relationships, 2^38 port scopes, 2^20 label groups and 256 zero matches, so no 64-bit counter overflows |
| AuditLaws.ChosenIsSelected | internal/policy/plan.go:218-224 | a selector that parses chooses a workload exactly when it selects its labels |
| AuditLaws.PlannerReadsSelectorsThatFit | internal/policy/plan.go:219 | the planner chooses what an expression means if and only if its canonical text is within the limit |
| AuditLaws.OverlongSelectorIsDropped | internal/policy/plan.go:219 | an accepted selector with a canonical text over the limit, as the planner reads it, chooses a workload without labels, which it does not select |
| AuditLaws.SameRelation | internal/policy/plan.go:163-168 | on every normal rule that is not a linked one and has its selectors within 1024 bytes, the planner and the live compiler relate the same workloads, if the workloads match and their labels are lower-case |
| AuditLaws.RuleCovers | internal/enforcement/compiler.go:278-311 | what the emitted rules cover is what the rule relates |
| AuditLaws.PlannerCountsWhatIsEnforced | internal/policy/plan.go:42-80 | on matching topologies, for every normal rule that is not a linked one and has its selectors within 1024 bytes, the relationship count is the number of address pairs the compiled rules cover, and zero exactly when none is compiled |
| AuditLaws.ZeroMatchesAgree | internal/policy/plan.go:77-79 | on matching topologies, over any list of normal rules that are not linked ones and have their selectors within 1024 bytes, the two zero-match counts are equal |
| AuditLaws.PlansAgree | internal/policy/plan.go:77-79 | on matching topologies, for one policy without linked rules and with selectors within 1024 bytes, RulesWithZeroMatches of the audit is ZeroMatchCount of the compiled plan |
| AuditLaws.LinkedIsSymmetric | internal/policy/plan.go:177-195 | the linked relation of the planner is symmetric |
| AuditLaws.LinkedIsLiveBothWays | internal/policy/plan.go:177-207 | for matching links and workloads it is the directed live relation taken in both directions, without service links inside one root |

## Left out

- HTTP requests, size limits and JSON decoding (`internal/enforcement/metadata.go:107-151`, `internal/enforcement/metadata.go:440-525`, `internal/policy/decode.go:11-43`): the model starts from decoded structures and from a stream of tokens.
- Running `nft`, the dry run and `tableExists` (`internal/enforcement/firewall.go:25-82`): installing is one step that commits or changes nothing, as the fate of the attempt says.
- The concrete syntax of the nft script (`internal/enforcement/firewall.go:156-212`): the program is its sets and chains; address, prefix and set-name texts are modelled where names and keys depend on them.
- SHA-256 and `json.Marshal`: injective by assumption.
- Go's regexp engine: the four selector patterns and the identifier pattern are written as matchers. Unlike `strings.TrimSpace`, the pattern `\s` does not know vertical tab, and the model keeps the difference.
- Text outside ASCII: lengths are counted in characters, and only the letters A to Z change case. Lower-casing other text can change its length.
- IPv6 zones, and address texts other than dotted decimal, which the code skips or refuses alike.
- Machine integers: counters and times are unbounded; `AuditPlan.EstimatesFit` bounds the counters of the planner. `time.Now().UTC()` drops the monotonic clock, so times of attempts need not increase, and the model does not assume that they do.
- Loggers, log throttling, HTTP handlers, the ticker, cancellation, the nil checks of `Run` and the cleanup command: a run is any sequence of attempts.
- Error texts, and which of several errors is reported.
- Sharing of label maps and link slices between a merged container view and the first of its views: views are values; the shared copies are not read again.
- The constant safeguard fields of the audit plan, and `sortedAddresses`, which nothing calls.
- Manager.Backend.Apply: does not model a transaction that commits although an error is reported.
