# molebridge, modelled in Dafny

molebridge keeps a VPN exit's policy routing, its NetBird profile and its provider registration
in a state where no client's traffic can leave by the host. This project models the parts of it
that decide that, and proves what they promise over every input, every run and every
interleaving. `dfyconfig.toml` names all files; one module per file.

## What is proved

**The routing contract and its repair** (`Rtnl`, `Contract`, `Comparison`, `OnePriority`,
`Copies`, `Identities`, `Repair`, `Converge`, `ConvergeIff`, `Overfull`, `Ordering`). The rules a family must
hold, the comparison with the rules found, and the plan that repairs them under the kernel's first-match,
attribute-subset delete. One round ends with exactly the expected rules at a priority if and only
if the priority settles (`EndsExactIff`), a condition on the rules found before the round; where
the kernel reports an expected rule with an attribute that says nothing, the promise fails
(`OutOfFormLoses`). `RoundExactIff` is the same for the whole rule list: a round brings every owned
priority to its expected rules if and only if every priority is ready, that is, settles by itself
and has no removal held up by a missing rule of the next priority. `TwinOutlives` has a removal
that is held up, for every expected rule. `RoundConverges` also covers the rules the contract does
not own. A rebuild clears 32 rules; `RebuildIff` says exactly when one of a priority with any number
of rules ends right. Additions go in so that nothing falls through meanwhile (`RejectFirst`).

**What a packet meets** (`Policy`, `Lookup`, `Escape`, `EscapeLimits`, `Protection`, `Classes`, `Marks`,
`Points`, `Counted`, `Limit`, `Spaces`, `GateLimits`, `FarLimits`, `PlanFirst`). The rule walk with its
lookups, undecided selectors and jumps, and the deletion gate with its limit of 400000 judged packets
a family. A packet ends where a path through the rules leads (`EndsAre`), and a lookup is answered by
the route of the table that the kernel's order puts first (`LookupIs`, `BestAnswers`).
`ContractProtects` says what the contract is for: once its rules are in force everything it covers is
held, whatever else the namespace holds, and goes out of the tunnel while it is up
(`ContractForwards`); so a pass that reports it holds has seen a namespace nothing protected leaves
(`VerdictProtects`).
`NoPacketEscapes`: through any run of the owner's additions, route replacements and approved
deletions, each taking effect or not, a protected packet that is held stays held at every moment.
The packets a deletion is judged on are the code's own, and are shown to stand for every address,
port and user (`PointFor`). Marks, protocols, types of service and destinations they do not always
stand for, and there the gate's promise has an exact bound. For every list of selectors, all traits
and any local addresses, the gate keeps every held packet with these traits in every namespace with
these selectors if and only if a judged packet has traits that no selector tells from them, or even
the fewest packets such a namespace can have to judge are too many, in which case every deletion is
refused (`TraitsIff`). For every list of prefixes and every destination, it does so in every
namespace that tells destinations apart by these prefixes if and only if the destination is near
them or the same limit is passed (`TargetIff`). `UncoveredEscapes` and `FarEscapes` build the
namespace in which a deletion lets the packet out: the contract's rules are in it, behind foreign
rules that stop everything but that packet and a foreign jump to the main table. In the former the
plan adds nothing and that deletion is the first thing it asks for (`UncoveredIsFirst`); the latter
also holds the kernel's own rule at 0, whose deletion the plan asks for before. `MissedMark`,
`MissedProto`, `MissedTos` and `BelowLeavesFar` name traits and destinations that are missed. An
addition of the owner keeps a held packet if and only if every jump it can take to the new rule's
priority lands (`OwnerAddKeepsIff`). A foreign jump to one of the owner's priorities, a foreign rule
that suppresses the exit table's default routes, a route of somebody else's in the exit table and
an exit interface named `lo` each have a namespace in which a held packet escapes after one request.

**The mutation owner** (`Watch`, `Stale`, `Mutator`, `Guarantee`, `Judges`, `Pass`, `ExitRoutes`,
`Settles`, `ReturnPath`).
A kernel that may refuse, lose or half-do any request and may be changed by others, and the one
queue of notifications that a look, a question about foreign changes and a read-back of rules all
drain. A deletion is judged on the kernel as it is unless the rules were read back since the last
look (`JudgedNow`); what the owner has seen makes that certain if and only if nobody else changes
the kernel or there was no such read-back (`CertainIff`); it holds of every run if and only if
nobody else changes the kernel, or it does not tell of changes, or rules cannot be read back alone
(`AlwaysCurrentIff`). `StaleEscapes` is a run in which it does not hold: the contract is in place,
somebody puts in a jump to the main table, a read-back takes the notification, and the deletion
approved next, the first of the plan, lets a held packet out. Every method of the transaction is proved to add only events of that
machine, so `ApplyFamily` can state the two halves together: what a native pass applies for a
family, its rules with their rebuilds and then its routes, keeps every protected packet held at
every moment on a kernel nobody else changes. A rebuild leaves each wanted rule, or its copy one
priority earlier, in force at every moment whatever fails; the plan and the status agree; a pass
deals with every look that does not show the contract settled and reports it holds exactly if its
last look shows it (`Reconcile`), which on a kernel that grants its requests it does within three
looks (`PassSettles`); an expected address leaves only after it was seen gone.

**PIA's address** (`Pia`). The address change keeps every address on the tunnel covered after
every call and at every failure, with its exact rule at a half exactly where the rules found allow
it; its calls are one fixed script, as far as they got, which removes both old halves of every other
source. The repair ends with one address and one exact rule at each of priorities 94 and 98. An
inverted rule of the same address makes the kernel answer an addition with success and add nothing
(`InvertedTwin`); `AddedIff` is the exact condition.

**The NetBird profile** (`Json`, `JsonLocal`, `Profile`, `Blacklist`, `Splice`, `ProfileEdit`,
`ProfileFix`, `Scanner`). The scanner, with its position and its loops, reads what the grammar
says; a profile is the text of its members and reads back as them; the splice into the interface
blacklist keeps every other byte, leaves exactly the old entries and the added names, which are
those no entry is a prefix of, and its own error branches are unreachable.

**The supervisor** (`NetBird`, `Lease`, `Publisher`). Process creation outside the lock, in every
interleaving; the progress lease and what may be done under it; the coalescing writer, whose last
write is the failure record's and reaches the file if and only if that write goes through.

**The applier** (`Attempt`, `Applier`) and **the owner record** (`Numerals`, `Address`, `Owner`).
One mutation per pass, always recorded on disk first, and paced, after which the record says what was
measured; the record's line and canonical
addresses read back, and RFC 5952's choice of the run to shorten.

## How the system is represented

- The kernel, the file system, the network and the clock are methods that may answer in any way
  their contract allows; a class constant says which assumption a result needs (`alone`, `honest`,
  `granting`, `smooth`).
- Concurrent parts are state machines whose actions are the locked sections, atomic operations and
  system calls of the code; a run is any sequence of actions. The locked sections are also written
  as methods and proved equal to their actions.
- Bytes of a profile are characters below 256. Boot-clock times are nanoseconds in `Lease` and
  seconds, as reals, in `Applier`.
- Where a comment and the code differ, the code is modelled. `nbManager.Stop` says the stopped event
  is sent only when every process is reaped; the code sends it after its bounded waits in any case,
  so `NetBird.GoneUntilStart` speaks of what its look at the processes found.
  The walk's comment says a jump is followed both to its target and past it; the code follows it to
  its target only, when there is one. The policy package says a deletion that would turn protected
  traffic into an escape is refused; `GateLimits.UncoveredEscapes` has one that is approved. The
  comment on the deletion check says a change somebody else made sends the owner back to the kernel;
  a read-back of rules can take the notification first (`Stale.StaleEscapes`).
  `ParseOwnerRecord` says it takes the exact shape the exit writes; it also takes leading zeros
  (`Owner.RewriteIff`).

## Model

| member | source | states |
|---|---|---|
| Contract.BuildRules | internal/contract/spec.go:146-246 | The loop that appends rules unless they are left to a transaction, and sorts, builds exactly the expected list, which `Protection.ContractProtects`, `ContractForwards` and `ContractReturns` show to do what the contract is for. |
| Contract.RulesAtWritten | internal/contract/spec.go:146-257 | The rules at a priority are the ones written there, in order, none where the priority is skipped, and the whole list is in priority order. |
| Contract.ExpectedSlot | internal/contract/spec.go:146-246 | Every expected rule fills a slot that the configuration's backend writes, at that slot's priority. |
| Comparison.MatchExpected | internal/contract/diff.go:147-158 | The scan of the expected rules finds the first unmatched one with exactly the same items, and otherwise tells whether a delete could take an expected rule instead. |
| Comparison.RunScan | internal/contract/diff.go:112-169 | One pass over the rules found gives the matched rules, the rebuilds and the removals of the comparison. |
| Comparison.RunDiff | internal/contract/diff.go:103-198 | The loops of the comparison produce the plan: additions in their fixed order, then left return-path rules, then removals. |
| Ordering.RejectFirst | internal/contract/diff.go:48-51 | In every plan of every backend the addition of a reject comes before that of each lookup from which some packet can fall to it, the kill switch aside. |
| Ordering.ExceptionsFirst | internal/contract/diff.go:48-51 | Rules 102 and 103, the kill switch's exceptions, are added before it. |
| Ordering.HeldPlan | internal/contract/diff.go:170-187 | A comparison that holds the kill switch back asks for everything it would ask for otherwise, in the same order, except that addition. |
| OnePriority.KeptOutOfReachIff | internal/contract/diff.go:147-168 | A rule that stays is out of reach of every single delete the comparison can ask for, if and only if it is reported in plain form. |
| OnePriority.DelsTakeStrays | internal/contract/diff.go:142-168 | Single deletes carried out in the order found take the strays themselves and leave exactly the kept rules, in order. |
| OnePriority.EndsExactIff | internal/contract/diff.go:103-198 | After its additions and removals a priority holds exactly the expected rules if and only if it settles: it is rebuilt, or no missing rule is refused as a duplicate and no delete meets a rule that stays first. |
| OnePriority.PlainSettles | internal/contract/diff.go:142-198 | Rules in plain form, wherever one is expected but for inversion, always settle. |
| OnePriority.OutOfFormLoses | internal/contract/diff.go:147-168 | For every expected rule reported out of plain form there is a stray after which the priority ends without it. |
| OnePriority.AdditionsComplete | internal/contract/diff.go:170-187 | After the additions alone every expected rule is there. |
| OnePriority.NoTwinsNoneRefused | internal/mutator/fake_test.go:185-225 | With no rule that is expected but for inversion, no missing rule is refused as a duplicate. |
| Copies.CopyIsApart | internal/mutator/apply.go:295-330 | For every configuration the protective copy of a rule is neither a duplicate of a rule expected one priority earlier nor can deleting it take that rule. |
| Copies.SlotsUnlike | internal/contract/spec.go:146-246 | Expected rules of neighbouring priorities always differ in something a delete compares. |
| Identities.ExpectedDistinct | internal/contract/spec.go:146-246 | For every valid configuration the rules expected at a priority are distinct to the kernel and in standard form. |
| Identities.OrderIsComplete | internal/contract/diff.go:170-187 | Every priority at which any backend expects a rule is in the order of additions and owned; natively so is the priority before. |
| Identities.GuardIsExpected | internal/contract/spec.go:146-246 | While asked for, the temporary guard is expected at its priority. |
| Repair.RebuildAt | internal/mutator/apply.go:295-369 | A rebuild whose copies are apart from the priority before leaves exactly the wanted rules at its priority and every other priority as it was. |
| Repair.RebuildSorted | internal/mutator/apply.go:310-369 | A rebuild keeps the rule list in priority order. |
| Overfull.RebuildLeaves | internal/mutator/apply.go:310-369 | Once its copies are in force a rebuild leaves the rules after the 32nd and the wanted rules behind them, those refused left out. |
| Overfull.RebuildIff | internal/mutator/apply.go:332-369 | However many rules a priority holds, such a rebuild leaves each expected rule once and nothing else if and only if the rules after the 32nd are expected ones, none of them twice. |
| Converge.ScanAt | internal/contract/diff.go:112-169 | The scan of the whole list does at each priority what that priority's rules alone would ask for. |
| Converge.RoundConverges | internal/mutator/apply.go:162-251 | One round of the native plan, every request granted and every deletion approved, leaves exactly the expected rules at every owned priority and every other priority as it was, when every priority is ready. |
| Converge.WaitsIff | internal/mutator/apply.go:223-235 | A removal waits exactly if a rule it makes up for was missing and not all such rules are there. |
| ConvergeIff.RoundExactIff | internal/mutator/apply.go:162-251 | One round leaves exactly the expected rules at every owned priority if and only if every priority is ready: it is rebuilt, or no missing rule is refused, no delete meets a rule that stays first, and no removal is held up by a missing rule of the next priority. |
| ConvergeIff.LowestFails | internal/mutator/apply.go:162-251 | The lowest priority that is not ready does not end with its expected rules, whatever the round does to the priorities after it. |
| ConvergeIff.TwinOutlives | internal/mutator/apply.go:223-235 | For every expected rule: with its copy left one priority earlier and its inverse in its place, the inverse is rebuilt away but the copy is held up and outlives the round. |
| Converge.OrdinaryIsReady | internal/contract/diff.go:103-198 | A priority without rules out of plain form or expected but for inversion is ready. |
| Converge.OrdinaryConverges | internal/mutator/apply.go:162-251 | Whatever strays an ordinary namespace holds, one round brings it to the contract. |
| Policy.RunWalk | internal/policy/policy.go:522-606 | The backward table of ends, with its jumps and fall-throughs, gives every end of the recursive walk and no other; `Lookup.EndsAre` and `Lookup.LookupIs` say what these are. |
| Lookup.EndsAre | internal/policy/policy.go:522-606 | A packet can end at a place by a rule if and only if a path through the rule list leads there: past rules that may not match and lookups that can fall, to the first later rule a jump names, past jumps to nothing. |
| Lookup.LookupIs | internal/policy/policy.go:440-520 | A lookup can end in a place if and only if it is that of a route of the table that covers the destination, may apply and whose answer stands, with no covering route that does apply before it, by prefix, type of service, metric and place in the table; it can fall through if and only if no covering route applies or such a route is thrown away. |
| Lookup.BestAnswers | internal/policy/policy.go:460-486 | Where every covering route applies and none is thrown away exactly one answers, and no covering route has a longer prefix, nor as long (IPv4) a type of service where it has none, nor with both alike a smaller metric. |
| Escape.WalkSafe | internal/policy/policy.go:525-607 | All ends of the walk are allowed exactly when no branch of it escapes. |
| Escape.InsertSafe | internal/policy/policy.go:128-144 | A rule that keeps the packet where it applies can be added anywhere no jump leads to it. |
| Escape.OwnerRuleBenign | internal/contract/spec.go:146-246 | Every rule the owner adds, and every copy of one, keeps a protected packet it applies to. |
| Protection.SameItems | internal/contract/diff.go:147-158 | A rule with the items of one the contract writes decides every packet as that one does. |
| Protection.ContractProtects | internal/contract/spec.go:146-246 | On a native overlay whose rules at the contract's priorities are the expected ones, all overlay traffic and the ICMP from every expected return-path address is held, whatever the exit table holds and whatever rules stand behind: judged by table, and by device where the table is clean. |
| Protection.ContractForwards | internal/contract/spec.go:146-246 | In the same namespace, with the tunnel's route in an exact exit table and no guard, all of that traffic can leave by the tunnel's device. |
| Protection.ContractReturns | internal/contract/spec.go:146-246 | What comes back from the tunnel to an overlay address, and is not the exit's own, is looked up in the main table by rule 90. |
| Protection.ExactIsClean | internal/contract/routes.go:97-118 | A route of an exact exit table stops a packet or sends it to the tunnel's device, if and only if it is the fallback or is not encapsulated. |
| Escape.PutNoWorse | internal/contract/routes.go:56-66 | Replacing the fallback or the tunnel route never makes a lookup of the exit table worse. |
| Escape.ApprovedKeepsHeld | internal/policy/classes.go:566-600 | A change the gate approves keeps every packet that a judged one stands for. |
| Escape.RequestKeepsSteady | internal/mutator/tx.go:37-92 | No request of the owner changes what the others rely on. |
| Escape.MoveKeepsHeld | internal/mutator/tx.go:167-207 | One request, taking effect or not, keeps a protected packet held. |
| Escape.NoEscape | internal/mutator/tx.go:37-92 | Through any run of the owner's requests a protected packet held at the start is held at every moment, given a judged packet that stands for it at each deletion. |
| EscapeLimits.ResolvedGotoIff | internal/policy/policy.go:528-607 | Once a rule is added at its target, the packet is held if and only if the rules past that priority hold it by themselves. |
| EscapeLimits.AddKeepsIff | internal/policy/policy.go:528-607 | In any sorted rule list, adding a rule that keeps the packets it applies to keeps a held packet if and only if every jump the packet can take to that priority lands where the packet is held. |
| EscapeLimits.OwnerAddKeepsIff | internal/contract/spec.go:146-246 | So it is for every rule and copy the owner adds and every protected packet. |
| EscapeLimits.GotoEscapes | internal/policy/policy.go:528-607 | A namespace whose held packet escapes after one addition of the owner, because of a foreign jump. |
| EscapeLimits.SuppressedIff | internal/policy/policy.go:440-522 | With a foreign rule that suppresses the exit table's answers, the tunnel route's addition keeps a packet if and only if the rules behind hold it. |
| EscapeLimits.SuppressedEscapes | internal/policy/policy.go:440-522 | A namespace with such a rule whose held packet escapes after the tunnel route is put in. |
| EscapeLimits.LoopbackExitEscapes | internal/contract/spec.go:146-246 | With an exit interface named lo, a namespace in which the exit's own ICMP to a client is held, and leaves by the main table after rule 90 is added. |
| EscapeLimits.StrayDeviceEscapes | internal/policy/policy.go:440-522 | With a route by another device in the exit table, a namespace in which overlay traffic is held, and leaves by that device after rule 95 is added. |
| EscapeLimits.PrefixEscapesIff | internal/policy/policy.go:440-522 | With another device's route to any prefix beside the tunnel's default route and the fallback, adding rule 95 lets a held packet out by that device if and only if its destination is in the prefix. |
| Points.CutFor | internal/policy/classes.go:131-154 | Every value has a boundary value that no interval tells from it, nonzero for a nonzero one. |
| Points.SourceFor | internal/policy/classes.go:204-291 | Every source address has a judged one that no rule, route or class tells from it. |
| Points.NearIff | internal/policy/classes.go:204-299 | A destination other than zero and loopback has a candidate that no prefix tells from it exactly if it is near: it is below the loopback addresses or IPv6, or a candidate lies at or above it, or one is like the highest address. |
| Points.DefaultReaches | internal/policy/classes.go:204-299 | Where a table that was read has a default route, every destination is reached. |
| Points.TargetFor | internal/policy/classes.go:250-299 | Every destination that is reached has a judged one that no rule, route or class tells from it. |
| Points.ValueFor | internal/policy/classes.go:447-481 | Every port or user has a judged value that no range tells from it. |
| Marks.MarkFor | internal/policy/classes.go:300-335 | A mark that some candidate stands for has a judged one, the first of its signature, that stands for it. |
| Marks.OneMaskIff | internal/policy/classes.go:300-335 | Where the rules look at the mark through one mask, a mark is covered exactly if a rule selects it or some candidate is selected by none. |
| Marks.OneMarkCovers | internal/policy/classes.go:300-312 | Where the rules look for one mark only, every mark is covered. |
| Marks.ProtoCoveredIff | internal/policy/classes.go:336-351 | A protocol is covered exactly if it is judged itself or the rules leave ICMP, TCP, UDP or 253 alone. |
| Marks.TosCoveredIff | internal/policy/classes.go:352-381 | A type of service is covered exactly if it is judged itself, or a rule asks for its DSCP and nothing for that DSCP's own value, or no rule does and zero or one of four other values is free. |
| Marks.NoDscpCovers | internal/policy/classes.go:352-381 | Where no rule asks for a DSCP, every type of service is covered. |
| Points.PointFor | internal/policy/classes.go:181-441 | Every packet whose mark, protocol and type of service are covered and whose destination is reached has a judged packet that stands for it before and after the change. |
| Points.GatedMoveKeepsHeld | internal/mutator/tx.go:37-92 | One request, its deletion approved on the judged packets, keeps every such packet held. |
| Points.NoPacketEscapes | internal/mutator/tx.go:37-92 | Through any run of requests with every deletion approved by the gate, every such packet that is protected and held at the start is held at every moment. |
| Counted.JudgedIs | internal/policy/classes.go:405-441 | The packets combined from the judged values of each field are exactly the ones a change is judged on. |
| Counted.CountIs | internal/policy/classes.go:405-445 | The number compared with the limit is that of these packets and of those left out for their unspecified destination; with an overlay interface named lo it is no less. |
| Limit.CountAtLeast | internal/policy/classes.go:250-445 | Whatever else a change selects on, there are at least as many packets to judge as its marks, protocols and types of service and the addresses it has to tell apart come to, in two arrival interfaces and with the unspecified destination counted. |
| GateLimits.TraitsIff | internal/policy/classes.go:300-445 | For every list of selectors, all traits and any local addresses: the gate keeps every held packet with these traits, in every namespace with these selectors, if and only if they are covered or the fewest packets to judge there are more than 400000. |
| GateLimits.TraitsSimple | internal/policy/classes.go:410-445 | With at most 13333 marks, protocols and types of service together the limit plays no part; with more than 50000 every deletion is refused and every held packet kept. |
| GateLimits.UncoveredEscapes | internal/policy/classes.go:566-600 | For every list of selectors within the limit and all traits that are not covered there is a namespace, the contract's rules in it, in which the gate approves the deletion of a stray and a held packet with these traits escapes. |
| PlanFirst.FirstAction | internal/contract/diff.go:103-198 | Where nothing expected is missing and nothing is wrong before a priority that expects no rule, the plan starts with the deletion of the first rule there. |
| PlanFirst.UncoveredIsFirst | internal/contract/diff.go:103-198 | In that namespace the plan adds nothing and starts with that deletion. |
| GateLimits.BlocksIff | internal/policy/policy.go:525-607 | Past one stopping rule for each selector go exactly the packets no selector tells from given traits. |
| GateLimits.MissedMark | internal/policy/classes.go:300-335 | With rules for three single bits, a mark with two of them is not covered. |
| GateLimits.MissedProto | internal/policy/classes.go:336-351 | With rules for ICMP, TCP, UDP and 253, no other protocol is covered. |
| GateLimits.MissedTos | internal/policy/classes.go:352-381 | With rules for DSCP zero and the four values tried, no other type of service whose DSCP is not zero is covered. |
| FarLimits.NearKept | internal/policy/classes.go:204-299 | In every namespace an approved deletion keeps every held packet to a near destination. |
| FarLimits.TargetIff | internal/policy/classes.go:204-445 | For every list of prefixes, any local addresses among them, and every destination other than zero and loopback: the gate keeps every held packet to it, in every namespace that selects on these prefixes and tells destinations apart by them, if and only if it is near them or the fewest packets to judge there are more than 400000. |
| FarLimits.FarEscapes | internal/policy/classes.go:566-600 | For every list of prefixes within the limit and every destination that is not near them there is a namespace, the contract's rules and the kernel's own rule at 0 in it, in which the gate approves a deletion and a held packet to it escapes. |
| FarLimits.AboveIsFar | internal/policy/classes.go:204-299 | Prefixes that cover everything below the loopback addresses and nothing from them on leave every address above far. |
| FarLimits.BelowLeavesFar | internal/policy/classes.go:204-299 | Seven such prefixes leave every address from 128.0.0.0 on far. |
| Watch.JudgedNow | internal/mutator/tx.go:94-127 | In every run of looks, questions, read-backs, requests and other people's changes, the model a deletion is judged on is the kernel as it is unless the rules were read back since the last look. |
| Watch.CertainIff | internal/rtnl/snapshot_linux.go:563-642 | What the owner has seen makes it certain that the model is the kernel if and only if nobody else changes the kernel or the rules were not read back since the last look. |
| Watch.AlwaysCurrentIff | internal/mutator/tx.go:37-127 | Every deletion of every run is judged on the kernel as it is if and only if nobody else changes the kernel, or it does not tell of changes, or rules cannot be read back alone. |
| Watch.HeldThroughout | internal/mutator/tx.go:37-207 | On a kernel nobody else changes, through every such run whose deletions the gate judges, a protected packet held at the start and represented at every deletion is held at every moment. |
| Stale.StaleEscapes | internal/rtnl/snapshot_linux.go:464-642 | A legal run, the contract in place, in which somebody puts in a jump to the main table, a read-back takes the notification, the deletion of a stray rule is approved, and a packet held until then escapes. |
| PlanFirst.StaleIsFirst | internal/contract/diff.go:103-198 | That deletion is the first thing the plan asks for. |
| Mutator.Kernel.AddRule | internal/mutator/fake_test.go:185-225 | An addition inserts behind its priority's rules, or is answered as existing when a rule has its identity, or fails having worked or not. |
| Mutator.Kernel.DelRule | internal/mutator/fake_test.go:238-257 | A deletion takes the first rule with the request's attributes, or is answered as not found, or fails having worked or not. |
| Mutator.Kernel.DelRulePriority | internal/mutator/fake_test.go:259-278 | A deletion by priority takes the first rule there. |
| Mutator.Transaction.Snapshot | internal/mutator/tx.go:250-268 | A stable look becomes the cached model; any other leaves none or the old one. |
| Mutator.Kernel.RulesStable | internal/rtnl/snapshot_linux.go:563-642 | A stable read gives the family's rules and leaves no notification waiting, foreign ones included. |
| Mutator.Kernel.ForeignChange | internal/rtnl/snapshot_linux.go:464-510 | Answers whether a foreign notification waited, and leaves none waiting. |
| Mutator.Transaction.CurrentModel | internal/mutator/tx.go:94-127 | The model given out is one just looked at or just asked about; it agrees with the kernel as it is when the rules were not read back since the last look, or one of the three exceptions holds. |
| Mutator.Transaction.Approve | internal/mutator/tx.go:37-92 | An approved deletion was judged on the model with exactly the requested rule or route taken out, without the addresses the transaction moves away from, and under the same condition on the kernel's own rules and routes. |
| Mutator.Transaction.AddRule | internal/mutator/tx.go:167-171 | An addition keeps the cached model in step and loses nothing. |
| Mutator.Transaction.DelRule | internal/mutator/tx.go:173-181 | A deletion keeps the cached model in step and loses rules of its own priority only. |
| Mutator.Transaction.DelRulePriority | internal/mutator/tx.go:183-191 | The same for a deletion by priority. |
| Mutator.Transaction.ReadBack | internal/mutator/apply.go:50-85 | A read-back that succeeds saw every rule there exactly; it is recorded as what drains the notifications. |
| Mutator.Transaction.InstallCopies | internal/mutator/apply.go:314-331 | The copies go in one by one with nothing lost, and the ones that were new are known. |
| Mutator.Transaction.ClearPriority | internal/mutator/apply.go:332-341 | Clearing loses rules of its priority only and takes at most 32. |
| Mutator.Transaction.Refill | internal/mutator/apply.go:342-351 | The wanted rules go in with nothing lost. |
| Mutator.Transaction.Swap | internal/mutator/apply.go:332-369 | With the copies in force, clearing, refilling and taking the copies out leaves every wanted rule covered at every moment. |
| Mutator.Transaction.Rebuild | internal/mutator/apply.go:295-369 | At every moment and every failure point each wanted rule in force at the start is there or its copy is; success means all are there; with everything granted the result is the plain rebuild. |
| Mutator.Transaction.AwaitGuard | internal/mutator/apply.go:173-185 | A native change of 90 to 97 goes on exactly when the guard has been read back. |
| Mutator.Transaction.AwaitDependents | internal/mutator/apply.go:223-235 | A removal that stands in for an addition waits until that addition is read back. |
| Mutator.Transaction.ApplyOne | internal/mutator/apply.go:186-251 | One action changes the rules as the plan's step says, and an addition loses nothing. |
| Mutator.Transaction.Apply | internal/mutator/apply.go:162-251 | A plan's rule actions: without removals nothing is lost at any moment; nothing is added but the plan's rules, what its rebuilds put back and their copies; with everything granted the rules end as the plan says. |
| Guarantee.PlanOwned | internal/contract/diff.go:103-198 | Nothing that carrying out a comparison adds, copies included, is other than a rule of the contract or its copy. |
| Guarantee.ApplyRoutes | internal/mutator/apply.go:252-285 | A plan's route actions: only its routes are put in and only its drops deleted, nothing is deleted without removals, and nothing once a route could not be put in; with every request granted the kernel ends with all of them done. |
| Guarantee.ApplyPlan | internal/mutator/apply.go:162-251 | Carrying out the comparison's plan with the policy gate on a kernel nobody else changes keeps a protected packet held at every moment, given judged packets that represent it, and leaves the routes alone; with every request granted the rules end as a round leaves them. |
| Guarantee.ApplyFamily | internal/mutator/apply.go:132-286 | The same for all a native pass applies for a family, rules and then routes; with every request granted and removals, the exit table that was read ends exact, where no delete for a stray route would take one of the contract's. |
| ExitRoutes.TableSettles | internal/contract/routes.go:97-118 | Granted, the actions for an exit table end with one fallback, the tunnel's route as the mode says and nothing else, when no route of the contract is there twice and no delete for a stray would take one. |
| ExitRoutes.FallbackTaken | internal/contract/routes.go:97-118 | A table outside that condition: the delete for a stray unreachable default of metric 0 takes the fallback before it. |
| Mutator.AddedAreIn | internal/mutator/apply.go:162-251 | Every rule that was added is in, but for inversion, and every rule that was in stays. |
| Judges.CleanIff | internal/contract/diff.go:103-198 | A priority asks for nothing if and only if it holds exactly its expected rules. |
| Judges.EmptyPlanIff | internal/contract/diff.go:103-198 | Natively the plan is empty if and only if every owned priority holds exactly its expected rules. |
| Judges.RunStatus | internal/contract/status.go:62-97 | The status loop, with a flag per expected rule, decides the rule half of the status. |
| Judges.StatusIff | internal/contract/status.go:70-97 | Matching rules to flags one by one succeeds exactly when the owned rules are the expected ones, none detached. |
| Judges.HoldsByPriority | internal/contract/status.go:62-97 | The owned rules are exactly the expected ones if and only if each priority's are. |
| Judges.JudgesAgree | internal/contract/status.go:31-97 | On a native overlay the status holds if and only if the plan is empty, no owned rule is detached and no rule admits the overlay to the local table. |
| Judges.HoldsAsMultiset | internal/mutator/pass.go:119-250 | Rules that are exactly the expected ones are the same multiset of priorities and items. |
| Pass.RunExitTable | internal/contract/routes.go:97-118 | The loop over the exit table, with its two flags, produces the route actions. |
| Pass.ExitCleanIff | internal/contract/routes.go:97-118 | The exit table asks for nothing if and only if it is exactly the fallback and the tunnel route its mode requires. |
| Pass.CleanPlanHolds | internal/contract/plan.go:94-187 | A clean plan with no guard means the family's owned rules are the expected multiset, skipped rules aside, and its exit table is exact. |
| Pass.Owner.RaiseGuard | internal/mutator/pass.go:203-224 | The guard becomes expected and is asked for exactly when a guarded repair would change 90 to 97 and it is not expected yet; what is repaired then is what was seen with it in, if the kernel took it. |
| Pass.Owner.Repair | internal/mutator/pass.go:203-234 | The guards that are wanted and then the plans of both families behind them are asked for, with removals exactly if the look was stable. |
| Pass.Owner.Reconcile | internal/mutator/pass.go:119-250 | Each look but the last is dealt with: an unclean one is repaired, a clean one waits if it was not stable and else has its guards taken out. The pass reports the contract holds if and only if the last look shows it settled, within its rounds; otherwise it ends without a look or with its rounds spent. It is repaired if and only if a request changed something. |
| Pass.Owner.Deal | internal/mutator/pass.go:151-234 | A look that does not show the contract settled is dealt with by exactly the requests its state calls for. |
| Pass.UncleanIsRepaired | internal/mutator/pass.go:225-234 | Every look but the last that leaves a plan unclean is followed, before the next, by the request for both plans, with removals if and only if it was stable. |
| Pass.FirstSettled | internal/mutator/pass.go:164-173 | A first look that is stable and clean with no guard ends the pass with the contract holding and nothing asked. |
| Settles.PassSettles | internal/mutator/pass.go:119-250 | On a kernel that grants every request and holds still, a native pass over a namespace in order, guards and all, ends within three looks with the contract holding. |
| Settles.RoundLeavesNothing | internal/mutator/apply.go:162-251 | After a granted round over rules that are ready the comparison asks for nothing. |
| Settles.DropSettles | internal/mutator/pass.go:174-199 | Taking the guards out of a clean look leaves a settled one. |
| Pass.VerdictIsSound | internal/mutator/pass.go:119-250 | What a pass reports as holding is the expected multiset of rules and an exact exit table in both families. |
| Protection.VerdictProtects | internal/mutator/pass.go:164-173 | When a native pass reports the contract holds, everything protected is held in the namespace it saw: by table, and by device if no route of the exit table is encapsulated. |
| ReturnPath.Transactions.Settle | internal/mutator/install.go:226-272 | An address leaves only when the change did not fail and a stable look showed it gone; a live address leaves only as the never expected old one of a failed change. |
| ReturnPath.Transactions.Change | internal/mutator/install.go:148-187 | An address change is untouched exactly for gluetun and addresses of another family; else it is justified by what was seen, and a completed one expects the new address. |
| ReturnPath.Transactions.Retire | internal/mutator/retire.go:40-106 | A retirement takes out the address named, and no other, exactly if a stable look shows it on no interface, it is expected or half its pair is there, and the pair that is there could be deleted. |
| ReturnPath.LeavesOnlySeen | internal/mutator/install.go:148-272 | Over any run of these operations an address that left was shown gone by the operation it left in. |
| ReturnPath.LivePairStays | internal/contract/plan.go:134-147 | No native plan deletes a rule that is exactly half of the pair of an address live on the tunnel. |
| Pia.ExactIsExpectedIff | internal/applier/pia.go:592-606 | A rule the applier takes for exact is the contract's if and only if it has none of the attributes the applier is not shown. |
| Pia.AddedIff | internal/exit/system_linux.go:537-558 | After an addition the exact rule is in place if and only if it was before or no rule has its identity. |
| Pia.InvertedTwin | internal/mutator/tx.go:269-279 | An inverted rule of the address makes the addition succeed without the exact rule. |
| Pia.RemoveSources | internal/applier/pia.go:566-586 | Taking out the old sources at one half keeps the new pair and every rule that is not a half of another address. |
| Pia.ChangeAddress | internal/applier/pia.go:529-588 | Started with at most the old address besides the new one, every address on the tunnel is covered after every call and at every failure, with its exact rule at a half exactly if it fits; the route is never lost; the calls are a prefix of the script and, without an error, all of it; every removal at 94 comes before any at 98; and a completed change leaves the new address alone. |
| Pia.ScriptRemovesAll | internal/applier/pia.go:566-586 | The script removes a source's half exactly if a rule was found with it there and it is not the new address. |
| Pia.RemoveOthers | internal/applier/pia.go:886-897 | Deleting by source never takes the kept address's rules. |
| Pia.TidyHalf | internal/applier/pia.go:881-922 | One half ends with exactly the kept address's exact rule, or none, while the other half stays as it was. |
| Pia.Reconcile | internal/applier/pia.go:827-925 | Every call done, at most one IPv4 address is left with exactly one exact rule at 94 and at 98; at every step nothing has been taken out yet or the kept address has an exact half. |
| Pia.FindKept | internal/applier/pia.go:843-851 | The address kept is the recorded one if it is on the tunnel, and otherwise the first. |
| JsonLocal.ValueLocal | internal/nbprofile/jsonscan.go:208-230 | Reading a value depends only on its own bytes and that a delimiter follows. |
| Profile.ListExact | internal/nbprofile/jsonscan.go:142-204 | Well-formed members joined by commas are read back as themselves. |
| Profile.ListSound | internal/nbprofile/jsonscan.go:142-204 | Members that are read are well-formed and are the text they were read from. |
| Profile.ScanExact | internal/nbprofile/jsonscan.go:103-127 | A well-formed profile's text is read back as its members. |
| Profile.ScanSound | internal/nbprofile/jsonscan.go:103-127 | A text that is accepted is the text of its members, well-formed and clean. |
| Profile.SpliceClean | internal/nbprofile/jsonscan.go:103-108 | ASCII spliced between ASCII bytes keeps a text valid UTF-8 without NUL. |
| Blacklist.ArrayExact | internal/nbprofile/blacklist.go:75-102 | An array of strings is an array value and its strings are read back. |
| Blacklist.StringArraySound | internal/nbprofile/blacklist.go:75-102 | An array read as strings is the text of those strings. |
| Scanner.Reader.SkipWS | internal/nbprofile/jsonscan.go:129-138 | The loop stops at the end of the leading whitespace. |
| Scanner.Reader.RunNumber | internal/nbprofile/jsonscan.go:281-313 | The position moves over exactly one number of the grammar, or the number is refused. |
| Scanner.Reader.RunStr | internal/nbprofile/jsonscan.go:315-367 | The loop over a string's characters decodes what the grammar says and stops past its quote. |
| Scanner.Reader.RunValue | internal/nbprofile/jsonscan.go:206-230 | One value is read, with its kind and text, and a repeated key in it is noted. |
| Scanner.Reader.RunMembers | internal/nbprofile/jsonscan.go:156-203 | The loop over an object's members reads all of them, records the root's offsets, and notes repeats. |
| Scanner.Reader.RunObject | internal/nbprofile/jsonscan.go:140-204 | An object is read exactly as the grammar says, to the nesting limit. |
| Scanner.Reader.RunArray | internal/nbprofile/jsonscan.go:240-269 | The same for an array. |
| Scanner.RunScan | internal/nbprofile/jsonscan.go:100-127 | The scan accepts exactly the profiles of the grammar and records the root's span, its members' offsets and whether a key is repeated. |
| Scanner.RunOneString | internal/nbprofile/blacklist.go:83-100 | On an accepted array no index is outside the text and the string branch cannot fail. |
| Scanner.RunStringArray | internal/nbprofile/blacklist.go:75-102 | The loop over an accepted array gives its strings and their spans, or finds one that is not a string. |
| Splice.ArrayTextReads | internal/nbprofile/fix.go:417-436 | The text written for a list reads back as those names. |
| Splice.ReplacedReads | internal/nbprofile/fix.go:294-367 | A value replaced by a list reads back as the same members with that value. |
| Splice.InsertedReads | internal/nbprofile/fix.go:294-367 | Names put behind the last element read back as the same members with a longer list. |
| ProfileEdit.FindMissing | internal/nbprofile/fix.go:212-221 | A name is added if and only if no prefix of it, itself included, is an entry; once, in the order the names first come. |
| ProfileEdit.CoversIff | internal/nbprofile/blacklist.go:113-126 | An entry covers a name if and only if some prefix of the name that is not empty is an entry. |
| ProfileEdit.WithEntries | internal/nbprofile/fix.go:369-376 | The list is kept in front and holds exactly the old and the added names. |
| ProfileEdit.RunLeadBefore | internal/nbprofile/fix.go:381-395 | The backward loop finds the whitespace before a position. |
| ProfileEdit.MemberLead | internal/nbprofile/fix.go:381-395 | Before a key that is the whitespace its member starts with. |
| ProfileEdit.EditReads | internal/nbprofile/fix.go:294-367 | The edited text is the old one with one span replaced and reads back as the edited members. |
| ProfileEdit.EditedEntries | internal/nbprofile/fix.go:294-376 | The list then holds the old entries, or NetBird's defaults, followed by the added names not in it. |
| ProfileEdit.EditIsIdempotent | internal/nbprofile/fix.go:214-244 | After the edit no name is missing. |
| ProfileFix.FindSplice | internal/nbprofile/fix.go:294-348 | The offsets found by walking the text back are the ones the edit needs. |
| ProfileFix.SpliceBlacklist | internal/nbprofile/fix.go:294-367 | The splice's own error branches are unreachable and its result is the edit. |
| ProfileFix.ClearReads | internal/nbprofile/fix.go:265-289 | The cleared text reads back as the same members with that list empty. |
| ProfileFix.ClearExternalIPMap | internal/nbprofile/fix.go:265-289 | Clearing never fails on a profile that holds such a list. |
| ProfileFix.ApplyFix | internal/nbprofile/fix.go:226-238 | Both edits, one after the other, never fail and read back as the repaired members. |
| ProfileFix.FixProfile | internal/nbprofile/fix.go:154-244 | A profile that does not pass is refused; one that passes is left alone if and only if every name has a prefix among the entries and there is nothing to clear; any other gets the repaired text, with exactly the names added that have none. |
| ProfileFix.FixTwice | internal/nbprofile/fix.go:154-244 | The repair accepts its own result, and finds nothing missing and nothing to clear in it. |
| NetBird.NothingUnseen | internal/exit/netbird.go:322-398 | In every interleaving a live process is tracked or counted as pending, and every child that came late is killed or still counted. |
| NetBird.GoneForGood | internal/exit/netbird.go:198-209 | If a look at the processes that began after the close finds none, none exists and none is ever created. |
| NetBird.GoneUntilStart | internal/exit/netbird.go:211-246 | The same for a stopped launch until the next one. |
| NetBird.CleanupAlone | internal/exit/supervisor.go:603-622 | The cleanup never runs beside a NetBird process. |
| NetBird.EarlyCheckMisses | internal/exit/netbird.go:290-307 | A look that begins before the close can call a live process gone. |
| NetBird.Manager.Begin | internal/exit/netbird.go:163-183 | A launch starts only when open, idle and not stopping, and forgets exactly the processes that are gone. |
| NetBird.Manager.PruneLocked | internal/exit/netbird.go:248-268 | The loop keeps exactly the live processes, in order. |
| NetBird.Manager.AdmitSpawn | internal/exit/netbird.go:389-398 | A creation is counted exactly when the launch may still begin one. |
| NetBird.Manager.AttachSpawn | internal/exit/netbird.go:368-379 | A process is tracked whatever happened, and late exactly when the launch was cancelled or the manager closed. |
| Lease.HeldMeansProgress | internal/exit/lease.go:130-194 | While the lease is held every supervised loop has completed a step within its bound, the slack and the grace. |
| Lease.Lease.NewGeneration | internal/exit/lease.go:97-114 | A new generation starts with nothing accepted and its first renewal due within the allowance. |
| Lease.Lease.Accept | internal/exit/lease.go:130-166 | A renewal is accepted exactly when the lease lives, the generation and sequence are right and every loop is in time, and then moves the deadline to the grace from now. |
| Lease.Lease.AcceptStatus | internal/exit/lease.go:168-179 | A status is accepted exactly under a live lease of its generation with a new sequence number. |
| Lease.LaunchMeansProgress | internal/exit/supervisor.go:471-502 | Over every run of events, a stopped NetBird's included, NetBird is launched only while the lease is held. |
| Lease.LaunchedIff | internal/exit/supervisor.go:407-502 | An event launches NetBird, once and under the lease it leaves, if and only if the worker wants it, none is running, the lease is held and the stop sequence has not begun, on the worker's word, an accepted renewal or the end of the launch before. |
| Lease.OverForGood | internal/exit/supervisor.go:399-405 | Once the deadline has passed, whatever follows, no renewal or status of that generation is accepted, nothing is launched and nothing of the worker's is published. |
| Publisher.FailureIsLast | internal/exit/publish.go:75-126 | The failure record queued on an open publisher is never replaced: in every interleaving it is waiting, being written or the last record tried; a wait that finds nothing queued or running means its write was made, and the file holds it if and only if that write went through. |
| Publisher.NothingAfter | internal/exit/publish.go:75-126 | From then on nothing is written, whatever follows: a failed write is not tried again. |
| Publisher.FailureUnwritten | internal/exit/publish.go:75-126 | A run in which it fails, and the file keeps the record before it. |
| Publisher.NoLostWake | internal/exit/asyncio.go:94-126 | No job is left waiting with the writer asleep and nobody about to wake it. |
| Publisher.Drains | internal/exit/asyncio.go:109-126 | Once submissions stop the writer tries what is due, the newest job last, each once whether it succeeds or not, and is idle within eight steps. |
| Publisher.Channel.Submit | internal/exit/asyncio.go:94-107 | A submission replaces the waiting job unless a final one was queued. |
| Publisher.Channel.PublishFailure | internal/exit/publish.go:112-126 | The failure record closes the publisher and is queued as final. |
| Publisher.Channel.TakeJob | internal/exit/asyncio.go:109-126 | The writer takes the waiting job and is marked running in one locked section. |
| Attempt.Backoff | internal/attempt/attempt.go:48-57 | A retry waits between one and fifteen minutes. |
| Attempt.PacedPairs | internal/attempt/attempt.go:327-338 | In a paced log two mutations in a row, with no change of target and no released rejection between, are 60 seconds apart, 90 when the second is a reconvergence. |
| Applier.Applier.FailAttempt | internal/attempt/attempt.go:332-338 | A failed attempt is scheduled again after its step of the backoff, which goes up by one, and the waits go on growing, to at most 900 seconds. |
| Applier.Applier.Verify | internal/applier/applier.go:1770-1850 | A verification mutates nothing and, without an error, records what its last finding says: settled if and only if the server is live and ok; unverified and to be checked again if it is live, not ok and did not lose its protection before the timeout; failed and to be applied again otherwise. |
| Applier.Applier.CallRelay | internal/applier/applier.go:1710-1733 | The provider is called only with the attempting state on disk and far enough from the last mutation. |
| Applier.Applier.Mutate | internal/applier/applier.go:1694-1764 | A mutation calls the provider at most once and, without an error, leaves no attempt in progress; with every gate open and no failing call, exactly once, and the record says what was found. |
| Applier.Applier.Check | internal/applier/applier.go:1020-1069 | The periodic check mutates at most once, and not at all unless the attempt is at rest, which ends the recursion. |
| Applier.Applier.CompareWith | internal/applier/applier.go:1030-1054 | The check's comparison: a target found live and ok settles, one at rest that is no longer ok is unverified, and one that waits, was refused or has failed stays so. |
| Applier.Applier.RunPipeline | internal/applier/applier.go:1623-1692 | The pipeline mutates at most once. A target its inspection finds live is not applied, repairs aside, and settles or is unverified as found; with every gate open and no failing call anything else is applied exactly once. |
| Applier.Applier.Resume | internal/applier/applier.go:1295-1330 | An interrupted attempt is inspected and never replayed: it settles, is unverified or has failed as the finding says. |
| Applier.Applier.Admit | internal/applier/applier.go:1343-1428 | Every trigger that mutates is far enough from the last mutation of the same target. |
| Applier.Applier.Tick | internal/applier/applier.go:1185-1220 | A pass calls the provider at most once, never when it starts from a saved attempting state, keeps the log paced and the waits growing, and without an error leaves no attempt in progress; with every gate open and no failing call a new target that was asked for is applied exactly once, one that was not unless it is found live, and the record says what was found. |
| Applier.Applier.Restart | internal/attempt/attempt.go:250-320 | A new process of the same boot that takes the attempt from its file keeps the pacing. |
| Numerals.NumVal | internal/contract/owner.go:51-57 | A number's numeral reads back as the number. |
| Numerals.ValNumIff | internal/contract/owner.go:51-57 | A text of digits is its number's numeral exactly if it has no leading zero. |
| Numerals.SplitJoin | internal/contract/owner.go:117-127 | Fields free of the separator are split back as they were joined. |
| Address.FindRun | internal/contract/owner.go:76-90 | The two nested loops find the best run of zero groups. |
| Address.BestIsLeftmostLongest | internal/contract/owner.go:67-94 | That run is the longest, and the leftmost of its length. |
| Address.RunCanonical6 | internal/contract/owner.go:67-107 | The builder's loop writes the canonical text. |
| Address.RoundTrip6 | internal/contract/owner.go:67-107 | The canonical text of an IPv6 address reads back as the address. |
| Address.Canonical6Injective | internal/contract/owner.go:67-107 | No two addresses have the same text. |
| Address.RoundTrip4 | internal/contract/owner.go:109-114 | The dotted text of an IPv4 address reads back as the address. |
| Owner.RoundTrip | internal/contract/owner.go:116-182 | Every well-formed record is read back as it was written. |
| Owner.ReadIsWellFormed | internal/contract/owner.go:116-166 | Whatever is read is well formed. |
| Owner.RewriteIff | internal/contract/owner.go:116-182 | A line that is read is written back unchanged exactly when its numbers have no leading zeros. |

## Left out

- Points.NoPacketEscapes: speaks of packets that are covered and near, outside which the gate does not keep the promise (`GateLimits.TraitsIff`, `FarLimits.TargetIff`), and not of loopback destinations, which no table but the local one answers for.
- Marks.OneMaskIff: for rules that share one mask; with different masks a mark is covered exactly if some candidate is like it, which has no shorter form.
- Escape.NoEscape: covers the native overlay; the packet classes of the native sidecar and of gluetun are not modelled.
- Converge.RoundConverges: a priority that is rebuilt holds at most the 32 rules a rebuild clears; past that `Overfull.RebuildIff` has the rebuild by itself, not the round around it.
- ConvergeIff.RoundExactIff: the same bound.
- FarLimits.TargetIff: a prefix that only tells sources apart is not in the list; the kept half, `FarLimits.NearKept`, has no such condition.
- Mutator.Transaction.Apply: the refresh of gluetun's host table, which comes first, is not modelled.
- Guarantee.ApplyFamily: no priority is left to a transaction, and the packet is represented at every deletion.
- Mutator.Kernel.ForeignChange: a notification waits in the queue once its change has happened; the wait for late ones on kernels that do not order them is not modelled.
- Mutator.Transaction.Rebuild: the states in between are covered while nobody else changes the rules; after a foreign change only the cached model's agreement is kept.
- Protection.ContractProtects: covers the native overlay; what the rules of the native sidecar and of gluetun hold is not modelled.
- Settles.PassSettles: for the native contract with no return path left to others; the rules are ready and fit, and no delete for a stray route takes one of the contract's.
- ExitRoutes.TableSettles: the condition is sufficient; whether a table outside it ends exact depends on the order of its routes.
- Pass.Owner.Reconcile: gluetun's host table is one flag, its transition states are not modelled.
- Pia.Reconcile: the owner's own repair pass inside a retirement by source is not modelled; a removal by source takes some of that source's rules and no other.
- Pia.ChangeAddress: a rule source that does not parse as an address cannot come from the kernel and has no branch here.
- Applier.Applier.Tick: the time of a mutation is the one recorded in the attempt before the record is saved, not the moment the provider is called.
- Attempt.PacedPairs: within one boot; the adjustment of times kept from another boot is not modelled.
- Lease.LaunchMeansProgress: the loop times are those the renewals report.
- NetBird.GoneForGood: a process is its group; one that leaves its group is not seen by the code either.
- Policy.RunWalk: names an end by the rule and the decisions that led to it; the code's 64-bit hashes of them are taken to be free of collisions.
- Netlink, nftables and WireGuard requests, and reading a snapshot from the kernel.
- Provider catalogues, registration, egress measurements and the records' contents.
- The panel, the exchange, settings and refusal texts, file ownership and atomic replacement.
- Counts of mutations, log lines and their rate limits.
- The judging of an owner record's age and generation, which is three comparisons.
