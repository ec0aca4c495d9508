# MantisEye's detection layer, modelled and verified

MantisEye watches the packets of a router's LAN interfaces and reports ARP spoofing and
port scans. This project models the layer that does so: the life cycle of an incident,
the ARP detector with its three tiers of trust, the port-scan detector with its matching
of SYNs and replies, and the grouping of incidents into attackers. It proves what holds
over every trace of packets, leases, neighbour-cache entries and sweeps.

`dafny verify dfyconfig.toml` checks everything.

## How it is laid out

The classes follow the program: fields are updated in place, and each method is proved
against a function of the old state. The theorems are about those functions, run over
arbitrary traces.

| file | what is in it |
|---|---|
| `Net.dfy` | addresses, packets, incident keys, names of checks |
| `Attack.dfy`, `Lifecycle.dfy` | one incident, and the laws of every history of it |
| `Detector.dfy`, `DetectorTheory.dfy` | the table of incidents, its sweep and its output; laws of every run of it |
| `PortScanAttack.dfy`, `PortScanDetector.dfy` | the port-scan machine |
| `PortScanTheory.dfy`, `PortScanRuns.dfy`, `Exchange.dfy` | demultiplexing, the counters' conservation law, output and decay, genuine exchanges |
| `ArpSpoofDetector.dfy` | the ARP machine |
| `ArpEvidence.dfy`, `ArpLearning.dfy`, `ArpProvenance.dfy`, `ArpDhcp.dfy`, `ArpSegments.dfy`, `ArpTruth.dfy` | evidence and escalation, learning, where bindings come from, leases, segments, soundness and completeness |
| `ArpPackets.dfy`, `ArpResync.dfy`, `PortScanPackets.dfy` | what packets, leases and cache entries do, told in their own fields |
| `ArpExceptions.dfy` | laws that hold with exceptions: exactly which, and runs that show them |
| `Attacker.dfy` | grouping |
| `Detection.dfy` | the detectors driven by a whole capture |

The *effective* status of an incident is the status it had before decaying if it is
decayed, and its status otherwise. Both detectors are reduced to one vocabulary of table
operations (evidence, mark, sweep), so the laws of `DetectorTheory.dfy` are proved once.

## Where the code and its own documentation differ

The model follows the code.

- `_resolve_pending` is documented to decide by packet volume rather than by who reaches
  the threshold first. `ArpLearning.FirstToThreshold` proves that the two are the same
  rule here, and that the documented tie can never arise.
- `_apply_authoritative` is documented to keep one MAC from being trusted under two IPs.
  `ArpExceptions.RunOneAddressEach` says exactly when a run keeps that: leases never break
  it, and passive learning does when the claim that completes it comes from a MAC that
  already holds an address (`ArpExceptions.LearningShares`). A lease that finds its pair
  already bound then clears nothing, and reapplying a list of leases is harmless exactly
  when there was no such MAC to begin with (`ArpDhcp.ReapplyingLeases`).
- `_resolve_pending` is documented to end the contest for an address once it is decided.
  A lease decides it too but leaves the candidates waiting; `ArpLearning.RunDisjoint` says
  exactly when that happens.
- `update_attack` is documented to match every genuine reply. It expects `seq + 1`
  without the wrap-around of section 3.4 of RFC 9293, so the reply to a SYN numbered
  2^32 - 1 goes unmatched; `Exchange.NoResidue` and `Exchange.AllAnswered` give the exact
  condition and `Exchange.WrapBreaksMatching` a concrete exchange.
- The port-scan detector names three confirming clauses. `PortScanTheory.ConfirmationCollapses`
  proves that together they hold exactly when probes plus unmatched replies reach the
  threshold.
- Thresholds speak of packets, but `count` counts pieces of evidence. `ArpTruth.CountedTwice`
  says exactly when one packet counts twice, `ArpExceptions.RouterLearned` how that comes about.

## Model

| member | source | states |
|---|---|---|
| `ArpPackets.PacketJudged` | src/mantis_eye/detection/detectors/arp_spoof_detector.py:185-373 | In every reachable state a packet on a watched interface leaves exactly the evidence its own fields amount to: of each kind, against each incident, with each claimed address; and its source, unless it falsely claims to be the router or its address is bound, counts on as candidate until it owns the address |
| `ArpPackets.PacketIgnored` | src/mantis_eye/detection/detectors/arp_spoof_detector.py:435-436 | A packet on any other interface changes nothing |
| `ArpPackets.NeighbourJudged` | src/mantis_eye/detection/detectors/arp_spoof_detector.py:165-183 | A cache entry is judged and teaches as a claim without destination; one about the router's own address changes nothing |
| `ArpPackets.FalseRouterPacket` | src/mantis_eye/detection/detectors/arp_spoof_detector.py:244-265 | In every reachable state a false claim to be the router adds one to the incident of its sender against its receiver (everybody if broadcast, unknown if absent) and to no other; TCP or UDP traffic confirms at once, an ARP announcement when the threshold is met |
| `ArpPackets.VictimsApart` | src/mantis_eye/detection/detectors/arp_spoof_detector.py:248-250 | False claims to be the router share a victim only if they went to the same address |
| `ArpPackets.ImpostorPacket` | src/mantis_eye/detection/detectors/arp_spoof_detector.py:283-300 | In every reachable state a packet from an address bound to another MAC adds one to the incident of its sender against the owner, or against the router if sent to the router, and claims the address; it confirms when the threshold is met |
| `ArpPackets.StrayPacket` | src/mantis_eye/detection/detectors/arp_spoof_detector.py:302-352 | In every reachable state a packet that is no false claim to be the router puts the MAC it went to above suspicion if that is not the router's, or not the bound owner's |
| `ArpResync.StartCatches` | src/mantis_eye/detection/detectors/arp_spoof_detector.py:81-89 | At start-up a lease that no later one disputes is bound, and a cache entry that gives its address to another MAC is reported against that MAC: a cache poisoned before the start is caught |
| `ArpResync.CallCatches` | src/mantis_eye/detection/detectors/arp_spoof_detector.py:446-448 | The same on every call that resyncs |
| `ArpResync.ResyncCatches` | src/mantis_eye/detection/detectors/arp_spoof_detector.py:83-89 | The same for a resync after any steps |
| `ArpResync.LeaseStands` | src/mantis_eye/detection/detectors/arp_spoof_detector.py:109-143 | Whatever came before, a resync leaves in force every lease that no later line of the file disputes, whatever the cache says |
| `ArpResync.EntryInTurn` | src/mantis_eye/detection/detectors/arp_spoof_detector.py:165-183 | Cache entries are judged one after another in the order given, after all leases, each by what those before it left |
| `ArpResync.ResyncCall` | src/mantis_eye/detection/detectors/arp_spoof_detector.py:426-448 | A call with a resync due: the packet is judged by the bindings from before the leases of the same call, then those leases hold and the resync clock is set |
| `ArpResync.QuietCall` | src/mantis_eye/detection/detectors/arp_spoof_detector.py:426-448 | A call with no resync due: the packet is judged and teaches exactly as before, the sweep clock moves if a sweep is due, and the environment does not matter |
| `ArpResync.ForeignCall` | src/mantis_eye/detection/detectors/arp_spoof_detector.py:435-436 | A call for a packet on another interface does nothing, sweep and resync included |
| `ArpLearning.FirstToThreshold` | src/mantis_eye/detection/detectors/arp_spoof_detector.py:354-409 | In every reachable state, idle resets and leases included, all candidates wait below `learn_threshold`, a claim has exactly the effect of "bind the first candidate to reach the threshold", and whenever the threshold is reached the sender is the only winner, so the tie branch is never taken |
| `ArpLearning.LearningIsFirst` | src/mantis_eye/detection/detectors/arp_spoof_detector.py:364-409 | From any state whose candidates wait below the threshold, counting packets and taking the maximum equals the first-to-threshold rule, and leaves the candidates below the threshold |
| `ArpLearning.ClaimBinds` | src/mantis_eye/detection/detectors/arp_spoof_detector.py:210-222 | In every reachable state a claim never changes or removes a binding and adds at most the one of its own source |
| `ArpLearning.RunDisjoint` | src/mantis_eye/detection/detectors/arp_spoof_detector.py:119-143 | Throughout a run no bound address has candidates waiting if and only if no step of it is an effective lease on an address contested at that moment |
| `ArpLearning.StepDisjoint` | src/mantis_eye/detection/detectors/arp_spoof_detector.py:119-143 | From any state in which candidates wait below the threshold and only for unbound addresses, one step keeps it so if and only if it is no lease (on a watched interface and not on the router's address) on an address with a candidate |
| `ArpLearning.LeaseLeavesWaiting` | src/mantis_eye/detection/detectors/arp_spoof_detector.py:119-143 | The failing run: one claim, then a lease on the claimed address, for every `learn_threshold` above one |
| `ArpLearning.RunRouterSafe` | src/mantis_eye/detection/detectors/arp_spoof_detector.py:128-131 | In every reachable state each binding or candidate for the router's own address carries the router's own MAC |
| `ArpLearning.RouterProtected` | src/mantis_eye/detection/detectors/arp_spoof_detector.py:175-222 | In every reachable state a claim on the router's address is reported as gateway impersonation exactly when the MAC is not the router's, and never as host impersonation |
| `ArpProvenance.BindingProvenance` | src/mantis_eye/detection/detectors/arp_spoof_detector.py:354-386 | Every binding of a reachable state goes back to a lease of that pair or to `learn_threshold` claims of it, in order, each within `idle_expiry` of the one before; every waiting count to that many such claims |
| `ArpProvenance.ChainSpan` | src/mantis_eye/detection/detectors/arp_spoof_detector.py:375-386 | A chain of n such claims spans at most (n - 1) times `idle_expiry` |
| `ArpProvenance.LearningCompletes` | src/mantis_eye/detection/detectors/arp_spoof_detector.py:354-386 | After any run, and whatever is interleaved short of a lease on another address of the same interface, `learn_threshold` claims by one candidate that never pauses beyond `idle_expiry` leave the address bound, false claims to be the router excepted |
| `ArpDhcp.LastWriterWins` | src/mantis_eye/detection/detectors/arp_spoof_detector.py:119-143 | After leases alone no MAC holds two addresses of one interface, and a pair is bound if and only if some lease of it (not on the router's address) has no later lease there sharing exactly one of address and MAC |
| `ArpDhcp.LeaseRun` | src/mantis_eye/detection/detectors/arp_spoof_detector.py:119-143 | The same, both ways, from any bindings in which no MAC holds two addresses |
| `ArpDhcp.ReapplyingLeases` | src/mantis_eye/detection/detectors/arp_spoof_detector.py:133-143 | Applying a list of leases twice equals applying it once, for every list, if and only if no MAC holds two addresses to begin with |
| `ArpDhcp.SharedMacUnsettled` | src/mantis_eye/detection/detectors/arp_spoof_detector.py:133-143 | The failing family: with a MAC on two addresses, two leases whose second application removes a binding the first application kept |
| `ArpDhcp.EffectiveLease` | src/mantis_eye/detection/detectors/arp_spoof_detector.py:119-143 | In any state, a lease that changes something leaves its MAC at exactly one address of its interface and every pair that does not conflict with it untouched |
| `ArpExceptions.RunOneAddressEach` | src/mantis_eye/detection/detectors/arp_spoof_detector.py:119-143 | Throughout a run no MAC holds two addresses of one interface if and only if no step of it is the last claim learning needs, made by a MAC that already holds another address there |
| `ArpExceptions.StepOneAddressEach` | src/mantis_eye/detection/detectors/arp_spoof_detector.py:119-143 | The one-address law for one step, from any state in which candidates wait below the threshold and each MAC holds one address: it is kept if and only if the step is not such a last claim |
| `ArpExceptions.LearningShares` | src/mantis_eye/detection/detectors/arp_spoof_detector.py:354-373 | The failing run, for every `learn_threshold` of at least one: that many claims by one MAC to each of two addresses leave it bound to both |
| `ArpSegments.SegmentIndependence` | src/mantis_eye/detection/detectors/arp_spoof_detector.py:185-222 | For any run, bindings, candidates, incidents and the sequence of alerts of one interface (decay aside, since all segments share the sweep) are those of the run with all other interfaces' steps and all sweeps deleted |
| `ArpSegments.StepHere` | src/mantis_eye/detection/detectors/arp_spoof_detector.py:185-222 | Two states that agree on an interface, its alerts included, still agree on it after a step of that interface |
| `ArpSegments.StepElsewhere` | src/mantis_eye/detection/detectors/arp_spoof_detector.py:185-222 | A step of another interface, or a sweep, changes nothing on an interface but displayed decay, and alerts nothing about it |
| `ArpTruth.TruthfulRun` | src/mantis_eye/detection/detectors/arp_spoof_detector.py:185-373 | If every packet, cache entry and lease of a run agrees with a fixed map of owners, bindings and candidates stay within the map and no incident is ever created |
| `ArpTruth.LieIsCaught` | src/mantis_eye/detection/detectors/arp_spoof_detector.py:224-300 | In every reachable state a false source claim on the router's or a bound address adds evidence to an incident whose attacker is the sender and whose claimed addresses include the one lied about, and the last line printed is its alert, under the check that names the lie |
| `ArpTruth.MisdirectionIsCaught` | src/mantis_eye/detection/detectors/arp_spoof_detector.py:302-352 | In every reachable state a packet that is no false claim to be the router (such a claim stops at the gateway check and accuses its sender only) and that was delivered to a MAC not the router's, or not the bound owner's, puts the receiver above suspicion, against the sender, or against the owner when the router itself was misled |
| `ArpTruth.EvidenceIffWrong` | src/mantis_eye/detection/detectors/arp_spoof_detector.py:210-352 | In every reachable state a claim adds evidence if and only if its source lies or it was delivered to the wrong MAC |
| `ArpTruth.CountedTwice` | src/mantis_eye/detection/detectors/arp_spoof_detector.py:210-352 | In every reachable state one claim adds at most two to the count of any incident, and two if and only if it passes the gateway check, is for the router but went to another MAC, the router's own address has been learned, and the incident is the receiver's against the sender |
| `ArpExceptions.RouterLearned` | src/mantis_eye/detection/detectors/arp_spoof_detector.py:302-373 | The run behind it, for every `learn_threshold` of at least one: once the router has spoken that often, every such packet counts twice |
| `ArpEvidence.ArpEvidenceConserved` | src/mantis_eye/detection/detectors/arp_spoof_detector.py:185-352 | Over any run all counts together are the alerts printed, an incident's count is its own alerts, and its [DECAYED] lines never exceed it |
| `ArpEvidence.ClaimAdds` | src/mantis_eye/detection/detectors/arp_spoof_detector.py:210-222 | One claim adds at most three pieces of evidence; a false claim to be the router adds exactly one and leaves bindings and candidates alone |
| `ArpEvidence.ArpEscalation` | src/mantis_eye/detection/detectors/arp_spoof_detector.py:257-352 | Every incident is suspected, confirmed or ongoing as its count is below, at or above the smaller of `confirm_threshold` and the position of its first observed fact (a threshold below one acts like one) |
| `ArpEvidence.CaseGraded` | src/mantis_eye/detection/detectors/arp_spoof_detector.py:257-352 | In every history cache poisoning is a fact, host impersonation a claim counted toward `confirm_threshold`, gateway impersonation one of the two |
| `ArpEvidence.GatewayStrength` | src/mantis_eye/detection/detectors/arp_spoof_detector.py:257-263 | A claim to be the router names its sender and is a fact exactly when TCP or UDP carries it |
| `ArpEvidence.CaseDecides` | src/mantis_eye/detection/detectors/arp_spoof_detector.py:411-424 | Every incident is what its own evidence alone makes of it, and there is one exactly where there is evidence |
| `ArpEvidence.CaseLines` | src/mantis_eye/detection/detectors/arp_spoof_detector.py:224-352 | The alerts printed about an incident, with their checks, statuses and counts, are those its own evidence gives rise to alone |
| `ArpEvidence.ArpDecayExact` | src/mantis_eye/detection/detectors/arp_spoof_detector.py:438-440 | With times that never decrease, an incident is shown as decayed exactly when the latest sweep came more than `idle_expiry` after its last evidence |
| `ArpEvidence.ResumeFinds` | src/mantis_eye/detection/detectors/arp_spoof_detector.py:426-444 | A watched packet is checked against a state in which the incident it resumes is never decayed after a gap of at most `idle_expiry`, and always after one beyond `idle_expiry + cleanup_interval` |
| `ArpEvidence.CallsAreRuns` | src/mantis_eye/detection/detectors/arp_spoof_detector.py:426-448 | After every sequence of calls the state is that of the run of exactly the steps the start-up resync and the calls set off, one after another |
| `ArpEvidence.CallsTimely` | src/mantis_eye/detection/detectors/arp_spoof_detector.py:426-448 | Calls whose times do not run backwards set off steps whose times do not either, which the laws about decay ask for |
| `ArpEvidence.CalledDecayExact` | src/mantis_eye/detection/detectors/arp_spoof_detector.py:438-440 | The law of displayed decay for the detector as it is called |
| `Detection.WatchArp` | src/mantis_eye/detection/detectors/arp_spoof_detector.py:426-448 | A detector started and handed any packets one by one is in the state, and has the resync marker, that the laws about calls speak of |
| `ArpSpoofDetectors.ArpSpoofDetector.constructor` | src/mantis_eye/detection/detectors/arp_spoof_detector.py:60-81 | The new detector, with a table of its own, is in the state the first resync makes of the empty one |
| `ArpSpoofDetectors.ArpSpoofDetector.Call` | src/mantis_eye/detection/detectors/arp_spoof_detector.py:426-448 | One call runs exactly its steps, whose meaning in packet fields and resync lines `ArpPackets` and `ArpResync` give: sweep if due, the packet, leases and cache if due; packets of other interfaces do nothing |
| `ArpSpoofDetectors.ArpSpoofDetector.RunChecks` | src/mantis_eye/detection/detectors/arp_spoof_detector.py:210-222 | The checks in place equal the specified step, with both short circuits |
| `ArpSpoofDetectors.ArpSpoofDetector.GatewayCheck` | src/mantis_eye/detection/detectors/arp_spoof_detector.py:244-267 | Raises exactly the gateway evidence and reports whether it did |
| `ArpSpoofDetectors.ArpSpoofDetector.RouterCacheCheck` | src/mantis_eye/detection/detectors/arp_spoof_detector.py:312-318 | Raises exactly the evidence of a packet to the router that went elsewhere |
| `ArpSpoofDetectors.ArpSpoofDetector.HostCacheCheck` | src/mantis_eye/detection/detectors/arp_spoof_detector.py:333-352 | Raises exactly the evidence of a packet that missed the bound owner |
| `ArpSpoofDetectors.ArpSpoofDetector.ImpersonationCheck` | src/mantis_eye/detection/detectors/arp_spoof_detector.py:283-300 | Raises exactly the evidence of a claim that conflicts with a binding |
| `ArpSpoofDetectors.ArpSpoofDetector.NewBindingCheck` | src/mantis_eye/detection/detectors/arp_spoof_detector.py:364-373 | Learns from claims on unbound addresses only, and says whether the address was unbound |
| `ArpSpoofDetectors.ArpSpoofDetector.TrackCount` | src/mantis_eye/detection/detectors/arp_spoof_detector.py:380-386 | Counts on, or from one again after an idle gap, and remembers the time |
| `ArpSpoofDetectors.ArpSpoofDetector.BestCount` | src/mantis_eye/detection/detectors/arp_spoof_detector.py:402-402 | The largest count among the candidates |
| `ArpSpoofDetectors.ArpSpoofDetector.ResolvePending` | src/mantis_eye/detection/detectors/arp_spoof_detector.py:398-409 | Binds the unique maximum and clears its contest; leaves a tie alone |
| `ArpSpoofDetectors.ArpSpoofDetector.ClearCandidates` | src/mantis_eye/detection/detectors/arp_spoof_detector.py:408-409 | Removes exactly the candidates of one address |
| `ArpSpoofDetectors.ArpSpoofDetector.ApplyAuthoritative` | src/mantis_eye/detection/detectors/arp_spoof_detector.py:128-143 | The lease's effect on the bindings, stale entries of its MAC removed |
| `ArpSpoofDetectors.ArpSpoofDetector.ResyncFromLeases` | src/mantis_eye/detection/detectors/arp_spoof_detector.py:109-117 | Applies the leases in file order |
| `ArpSpoofDetectors.ArpSpoofDetector.ResyncFromNeighbours` | src/mantis_eye/detection/detectors/arp_spoof_detector.py:165-183 | Puts each cache entry but the router's own address to the checks, in order |
| `ArpSpoofDetectors.ArpSpoofDetector.ResyncAll` | src/mantis_eye/detection/detectors/arp_spoof_detector.py:83-89 | Leases first, then the cache, as `ArpResync.ResyncCatches` needs them |
| `ArpSpoofDetectors.ArpSpoofDetector.Raise` | src/mantis_eye/detection/detectors/arp_spoof_detector.py:250-264 | Fetches the incident, applies the floor its evidence earns, records and alerts |
| `PortScanPackets.PacketsCounted` | src/mantis_eye/detection/detectors/port_scan_detector.py:78-110 | For every trace: an incident exists if and only if its attacker sent its victim a SYN, or got a reset, reset-acknowledgment or SYN-ACK from it, over TCP on its interface; probes, replies, tallies and count are the numbers of such packets |
| `PortScanPackets.OpenInRun` | src/mantis_eye/detection/attacks/port_scan_attack.py:80-95 | For every trace of any hosts: a connection has an open probe in an incident if and only if its latest SYN there has not since been answered on the reversed tuple with its number plus one, which is the number kept |
| `PortScanPackets.StraysCounted` | src/mantis_eye/detection/attacks/port_scan_attack.py:92-95 | The unmatched replies of an incident are those that answered none of its open SYNs |
| `PortScanPackets.SetsAre` | src/mantis_eye/detection/attacks/port_scan_attack.py:78-90 | For every trace: touched ports and victim addresses of an incident are those of its packets |
| `PortScanPackets.ScannersAre` | src/mantis_eye/detection/attacks/port_scan_attack.py:82-89 | For every trace: the claimed addresses of an incident are the senders of its SYNs and the receivers of its replies |
| `PortScanPackets.RungIs` | src/mantis_eye/detection/detectors/port_scan_detector.py:119-130 | After every packet that counts: suspected while SYNs plus unmatched replies are below the threshold, confirmed by the packet that ends this, ongoing from then on |
| `PortScanPackets.ClausesListed` | src/mantis_eye/detection/detectors/port_scan_detector.py:119-125 | The clauses as listed in an alert: SYNs, then replies, each at most once, the combined one only on its own |
| `PortScanPackets.AlertPrinted` | src/mantis_eye/detection/detectors/port_scan_detector.py:127-132 | Every packet that counts prints an alert last, against its incident and under its signal, with the status, count and clauses that now hold |
| `PortScanPackets.DecayPrinted` | src/mantis_eye/detection/detectors/port_scan_detector.py:74-76 | For every packet: the sweep clock moves exactly when more than the cleanup interval has passed, and an incident is announced as decayed exactly when it then is idle, even if this very packet resumes it |
| `PortScanTheory.PortDemultiplexed` | src/mantis_eye/detection/detectors/port_scan_detector.py:66-142 | After any interleaved trace an incident's counters, sets, open probes, times, tallies and effective status are those of one incident fed only the packets whose role-swapped key is its own |
| `PortScanTheory.PortLinesDemultiplexed` | src/mantis_eye/detection/detectors/port_scan_detector.py:109-132 | All alerts and [PORT SWEEP] lines about an incident, in order and with their statuses, counts and clauses, are those of one incident fed only its own packets |
| `Detection.WatchPorts` | src/mantis_eye/detection/detectors/port_scan_detector.py:66-85 | A detector started and handed any packets one by one is in the state that the laws about runs speak of |
| `PortScanTheory.ProbesBalance` | src/mantis_eye/detection/attacks/port_scan_attack.py:78-95 | Every SYN is open, was answered, or was overwritten: open + replies + overwritten = probes + unmatched |
| `PortScanTheory.ConfirmationCollapses` | src/mantis_eye/detection/detectors/port_scan_detector.py:119-125 | In every reachable incident open + (replies - unmatched) <= probes, with equality exactly when no SYN overwrote an open tuple; so some clause holds if and only if probes + unmatched reach the threshold |
| `PortScanTheory.PortStatus` | src/mantis_eye/detection/detectors/port_scan_detector.py:119-130 | Every incident is suspected while probes + unmatched are below the threshold, confirmed by the packet that ends this, ongoing after; so suspected with fewer than `threshold` packets and never with 2 * `threshold` - 1 or more |
| `PortScanTheory.BoundsReached` | src/mantis_eye/detection/detectors/port_scan_detector.py:119-130 | For every threshold, traces that reach both bounds |
| `PortScanTheory.WeightBounds` | src/mantis_eye/detection/attacks/port_scan_attack.py:78-95 | Replies never outnumber probes plus unmatched, which lie between half the packets and all of them |
| `PortScanTheory.WeightStep` | src/mantis_eye/detection/attacks/port_scan_attack.py:78-95 | A packet adds one to probes + replies, adds at most one to probes + unmatched and never takes away |
| `PortScanTheory.LoneRung` | src/mantis_eye/detection/detectors/port_scan_detector.py:119-130 | The rung of an incident alone is decided by probes + unmatched before and after its last packet |
| `PortScanTheory.ClausesNamed` | src/mantis_eye/detection/detectors/port_scan_detector.py:119-125 | The two plain clauses are named exactly when they hold, the combined one exactly when it holds and neither of the others does |
| `PortScanTheory.PacketsConcern` | src/mantis_eye/detection/detectors/port_scan_detector.py:109-110 | The packets of an incident are packets of the trace whose role-swapped key is its own |
| `PortScanRuns.PortEvidenceConserved` | src/mantis_eye/detection/detectors/port_scan_detector.py:127-132 | An incident's count is the number of its alerts, all counts together are all alerts, and [DECAYED] lines never exceed the count |
| `PortScanRuns.PortDecayExact` | src/mantis_eye/detection/detectors/port_scan_detector.py:74-76 | With times that never decrease, an incident is shown as decayed exactly when the latest sweep came more than `idle_expiry` after its last packet |
| `PortScanRuns.ResumeFinds` | src/mantis_eye/detection/detectors/port_scan_detector.py:66-85 | A resuming packet never finds its incident decayed after a gap of at most `idle_expiry`, and always after one beyond `idle_expiry + cleanup_interval` |
| `PortScanRuns.SweepLines` | src/mantis_eye/detection/detectors/port_scan_detector.py:112-117 | After any trace the [PORT SWEEP] lines of an incident number floor(distinct ports / `port_alert_threshold`) |
| `PortScanRuns.TouchedPorts` | src/mantis_eye/detection/attacks/port_scan_attack.py:78-78 | A port is among the touched ports exactly when some packet of the incident carries it |
| `PortScanRuns.AddressesNamed` | src/mantis_eye/detection/attacks/port_scan_attack.py:80-90 | Claimed addresses are exactly the senders of an incident's SYNs and the receivers of its replies, victim addresses the other ends |
| `Exchange.OpenProbes` | src/mantis_eye/detection/attacks/port_scan_attack.py:80-95 | In an exchange of SYNs with distinct tuples and one genuine reply each at most, the open probes are exactly the SYNs not answered without wrapping, each with its number plus one |
| `Exchange.NoResidue` | src/mantis_eye/detection/attacks/port_scan_attack.py:80-95 | At every prefix of a genuine exchange unmatched counts exactly the replies whose acknowledgment wrapped, and open = SYNs - replies + those; so unmatched is zero exactly when none wrapped |
| `Exchange.AllAnswered` | src/mantis_eye/detection/attacks/port_scan_attack.py:85-95 | Once every SYN is answered no probe stays open if and only if no SYN was numbered 2^32 - 1 |
| `Exchange.OpenAnywhere` | src/mantis_eye/detection/attacks/port_scan_attack.py:80-95 | In every trace, genuine or not, a connection has an open probe if and only if its latest SYN has not been acknowledged since by a reply with its number plus one, which is the number kept |
| `Exchange.HonestRun` | src/mantis_eye/detection/detectors/port_scan_detector.py:66-142 | In any traffic of any hosts whose SYNs and replies repeat no tuple between two hosts and whose replies follow the SYN they answer and go back to its sender: an incident exists if and only if its attacker sent its victim a SYN, its unmatched replies are those whose acknowledgment wrapped, and open = SYNs - replies + those |
| `Exchange.PortsProbed` | src/mantis_eye/capture/parser.py:62-62 | The touched ports of a genuine exchange are exactly the destination ports of its SYNs |
| `Exchange.WrapBreaksMatching` | src/mantis_eye/detection/attacks/port_scan_attack.py:85-95 | A SYN numbered 2^32 - 1 and its genuine reply leave an unmatched reply and an open probe |
| `PortScanAttacks.PortScanAttack.UpdateAttack` | src/mantis_eye/detection/attacks/port_scan_attack.py:78-95 | Counters, sets and open probes after one packet in either role |
| `PortScanDetectors.PortScanDetector.constructor` | src/mantis_eye/detection/detectors/port_scan_detector.py:59-64 | The new detector has no incidents and no sweep behind it |
| `PortScanDetectors.PortScanDetector.Call` | src/mantis_eye/detection/detectors/port_scan_detector.py:66-85 | One call equals one step of the run whose meaning in packet fields `PortScanPackets` gives: sweep if due, then a SYN as probe or a reset, reset-acknowledgment or SYN-ACK as reply, anything else ignored |
| `PortScanDetectors.PortScanDetector.UpdateIncident` | src/mantis_eye/detection/detectors/port_scan_detector.py:109-132 | One packet entered, counted, marked, judged and recorded under its role-swapped key; no other incident changes |
| `PortScanDetectors.PortScanDetector.GetAttack` | src/mantis_eye/detection/detectors/port_scan_detector.py:137-142 | Fetches the incident under its key or enters a new one there |
| `PortScanDetectors.PortScanDetector.Observe` | src/mantis_eye/detection/detectors/port_scan_detector.py:113-113 | update_attack on one incident, and on no other |
| `PortScanDetectors.PortScanDetector.AlertNewPorts` | src/mantis_eye/detection/detectors/port_scan_detector.py:116-117 | Prints the line exactly when the number of ports has just reached a multiple |
| `PortScanDetectors.PortScanDetector.Clauses` | src/mantis_eye/detection/detectors/port_scan_detector.py:119-125 | The clauses in order, the combined one only when neither other holds |
| `PortScanDetectors.PortScanDetector.Judge` | src/mantis_eye/detection/detectors/port_scan_detector.py:127-132 | Records under the floor the clauses earn, and alerts with them |
| `DetectorTheory.Demultiplexed` | src/mantis_eye/detection/detectors/detector.py:44-53 | Whatever is interleaved and whenever sweeps fire, an incident is exactly what its own evidence makes of it alone |
| `DetectorTheory.LinesDemultiplexed` | src/mantis_eye/detection/detectors/detector.py:24-36 | Of what is printed, the alerts about an incident are those its own evidence gives rise to alone |
| `DetectorTheory.EscalationLaw` | src/mantis_eye/detection/attacks/attack.py:62-80 | Where evidence is a fact or counts toward one threshold, an incident is suspected, confirmed or ongoing as its count is below, at or above whichever comes first |
| `DetectorTheory.FirstFlooredIs` | src/mantis_eye/detection/attacks/attack.py:62-80 | The first record with a floor is the first fact or the one that reaches the threshold |
| `DetectorTheory.AloneClimbs` | src/mantis_eye/detection/attacks/attack.py:45-80 | An undisturbed incident counts its evidence, keeps the first and last time and climbs by its floors |
| `DetectorTheory.EvidenceConserved` | src/mantis_eye/detection/detectors/detector.py:24-42 | All counts together are the alerts printed, which are the pieces of evidence |
| `DetectorTheory.CountIsAlerts` | src/mantis_eye/detection/detectors/detector.py:44-53 | Per incident, count, alerts and pieces of evidence agree, and [DECAYED] lines plus one while it is live never exceed them |
| `DetectorTheory.NothingForgotten` | src/mantis_eye/detection/detectors/detector.py:16-22 | Incidents are never removed, never renamed and never lose their place |
| `DetectorTheory.DecayExact` | src/mantis_eye/detection/detectors/detector.py:44-53 | An incident is shown as decayed exactly when the latest sweep found it idle |
| `DetectorTheory.SweptAt` | src/mantis_eye/detection/detectors/detector.py:44-53 | The sweep ages every incident by its own clock and enters, removes and moves none |
| `DetectorTheory.SweptPrints` | src/mantis_eye/detection/detectors/detector.py:44-53 | The sweep prints one [DECAYED] line for each incident that is idle and was not decayed yet, in table order, and nothing else |
| `Lifecycle.DecayErasure` | src/mantis_eye/detection/attacks/attack.py:62-88 | Taking all decays out of a history changes nothing but whether the incident is shown as decayed |
| `Lifecycle.RungNeverFalls` | src/mantis_eye/detection/attacks/attack.py:62-88 | The effective status never falls along a history |
| `Lifecycle.HistoryConsistent` | src/mantis_eye/detection/attacks/attack.py:45-88 | The remembered status is set exactly while decayed, and the tallies per check add up to the count |
| `Lifecycle.LadderLaw` | src/mantis_eye/detection/attacks/attack.py:62-80 | With floors of "confirmed" or none, the index of the first floored record alone decides the status |
| `Lifecycle.EffectiveIsClimbed` | src/mantis_eye/detection/attacks/attack.py:62-88 | The effective status of a history is its records' floors played in order, decays or not |
| `Lifecycle.FirstFloored` | src/mantis_eye/detection/attacks/attack.py:78-79 | The least index of a record with a floor, or the length |
| `Attacks.Attack.constructor` | src/mantis_eye/detection/attacks/attack.py:31-43 | A new incident: suspected, no evidence, both times the first packet's |
| `Attacks.Attack.Record` | src/mantis_eye/detection/attacks/attack.py:56-60 | Count, time, tally and status after one piece of evidence; everything else unchanged |
| `Attacks.Attack.Escalate` | src/mantis_eye/detection/attacks/attack.py:72-80 | Restores a decayed status, steps from confirmed to ongoing, and takes the higher of that and the floor |
| `Attacks.Attack.RecordClaim` | src/mantis_eye/detection/attacks/arp_spoof_attack.py:23-30 | The same with the claimed address kept |
| `Attacks.Attack.Decay` | src/mantis_eye/detection/attacks/attack.py:86-88 | Decays once, remembering the status |
| `Attacks.Attack.IsExpired` | src/mantis_eye/detection/attacks/attack.py:95-95 | Idle for strictly longer than `idle_expiry` |
| `Detectors.Detector.ExpireIdle` | src/mantis_eye/detection/detectors/detector.py:50-53 | The sweep over the live table in its order equals the specified sweep, printed lines included |
| `Detectors.Detector.ExpireOne` | src/mantis_eye/detection/detectors/detector.py:51-53 | Decays and announces one incident, unless it was decayed already |
| `Detectors.Detector.GetAttack` | src/mantis_eye/detection/detectors/arp_spoof_detector.py:418-424 | Fetches the incident under its key or enters a new one there |
| `Detectors.Detector.Report` | src/mantis_eye/detection/detectors/detector.py:24-36 | Records one piece of evidence in one incident and prints its alert, and touches no other |
| `Detectors.Detector.Attacks` | src/mantis_eye/detection/detectors/detector.py:22-22 | The incidents in table order |
| `Attackers.Group` | src/mantis_eye/detection/attacks/attacker.py:25-34 | One attacker per (interface, MAC), all different, in order of first appearance; each holds exactly the incidents whose key has that interface and that attacker, in the given order, and every incident is in one of them |
| `Attackers.FirstAppearance` | src/mantis_eye/detection/attacks/attacker.py:30-34 | The attackers are just those that occur, all different, in the order in which they first occur |
| `Attackers.GroupSelects` | src/mantis_eye/detection/attacks/attacker.py:31-33 | Each group is the subsequence of the list at all the places whose incident has its interface and its MAC as attacker |
| `Attackers.StablePartition` | src/mantis_eye/detection/attacks/attacker.py:30-34 | The groups laid end to end are a permutation of the list |
| `Attackers.ClaimsPreserved` | src/mantis_eye/detection/attacks/attacker.py:20-34 | The addresses claimed by all attackers together are those claimed in the list |
| `Attackers.Attacker.ClaimedIps` | src/mantis_eye/detection/attacks/attacker.py:21-23 | The union of the addresses claimed in the attacker's incidents |

## Left out

- Packet capture and parsing (Scapy): a parsed packet is the input; of the parser only the port rule is used, as an assumption of `Exchange.PortsProbed`. The ARP opcode is read by no detector and omitted.
- Reading the lease file, `ip neigh` and interface settings: their results are inputs of the constructor and of `Call`, and each lease comes with the interface its subnet matched. An abort of a resync on malformed input is not modelled.
- Wall-clock time and floating-point rounding: times are exact reals. The theorems about decay ask for times that are not negative and do not decrease, and for intervals that are not negative.
- Text: alert wording, `last_detail`, `to_dict`, `summarize` and `describe_attacker` are omitted; a printed line is modelled by its kind, its incident and the values that decide it.
- MAC and IP texts: an address is a number, and a MAC also carries its spelling because the program lower-cases only in some comparisons. Empty texts, which the program treats like absent ones in a few places, do not occur.
- `confirm_threshold` and `threshold` as stored on the attacks: no decision reads them.
- `Dispatcher` and the capture filter: a look-up.
- Memory growth from SYNs that are never answered: documented by the program, not bounded here.
- Inheritance: `PortScanAttack` holds its base incident and both detectors hold their table instead of extending it; `ArpSpoofAttack.record` is `Attacks.Attack.RecordClaim`. The claimed address of a scan is added when the packet is recorded, a moment later in the same call than in the program.
- Values of `port_alert_threshold` below one: at zero the program divides by zero at the first new port, and negative values mean nothing its documentation describes.
- Threads: a reader of the incidents while packets arrive is not modelled.
- The throw-away `Attacker` that `setdefault` builds for a key already present.
