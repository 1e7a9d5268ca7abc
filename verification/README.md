# Verified model of the SeekWave SWT6621S Wi-Fi driver's core logic

The project models seven parts of the driver and proves what they promise over all inputs and all
runs. Verify everything with `dafny verify dfyconfig.toml`.

| part | modules | main results |
|---|---|---|
| Radar pulse detector | `DfsDetector`, `DfsRuns`, `DfsCompleteness`, `DfsExact`, `DfsDriver`, `DfsSetup` | soundness of detection, completeness also for bursts with gaps and jitter, the early-exit scans as plain filters, the queue invariant, pool conservation, when channel set-up blinds a detector |
| Wake-on-WLAN | `WowCompiler`, `WowSender` | a compiled rule accepts what the mask asks for exactly when its weight fits, batches and remapping are inverse, when exactly the filter survives its own sending |
| Keep-alive rules | `KeepAlive` | which of the enabled rules are sent, exactly, over every run of requests, and when the result tells of a failure |
| Management-frame splitting | `MgmtSplit` | whole elements only, nothing lost or reordered; the walk stays inside the frame exactly for well-formed bodies |
| Station connection | `Station`, `StationExact`, `StationHistory`, `StationRuns`, `StationTime`, `StationDriver` | what connects and what ends a connection, no stuck attempt except after two exactly described events, bounds on commands and on time per attempt, and runs that reach the limits |
| EDMA rings | `EdmaRing`, `EdmaPoll`, `EdmaRuns`, `EdmaDriver`, `EdmaRefill` | lockstep of three cursors, ring order over whole runs, where every node is, how far a ring can go, refill in whole nodes |
| Peer contexts and recovery | `PeerCtx`, `PeerRuns`, `Recovery`, `RecoveryDriver` | accounting of bindings and lookups, who is published after any run, who is reported after interrupted and repeated recovery rounds |

`Basics` holds what they share. Each part has a specification in functions and lemmas. Where the
C code updates state in place there is also a class (`DfsDriver.Radar`, `StationDriver.StaCore`,
`EdmaDriver.Channel`, `EdmaRefill.RefillChannel`, `PeerCtx.PeerTable`, `KeepAlive.KeepSet`,
`RecoveryDriver.RecoveryWork`) or a method with the loop (`WowCompiler.CompileRule`, the senders
of `WowSender`, the splitters of `MgmtSplit`), whose contract equates its result or new state with
the specification. The radar tables follow Annex D of ETSI EN 301 893 V1.5.1, elements section
9.4.2.1 and the station machine section 11.3 of IEEE Std 802.11-2020, as the code implements them.

## Where the code and the expectation part

* **Radar window border.** `ts - dur` is unsigned, so a sequence built before one duration has
  passed counts only its first two pulses. `BuildCountExact` gives the exact condition.
  `TwoTaken` and `EarlyUndercount` reach it.
* **Channel set-up.** `skw_dfs_chan_init` empties the lists without returning elements to the
  pools or zeroing `count`, and stopping a channel check does not reset the detectors either.
  `SetupBurst` and `AnySetupBurst` say exactly when a burst is still seen afterwards. One chirp
  between two set-ups blinds the long-pulse detector of the FCC table until a reset
  (`BlindnessHappens`), and its queue element is lost (`SetUpLoses`).
* **Wake-up rules in multiples of twenty.** A full message is always followed by another, and
  the sub-command is only set along with a rule. With 20, 40 or 60 rules the last message is
  empty and carries sub-command 0, which disables everything (`SendingExact`,
  `TwentyRulesVanish`). From twenty rules on, the result does not tell that a message before the
  last one failed (`FilterHonest`).
* **Keep-alive rules.** An index that is enabled without ever having been given a packet ends the
  loop: neither it nor any rule behind it is sent, although everything is switched off first
  and the request succeeds (`RunExact`, `OneHidesAll`). With nine rules or more the result does
  not tell that the first message failed (`HonestExact`, `NineUntold`).
* **Results of a split report.** The report branch declares its own `ret`, which hides the one that
  is returned: the caller is told 0 also if no message was sent at all (`SplitReport`,
  `FailureUntold`).
* **Truncated wake-up rules.** A 64-byte rule is exact if and only if the pattern's weight is at
  most 64; otherwise it accepts too much and never too little (`Compiled` of `CompileRule`).
* **A redo that is refused.** A failure reported while association is being redone puts the
  station into ASSOCING with no peer and no timer, and a repeated authentication frame puts a
  connected station whose timer has run out into AUTHED with nothing to drive it. `AliveExact`
  says that nothing else does; `StrandingHappens` and `LateFrameStrands` reach both.
* **Time per attempt.** Each authentication frame nobody waits for restarts the step in AUTHED, so
  that a peer can hold an attempt open for ever (`AttemptOver`, `PlainAttemptOver`, `HeldOpen`).
* **Commands per attempt.** The bound on ASSOC commands holds for answers to pending requests
  only: each authentication frame nobody waits for allows five more (`AttemptBound`,
  `DuplicatesUnbounded`).
* **Filter ring without memory.** The poll loop returns in the middle of an iteration with the
  lock held: the tail is then one node ahead (`RunOrder`, reached by `LockHappens`).
* **Refused submissions.** Their result is ignored, and the nodes are gone: a ring can go on
  exactly to the first node lost that way (`LifetimeExact`, `RefusalExact`, `OpenRefused`).
* **Reopened data channels.** 768 buffers are posted whatever is still out, and above 768 the
  refill's unsigned difference wraps: the counter shrinks while nothing is freed
  (`ReopenOverfills`, `RefillCounted`).
* **Nested recovery.** Peers bound on an interface that an interrupted round had reopened are
  dropped by the next round without being freed (`RoundAccounted`, reached by `NestedLoses`). A
  completed round frees the stations of an access point also when it has not reported them
  (`RoundReportsExact`, reached by `FreedUntold`).

## Modelling decisions

* Timestamps are below 2^32 microseconds: the caller builds them from a 32-bit conversion of
  jiffies. 32-bit narrowing and unsigned 64-bit wrap-around are written out where the detector
  uses them; so are the 16- and 32-bit conversions of the refill.
* List elements are identified by numbers, so that conservation can say that each one is in exactly
  one place. Pulses and sequences refused by the allocator are parameters of the step.
* Firmware commands, allocations, submissions and DMA completions succeed, fail or happen as
  parameters say; every theorem holds for all of them unless it names an outcome. The hardware
  completes headers of nodes that it owns, in any order.
* What the firmware keeps of a wake-up filter is read off the names of the sub-commands: enabling
  replaces the rules, appending adds to them, disabling clears them.
* A recovery round is one step. A peer that is bound while it runs, on an interface already
  reopened, counts as bound right after it.
* The step timer carries its expiry and fires at that time or later. Every event of the station
  machine happens at one instant; how late timers and work may run is a parameter (`lag`).
* Each locked section is one step. MAC addresses are numbers and zero is the cleared address.
* `WellFormed` is what `TablesWellFormed` proves of all three rule tables.

## Model

| member | source | states |
|---|---|---|
| `DfsDetector.TablesWellFormed` | userpatches/drivers/seekwave-swt6621s-recon/sources/seekwave-swt6621s/swt6621s_wifi/skw_dfs.c:25-117 | Every rule of the ETSI, FCC and JP tables has a tolerance below its smallest interval, a threshold between 1 and the burst length, widths, counts and interval numbers of 8 bits and intervals of 16 bits; the detector theorems need no more |
| `DfsExact.PeriodNearest` | userpatches/drivers/seekwave-swt6621s-recon/sources/seekwave-swt6621s/swt6621s_wifi/skw_dfs.c:28 | The interval of a frequency is its period to the nearest microsecond |
| `DfsExact.EtsiValues` | userpatches/drivers/seekwave-swt6621s-recon/sources/seekwave-swt6621s/swt6621s_wifi/skw_dfs.c:30-60 | The ETSI table in numbers: width and interval bounds after their tolerances, burst lengths and thresholds |
| `DfsExact.FccValues` | userpatches/drivers/seekwave-swt6621s-recon/sources/seekwave-swt6621s/swt6621s_wifi/skw_dfs.c:62-90 | The same for the FCC table |
| `DfsExact.JpValues` | userpatches/drivers/seekwave-swt6621s-recon/sources/seekwave-swt6621s/swt6621s_wifi/skw_dfs.c:92-117 | The same for the JP table |
| `DfsDetector.FitsExact` | userpatches/drivers/seekwave-swt6621s-recon/sources/seekwave-swt6621s/swt6621s_wifi/skw_dfs.c:336-341 | A past pulse is counted if it lies near any positive number of intervals back |
| `DfsDetector.ExtendExact` | userpatches/drivers/seekwave-swt6621s-recon/sources/seekwave-swt6621s/swt6621s_wifi/skw_dfs.c:247-278 | Every live sequence that the pulse meets near any positive number of intervals after its last one grows by one and moves to it, every other one has one false more, expired ones are gone, and the count handed on is the largest one reached |
| `DfsDetector.MultipleExact` | userpatches/drivers/seekwave-swt6621s-recon/sources/seekwave-swt6621s/swt6621s_wifi/skw_dfs.c:218-245 | A positive result is a positive multiple within tolerance of the value, and the result is positive if and only if any such multiple exists |
| `DfsDetector.ScanOlderMatches` | userpatches/drivers/seekwave-swt6621s-recon/sources/seekwave-swt6621s/swt6621s_wifi/skw_dfs.c:327-353 | The inner scan with its early exit counts exactly the fitting pulses inside the window and ends at the oldest of them |
| `DfsDetector.ScanOlderFalses` | userpatches/drivers/seekwave-swt6621s-recon/sources/seekwave-swt6621s/swt6621s_wifi/skw_dfs.c:327-353 | Its false count is exactly the non-matches newer than the oldest match |
| `DfsDetector.CreateIsFilter` | userpatches/drivers/seekwave-swt6621s-recon/sources/seekwave-swt6621s/swt6621s_wifi/skw_dfs.c:299-374 | The outer scan with its early exit equals the plain filter over the whole queue: exactly pulses at a distance in [pri_min, pri_max] seed a sequence |
| `DfsDetector.BuildCountExact` | userpatches/drivers/seekwave-swt6621s-recon/sources/seekwave-swt6621s/swt6621s_wifi/skw_dfs.c:309-360 | `count` is two plus the in-window matches if and only if the window border does not wrap or nothing was to be counted; without wrap `first_ts` is the oldest match and `count_falses` the non-matches newer than it |
| `DfsDetector.FirstConfident` | userpatches/drivers/seekwave-swt6621s-recon/sources/seekwave-swt6621s/swt6621s_wifi/skw_dfs.c:395-414 | The first sequence with enough matches that outweigh its false ones; the length exactly if there is none |
| `DfsRuns.ProcessKeeps` | userpatches/drivers/seekwave-swt6621s-recon/sources/seekwave-swt6621s/swt6621s_wifi/skw_dfs.c:441-506 | One pulse on one detector keeps the queue invariant and keeps every sequence backed by a witness list of logged pulses whose length is its count |
| `DfsRuns.StepKeeps` | userpatches/drivers/seekwave-swt6621s-recon/sources/seekwave-swt6621s/swt6621s_wifi/skw_dfs.c:441-506 | One pulse on all detectors keeps the invariant of all of them, and a radar event comes with evidence for the rule that raised it |
| `DfsRuns.RunKeeps` | userpatches/drivers/seekwave-swt6621s-recon/sources/seekwave-swt6621s/swt6621s_wifi/skw_dfs.c:441-506 | From reset detectors, the invariant holds after every run of pulses, detections and restarts after a detection, with memory refused in any pattern; set-up without a reset is the subject of DfsSetup |
| `DfsRuns.QueueInvariant` | userpatches/drivers/seekwave-swt6621s-recon/sources/seekwave-swt6621s/swt6621s_wifi/skw_dfs.c:181-216 | On every run the queue strictly decreases with gaps of at least the tolerance, starts at `last_ts`, lies within the window and has `count` entries, at most 2*ppb - 1 |
| `DfsRuns.DetectionSound` | userpatches/drivers/seekwave-swt6621s-recon/sources/seekwave-swt6621s/swt6621s_wifi/skw_dfs.c:247-506 | On every run a radar event implies at least ppb_thresh distinct pulses since the last reset, all accepted by the rule, within (ppb - 1) intervals and 32 microseconds, each near a positive multiple of the interval from the pulse that it joined; and of the pulses taken since the sequence began those that did not match are at most nr_pri times as many |
| `DfsRuns.LogIsFed` | userpatches/drivers/seekwave-swt6621s-recon/sources/seekwave-swt6621s/swt6621s_wifi/skw_dfs.c:441-506 | The pulses that this evidence is taken from were fed in during the run |
| `DfsCompleteness.TrackStep` | userpatches/drivers/seekwave-swt6621s-recon/sources/seekwave-swt6621s/swt6621s_wifi/skw_dfs.c:247-506 | Pulse n+1 of an exact burst extends the one tracked sequence without starting another, and raises radar exactly at max(2, ppb_thresh) |
| `DfsCompleteness.FollowStep` | userpatches/drivers/seekwave-swt6621s-recon/sources/seekwave-swt6621s/swt6621s_wifi/skw_dfs.c:247-506 | The next pulse of a burst, near any positive number of intervals after the one before and within the span of the sequence, is counted in the one sequence there is, and raises radar exactly at max(2, ppb_thresh) |
| `DfsCompleteness.GappedBurstDetected` | userpatches/drivers/seekwave-swt6621s-recon/sources/seekwave-swt6621s/swt6621s_wifi/skw_dfs.c:247-506 | From a reset detector, among any other rules, max(2, ppb_thresh) accepted pulses raise radar if the first distance is an interval of the rule and each further one is near a positive number of intervals, all within one span: pulses may be missing and jitter |
| `DfsCompleteness.BurstDetected` | userpatches/drivers/seekwave-swt6621s-recon/sources/seekwave-swt6621s/swt6621s_wifi/skw_dfs.c:247-506 | The same for a burst at an exact period |
| `DfsDriver.Pools.GetPulse` | userpatches/drivers/seekwave-swt6621s-recon/sources/seekwave-swt6621s/swt6621s_wifi/skw_dfs.c:155-169 | A pool element or a fresh one is handed out; nothing is lost or handed out twice |
| `DfsDriver.Pools.GetPseq` | userpatches/drivers/seekwave-swt6621s-recon/sources/seekwave-swt6621s/swt6621s_wifi/skw_dfs.c:280-297 | The same for sequence elements |
| `DfsDriver.PriDetector.CheckWindow` | userpatches/drivers/seekwave-swt6621s-recon/sources/seekwave-swt6621s/swt6621s_wifi/skw_dfs.c:196-216 | Ageing drops exactly the specified old end of the queue and returns its elements to the pool |
| `DfsDriver.PriDetector.EnqueuePulse` | userpatches/drivers/seekwave-swt6621s-recon/sources/seekwave-swt6621s/swt6621s_wifi/skw_dfs.c:416-439 | The new queue is the specified one, and pool plus queue hold what they held before plus what was made |
| `DfsDriver.PriDetector.AddToExisting` | userpatches/drivers/seekwave-swt6621s-recon/sources/seekwave-swt6621s/swt6621s_wifi/skw_dfs.c:247-278 | After the loop each live sequence has counted the pulse exactly if it lies near a positive number of intervals after its last one, and as false otherwise; the count returned is the largest reached, and expired elements are in the pool |
| `DfsDriver.PriDetector.ScanBack` | userpatches/drivers/seekwave-swt6621s-recon/sources/seekwave-swt6621s/swt6621s_wifi/skw_dfs.c:327-353 | The inner loop computes the specified scan |
| `DfsDriver.PriDetector.CreateSequences` | userpatches/drivers/seekwave-swt6621s-recon/sources/seekwave-swt6621s/swt6621s_wifi/skw_dfs.c:299-374 | The outer loop puts exactly the specified new sequences in front, or fails because memory for one of them was refused, each allocation by itself; elements are conserved either way |
| `DfsDriver.PriDetector.CheckDetection` | userpatches/drivers/seekwave-swt6621s-recon/sources/seekwave-swt6621s/swt6621s_wifi/skw_dfs.c:395-414 | The loop finds the first confident sequence |
| `DfsDriver.PriDetector.EmptyLists` | userpatches/drivers/seekwave-swt6621s-recon/sources/seekwave-swt6621s/swt6621s_wifi/skw_dfs.c:376-393 | A reset empties both lists into the pools and sets `count` and `last_ts` |
| `DfsDriver.PriDetector.ProcessPulse` | userpatches/drivers/seekwave-swt6621s-recon/sources/seekwave-swt6621s/swt6621s_wifi/skw_dfs.c:467-502 | One detector's share of a pulse refines the specification and conserves elements |
| `DfsDriver.Move` | userpatches/drivers/seekwave-swt6621s-recon/sources/seekwave-swt6621s/swt6621s_wifi/skw_dfs.c:137-169 | Moving elements between the pool and one detector keeps every element in exactly one place across all detectors |
| `DfsDriver.Radar.AddPulse` | userpatches/drivers/seekwave-swt6621s-recon/sources/seekwave-swt6621s/swt6621s_wifi/skw_dfs.c:441-506 | The whole entry point refines one step of the run model, whose refusals are among those that happened, and keeps, across all detectors, every pulse and sequence element in exactly one place |
| `DfsExact.EnqueueExact` | userpatches/drivers/seekwave-swt6621s-recon/sources/seekwave-swt6621s/swt6621s_wifi/skw_dfs.c:196-216 | The kept queue is the newest part of what there was: all of it within pri_max * ppb * nr_pri of the pulse, and what was dropped was outside or one beyond 2*ppb - 1 |
| `DfsExact.ProcessExact` | userpatches/drivers/seekwave-swt6621s-recon/sources/seekwave-swt6621s/swt6621s_wifi/skw_dfs.c:467-502 | A pulse is ignored exactly if width, modulation or distance is wrong; it is reported exactly if some sequence, new or live, has the threshold and no more false pulses than nr_pri times its matches; a refused sequence empties the detector, a refused queue entry leaves queue and timestamp alone |
| `DfsExact.SweepExact` | userpatches/drivers/seekwave-swt6621s-recon/sources/seekwave-swt6621s/swt6621s_wifi/skw_dfs.c:457-502 | Each detector takes its own share of a pulse, up to the first that reports, which empties them all |
| `DfsExact.StepExact` | userpatches/drivers/seekwave-swt6621s-recon/sources/seekwave-swt6621s/swt6621s_wifi/skw_dfs.c:441-506 | A pulse out of order empties every detector at its time, and a radar event ends monitoring until it is started again |
| `DfsSetup.ChanInitExact` | userpatches/drivers/seekwave-swt6621s-recon/sources/seekwave-swt6621s/swt6621s_wifi/skw_dfs.c:571-580 | Channel set-up keeps the queue invariant if and only if no pulse was counted |
| `DfsSetup.RawIsProcess` | userpatches/drivers/seekwave-swt6621s-recon/sources/seekwave-swt6621s/swt6621s_wifi/skw_dfs.c:416-439 | A detector that keeps its own pulse counter is the detector of the other theorems whenever that counter is right |
| `DfsSetup.HappenIsProcess` | userpatches/drivers/seekwave-swt6621s-recon/sources/seekwave-swt6621s/swt6621s_wifi/skw_dfs.c:416-506 | So is one that is refused memory |
| `DfsSetup.BlindForEver` | userpatches/drivers/seekwave-swt6621s-recon/sources/seekwave-swt6621s/swt6621s_wifi/skw_dfs.c:416-439 | With a counter of 2*ppb - 1 and empty lists no pulses whatsoever raise an event until a reset |
| `DfsSetup.SetupBurst` | userpatches/drivers/seekwave-swt6621s-recon/sources/seekwave-swt6621s/swt6621s_wifi/skw_dfs.c:571-580 | After set-up, from any counter within its limit, a clean burst of max(2, ppb_thresh) pulses is detected if and only if the counter left behind is below 2*ppb - 1 |
| `DfsSetup.QueuedCounted` | userpatches/drivers/seekwave-swt6621s-recon/sources/seekwave-swt6621s/swt6621s_wifi/skw_dfs.c:416-439 | The counter always covers the queue and stays below its limit, so ageing and dropping never make it wrap |
| `DfsSetup.LifeCounted` | userpatches/drivers/seekwave-swt6621s-recon/sources/seekwave-swt6621s/swt6621s_wifi/skw_dfs.c:416-580 | The same over any pulses, with memory refused in any pattern, resets and set-ups |
| `DfsSetup.AnySetupBurst` | userpatches/drivers/seekwave-swt6621s-recon/sources/seekwave-swt6621s/swt6621s_wifi/skw_dfs.c:528-583 | The same condition for a burst after any number of pulses, resets and set-ups |
| `DfsSetup.BlindLife` | userpatches/drivers/seekwave-swt6621s-recon/sources/seekwave-swt6621s/swt6621s_wifi/skw_dfs.c:528-583 | Neither pulses nor further set-ups end blindness |
| `DfsSetup.BlindnessHappens` | userpatches/drivers/seekwave-swt6621s-recon/sources/seekwave-swt6621s/swt6621s_wifi/skw_dfs.c:571-580 | With the whole FCC table, one chirp before set-up leaves the long-pulse detector blind to all pulses over all further set-ups |
| `DfsSetup.SweepOne` | userpatches/drivers/seekwave-swt6621s-recon/sources/seekwave-swt6621s/swt6621s_wifi/skw_dfs.c:457-502 | A pulse that only one rule accepts changes that rule's detector and no other |
| `DfsSetup.TwoTaken` | userpatches/drivers/seekwave-swt6621s-recon/sources/seekwave-swt6621s/swt6621s_wifi/skw_dfs.c:441-506 | From a reset, the first two pulses of a burst are queued |
| `DfsSetup.EarlyUndercount` | userpatches/drivers/seekwave-swt6621s-recon/sources/seekwave-swt6621s/swt6621s_wifi/skw_dfs.c:327-353 | On that queue, a third pulse within one duration of time zero builds a sequence that misses the first one, which fits and lies in its window |
| `DfsSetup.ChanInitLoses` | userpatches/drivers/seekwave-swt6621s-recon/sources/seekwave-swt6621s/swt6621s_wifi/skw_dfs.c:571-580 | Channel set-up keeps conservation if and only if all lists were empty |
| `DfsSetup.SetUpLoses` | userpatches/drivers/seekwave-swt6621s-recon/sources/seekwave-swt6621s/swt6621s_wifi/skw_dfs.c:571-580 | A run of the driver with the whole FCC table after which set-up loses a pulse element |
| `WowCompiler.WantExact` | userpatches/drivers/seekwave-swt6621s-recon/sources/seekwave-swt6621s/swt6621s_wifi/skw_cfg80211.c:5052-5054 | Pattern byte 8 * q + b is wanted if and only if bit b of mask byte q, counted from the low end, is set |
| `WowCompiler.RuleCompiled` | userpatches/drivers/seekwave-swt6621s-recon/sources/seekwave-swt6621s/swt6621s_wifi/skw_cfg80211.c:5040-5083 | The rule bytes, read back, take every packet that mask and pattern want, and exactly those if and only if their cost is at most 64 |
| `WowCompiler.FinishMeans` | userpatches/drivers/seekwave-swt6621s-recon/sources/seekwave-swt6621s/swt6621s_wifi/skw_cfg80211.c:5040-5083 | A packet satisfies the runs compiled so far if and only if it agrees with the pattern on the masked bytes dealt with so far |
| `WowCompiler.NeverMisses` | userpatches/drivers/seekwave-swt6621s-recon/sources/seekwave-swt6621s/swt6621s_wifi/skw_cfg80211.c:5040-5083 | A packet that matches the masked pattern satisfies the rule, truncated or not |
| `WowCompiler.WholeIffLight` | userpatches/drivers/seekwave-swt6621s-recon/sources/seekwave-swt6621s/swt6621s_wifi/skw_cfg80211.c:5040-5083 | No masked byte is cut off if and only if the pattern's weight is at most 64 |
| `WowCompiler.ExactIffLight` | userpatches/drivers/seekwave-swt6621s-recon/sources/seekwave-swt6621s/swt6621s_wifi/skw_cfg80211.c:5040-5083 | The rule accepts exactly the wanted packets if and only if the weight is at most 64; otherwise a decoy packet is accepted |
| `WowCompiler.DecodeFlatten` | userpatches/drivers/seekwave-swt6621s-recon/sources/seekwave-swt6621s/swt6621s_wifi/skw_cfg80211.c:5040-5083 | Reading the rule bytes back gives the runs |
| `WowCompiler.CompileRule` | userpatches/drivers/seekwave-swt6621s-recon/sources/seekwave-swt6621s/swt6621s_wifi/skw_cfg80211.c:5040-5083 | What the loop writes into 64 bytes is read back as runs that take every packet agreeing with the pattern wherever the mask, bit j % 8 of byte j / 8, asks for it; and they take no other packet exactly if the bytes asked for, with five for each stretch of them, are at most 64 |
| `WowSender.BitsExact` | userpatches/drivers/seekwave-swt6621s-recon/sources/seekwave-swt6621s/swt6621s_wifi/skw_iw.c:660-718 | The list of a map's bits holds exactly the set positions, ascending |
| `WowSender.LowestBit` | userpatches/drivers/seekwave-swt6621s-recon/sources/seekwave-swt6621s/swt6621s_wifi/skw_iw.c:660-718 | The odd part of a number gives its lowest set bit, and taking that away leaves the other bits |
| `WowSender.Ffs64` | userpatches/drivers/seekwave-swt6621s-recon/sources/seekwave-swt6621s/swt6621s_wifi/skw_iw.c:660-718 | Zero exactly for zero; else one plus the lowest set bit |
| `WowSender.BatchesExact` | userpatches/drivers/seekwave-swt6621s-recon/sources/seekwave-swt6621s/swt6621s_wifi/skw_iw.c:720-884 | The messages concatenate to the rules sent, number n/20 + 1, and each fits the buffer |
| `WowSender.FitAll` | userpatches/drivers/seekwave-swt6621s-recon/sources/seekwave-swt6621s/swt6621s_wifi/skw_iw.c:744-749 | All rules go out if and only if none is longer than 1395 bytes, the room left for it in the buffer |
| `WowSender.FitCut` | userpatches/drivers/seekwave-swt6621s-recon/sources/seekwave-swt6621s/swt6621s_wifi/skw_iw.c:744-749 | Otherwise the first one left out is longer |
| `WowSender.FillMessage` | userpatches/drivers/seekwave-swt6621s-recon/sources/seekwave-swt6621s/swt6621s_wifi/skw_iw.c:744-768 | One message takes the next twenty enabled rules or all that are left |
| `WowSender.SendAppend` | userpatches/drivers/seekwave-swt6621s-recon/sources/seekwave-swt6621s/swt6621s_wifi/skw_iw.c:720-789 | The recursion sends the specified batches; those with rules append them, one without rules has sub-command 0, which disables everything |
| `WowSender.SendFilter` | userpatches/drivers/seekwave-swt6621s-recon/sources/seekwave-swt6621s/swt6621s_wifi/skw_iw.c:813-884 | The sender sends the specified batches whatever each transmission returns, the first enabling and the others appending except an empty one, which disables everything; the result is that of the last, and an empty firmware is left with all rules sent exactly under the condition of `SendingExact` |
| `WowSender.BatchesLast` | userpatches/drivers/seekwave-swt6621s-recon/sources/seekwave-swt6621s/swt6621s_wifi/skw_iw.c:761-764 | Only the last message can be empty, exactly for a multiple of 20 |
| `WowSender.KeptConcat` | userpatches/drivers/seekwave-swt6621s-recon/sources/seekwave-swt6621s/swt6621s_wifi/skw_iw.c:720-884 | As long as no message is empty the firmware is left with all rules if and only if every message arrives |
| `WowSender.SendingExact` | userpatches/drivers/seekwave-swt6621s-recon/sources/seekwave-swt6621s/swt6621s_wifi/skw_iw.c:720-884 | The firmware is left with all rules if and only if every message arrives and their number is not a multiple of 20, or, for a multiple of 20, exactly the last message is lost |
| `WowSender.FilterHonest` | userpatches/drivers/seekwave-swt6621s-recon/sources/seekwave-swt6621s/swt6621s_wifi/skw_iw.c:720-884 | A result of zero means that all rules have arrived, whatever the transmissions return, if and only if there are fewer than 20 |
| `WowSender.TwentyRulesVanish` | userpatches/drivers/seekwave-swt6621s-recon/sources/seekwave-swt6621s/swt6621s_wifi/skw_iw.c:813-884 | Twenty enabled rules go out in one message and are switched off by the next, with every transmission successful and the result 0 |
| `WowSender.RemapIdx` | userpatches/drivers/seekwave-swt6621s-recon/sources/seekwave-swt6621s/swt6621s_wifi/skw_iw.c:791-811 | The loop names the count-th enabled index, the last one beyond the end and 255 from 64 on |
| `WowSender.RemapBeyond` | userpatches/drivers/seekwave-swt6621s-recon/sources/seekwave-swt6621s/swt6621s_wifi/skw_iw.c:791-811 | Beyond the enabled rules it is the highest one, up to position 63, and 255 from 64 on |
| `WowSender.RemapInverse` | userpatches/drivers/seekwave-swt6621s-recon/sources/seekwave-swt6621s/swt6621s_wifi/skw_iw.c:720-884 | The k-th rule sent over all messages is the one that the remapping names for k, and everything enabled is sent if and only if no enabled rule is too long |
| `KeepAlive.RequestExact` | userpatches/drivers/seekwave-swt6621s-recon/sources/seekwave-swt6621s/swt6621s_wifi/skw_iw.c:601-640 | A request touches its own index only, and nothing from index 18 or 128 packet bytes on; a packet is stored only with an interval |
| `KeepAlive.FittingAll` | userpatches/drivers/seekwave-swt6621s-recon/sources/seekwave-swt6621s/swt6621s_wifi/skw_iw.c:274-298 | A message takes all rules of a list if and only if they are stored, few enough and together short enough |
| `KeepAlive.SentExact` | userpatches/drivers/seekwave-swt6621s-recon/sources/seekwave-swt6621s/swt6621s_wifi/skw_iw.c:319-391 | What is sent is a prefix of the enabled rules in ascending order, and all of them if and only if each is stored and the first nine and the others fit 1300 bytes each |
| `KeepAlive.ShortExact` | userpatches/drivers/seekwave-swt6621s-recon/sources/seekwave-swt6621s/swt6621s_wifi/skw_iw.c:601-624 | With packets of the length that a request accepts, everything enabled is sent if and only if all of it is stored |
| `KeepAlive.RunHolds` | userpatches/drivers/seekwave-swt6621s-recon/sources/seekwave-swt6621s/swt6621s_wifi/skw_iw.c:184-233 | After any requests an index is enabled if and only if the last accepted request for it enabled it, and stored if and only if one gave a packet; no stored rule is longer than 135 bytes |
| `KeepAlive.RunExact` | userpatches/drivers/seekwave-swt6621s-recon/sources/seekwave-swt6621s/swt6621s_wifi/skw_iw.c:184-391 | After any requests, everything enabled is sent if and only if each index last enabled has once been given a packet |
| `KeepAlive.OneHidesAll` | userpatches/drivers/seekwave-swt6621s-recon/sources/seekwave-swt6621s/swt6621s_wifi/skw_iw.c:343-350 | One index enabled without a packet keeps the rule behind it from being sent |
| `KeepAlive.MessagesCarry` | userpatches/drivers/seekwave-swt6621s-recon/sources/seekwave-swt6621s/swt6621s_wifi/skw_iw.c:319-391 | The messages carry exactly the rules sent |
| `KeepAlive.MessagesOrder` | userpatches/drivers/seekwave-swt6621s-recon/sources/seekwave-swt6621s/swt6621s_wifi/skw_iw.c:373-391 | Everything is switched off first, then at most one message enables rules and at most one appends |
| `KeepAlive.ResultLast` | userpatches/drivers/seekwave-swt6621s-recon/sources/seekwave-swt6621s/swt6621s_wifi/skw_iw.c:319-391 | The result is that of the last message, or zero after a full first one; it is zero if every message arrives |
| `KeepAlive.HonestExact` | userpatches/drivers/seekwave-swt6621s-recon/sources/seekwave-swt6621s/swt6621s_wifi/skw_iw.c:319-391 | A result of zero means that every message with rules was accepted, whatever the transmissions return, if and only if the first message is not full |
| `KeepAlive.NineUntold` | userpatches/drivers/seekwave-swt6621s-recon/sources/seekwave-swt6621s/swt6621s_wifi/skw_iw.c:387-391 | After nine requests, a refused first message goes unnoticed: the append function sends nothing and returns zero |
| `KeepAlive.Fill` | userpatches/drivers/seekwave-swt6621s-recon/sources/seekwave-swt6621s/swt6621s_wifi/skw_iw.c:341-367 | The loop takes the specified rules, and leaves exactly the others in the map when it is full |
| `KeepAlive.KeepSet.Save` | userpatches/drivers/seekwave-swt6621s-recon/sources/seekwave-swt6621s/swt6621s_wifi/skw_iw.c:184-233 | The index is enabled or disabled and the packet stored; an index from 18 on is refused and changes nothing |
| `KeepAlive.KeepSet.AppendRules` | userpatches/drivers/seekwave-swt6621s-recon/sources/seekwave-swt6621s/swt6621s_wifi/skw_iw.c:252-317 | The specified second message, or none and zero |
| `KeepAlive.KeepSet.EnableRules` | userpatches/drivers/seekwave-swt6621s-recon/sources/seekwave-swt6621s/swt6621s_wifi/skw_iw.c:341-383 | Everything is switched off, then the specified first message goes out if there is one |
| `KeepAlive.KeepSet.SendRules` | userpatches/drivers/seekwave-swt6621s-recon/sources/seekwave-swt6621s/swt6621s_wifi/skw_iw.c:319-391 | The specified messages and result, also without memory; all enabled rules travel if and only if each is stored |
| `KeepAlive.KeepSet.Set` | userpatches/drivers/seekwave-swt6621s-recon/sources/seekwave-swt6621s/swt6621s_wifi/skw_iw.c:395-651 | A request changes the tables as specified and sends everything enabled again, or is refused and changes and sends nothing |
| `MgmtSplit.ElementsFlat` | userpatches/drivers/seekwave-swt6621s-recon/sources/seekwave-swt6621s/swt6621s_wifi/skw_cfg80211.c:4090-4137 | A body that reads as elements is the concatenation of those elements |
| `MgmtSplit.PackExact` | userpatches/drivers/seekwave-swt6621s-recon/sources/seekwave-swt6621s/swt6621s_wifi/skw_cfg80211.c:4090-4137 | Greedy packing keeps all elements in order, whole, with no empty message and each below 1500 bytes with the header |
| `MgmtSplit.SplitReport` | userpatches/drivers/seekwave-swt6621s-recon/sources/seekwave-swt6621s/swt6621s_wifi/skw_cfg80211.c:4067-4194 | The loop ends; it stays inside the frame if and only if the body is a list of whole elements, and then sends the packed messages whatever the sends return; the result is 0 in any case, and the whole report got through if and only if there was memory and no send failed |
| `MgmtSplit.AcceptedAll` | userpatches/drivers/seekwave-swt6621s-recon/sources/seekwave-swt6621s/swt6621s_wifi/skw_cfg80211.c:4109-4131 | Everything gets through if and only if no send fails |
| `MgmtSplit.FailureUntold` | userpatches/drivers/seekwave-swt6621s-recon/sources/seekwave-swt6621s/swt6621s_wifi/skw_cfg80211.c:4095-4137 | A report that is too long for any bus and of which nothing gets through, with the result 0 |
| `MgmtSplit.ReportSplit` | userpatches/drivers/seekwave-swt6621s-recon/sources/seekwave-swt6621s/swt6621s_wifi/skw_cfg80211.c:4090-4137 | Each message is the original header plus whole consecutive elements, under 1500 bytes, and together they are the report |
| `MgmtSplit.ChunksExact` | userpatches/drivers/seekwave-swt6621s-recon/sources/seekwave-swt6621s/swt6621s_wifi/skw_cfg80211.c:4139-4162 | The parts concatenate to the frame, at most 1500 bytes each, only the last one shorter, as few as possible |
| `MgmtSplit.SplitPlain` | userpatches/drivers/seekwave-swt6621s-recon/sources/seekwave-swt6621s/swt6621s_wifi/skw_cfg80211.c:4139-4162 | The loop sends the parts in order and ends at the first send that fails; it succeeds if and only if none does |
| `StationHistory.ConnectedExact` | userpatches/drivers/seekwave-swt6621s-recon/sources/seekwave-swt6621s/swt6621s_wifi/skw_msg.c:214-290 | On every run from the start the station is connected if and only if the bound peer has accepted the association or been authorized and nothing since has ended it: no refusal or deauthentication from that peer, no authentication frame from its BSS, no disconnect and no request for another BSS |
| `StationHistory.CompletedExact` | userpatches/drivers/seekwave-swt6621s-recon/sources/seekwave-swt6621s/swt6621s_wifi/skw_msg.c:214-290 | The connection is complete if and only if the peer was authorized, and not associated again, since |
| `StationHistory.RefusalIdles` | userpatches/drivers/seekwave-swt6621s-recon/sources/seekwave-swt6621s/swt6621s_wifi/skw_msg.c:245-267 | A refusal from the bound peer leaves the station idle over every run until a request whose commands succeed, an authentication frame or an acceptance moves it |
| `StationExact.RunAgrees` | userpatches/drivers/seekwave-swt6621s-recon/sources/seekwave-swt6621s/swt6621s_wifi/skw_cfg80211.c:3193-3233 | The BSS record and the bound peer agree on every run |
| `StationExact.WorkExact` | userpatches/drivers/seekwave-swt6621s-recon/sources/seekwave-swt6621s/swt6621s_wifi/skw_iface.c:449-608 | The timer work gives up exactly if the attempt is 9.6 s old, a command fails, or a step that is late has used its 3 or 5 sends and may not start over: it is no open station, the phase is too old or it has started over three times; otherwise it goes on with the timer armed and has sent exactly the command due |
| `StationExact.WorkElse` | userpatches/drivers/seekwave-swt6621s-recon/sources/seekwave-swt6621s/swt6621s_wifi/skw_iface.c:449-460 | Between authentication and association the work waits 300 ms and then leaves; in any other state it does nothing |
| `StationExact.AuthExact` | userpatches/drivers/seekwave-swt6621s-recon/sources/seekwave-swt6621s/swt6621s_wifi/skw_cfg80211.c:3290-3421 | A request begins an attempt exactly if none is pending, what was bound is left, the channel and the join succeed and both commands do; otherwise it is turned down unchanged or leaves the station idle, with exactly the peer that could not be left |
| `StationExact.AssocExact` | userpatches/drivers/seekwave-swt6621s-recon/sources/seekwave-swt6621s/swt6621s_wifi/skw_cfg80211.c:3433-3515 | A request to associate goes out exactly from AUTHED or from a connection to another BSS that is left and joined; a failing command ends it |
| `StationExact.RxAuthExact` | userpatches/drivers/seekwave-swt6621s-recon/sources/seekwave-swt6621s/swt6621s_wifi/skw_msg.c:146-212 | An authentication frame counts only from the recorded BSS, and restarts the step; a refusal leaves the peer unless association is being redone |
| `StationExact.RxAssocExact` | userpatches/drivers/seekwave-swt6621s-recon/sources/seekwave-swt6621s/swt6621s_wifi/skw_msg.c:214-290 | Association responses and authorizations count only from the bound peer and touch nothing but the state |
| `StationExact.TimerExact` | userpatches/drivers/seekwave-swt6621s-recon/sources/seekwave-swt6621s/swt6621s_wifi/skw_iface.c:613-624 | The timer queues the work when it is due, and not before |
| `StationExact.LeaveExact` | userpatches/drivers/seekwave-swt6621s-recon/sources/seekwave-swt6621s/swt6621s_wifi/skw_cfg80211.c:3235-3271 | A deauthentication counts only from the bound peer; that and a disconnect end in idle without a timer, and without the peer exactly if it was told |
| `Station.AliveExact` | userpatches/drivers/seekwave-swt6621s-recon/sources/seekwave-swt6621s/swt6621s_wifi/skw_cfg80211.c:3193-3515 | A pending step keeps a bound peer for the current BSSID and a timer or queued work, over every event, if and only if the event is not one of two kinds of authentication frame |
| `Station.RunAlive` | userpatches/drivers/seekwave-swt6621s-recon/sources/seekwave-swt6621s/swt6621s_wifi/skw_cfg80211.c:3193-3515 | The same over every run without such events |
| `Station.Stranded` | userpatches/drivers/seekwave-swt6621s-recon/sources/seekwave-swt6621s/swt6621s_wifi/skw_msg.c:146-212 | What such a refusal leaves: ASSOCING without peer or timer, which no request, timer or work changes |
| `StationRuns.StrandingHappens` | userpatches/drivers/seekwave-swt6621s-recon/sources/seekwave-swt6621s/swt6621s_wifi/skw_iface.c:535-623 | A run from the start, in order of time and with each timer firing when it is due, that reaches such a refusal |
| `StationRuns.LateFrameStrands` | userpatches/drivers/seekwave-swt6621s-recon/sources/seekwave-swt6621s/swt6621s_wifi/skw_msg.c:146-212 | A run from the start that reaches the other kind: a repeated authentication frame when nothing is armed |
| `Station.DeadlineEnds` | userpatches/drivers/seekwave-swt6621s-recon/sources/seekwave-swt6621s/swt6621s_wifi/skw_iface.c:449-608 | Work that runs later than both timeouts after the start ends AUTHING and ASSOCING |
| `Station.StepBudget` | userpatches/drivers/seekwave-swt6621s-recon/sources/seekwave-swt6621s/swt6621s_wifi/skw_iface.c:449-608 | No event makes commands sent plus commands still possible grow, except a surplus one, by five ASSOC |
| `Station.RunBudget` | userpatches/drivers/seekwave-swt6621s-recon/sources/seekwave-swt6621s/swt6621s_wifi/skw_iface.c:449-608 | The same over every interleaving |
| `Station.AttemptBound` | userpatches/drivers/seekwave-swt6621s-recon/sources/seekwave-swt6621s/swt6621s_wifi/skw_iface.c:449-608 | Between two authentication requests at most 12 AUTH for an open station and 3 for others; at most 17 and 5 ASSOC, plus 5 for each surplus event |
| `Station.StepCapped` | userpatches/drivers/seekwave-swt6621s-recon/sources/seekwave-swt6621s/swt6621s_wifi/skw_iface.c:449-608 | Every event keeps commands sent plus commands possible within 12 or 3 AUTH and 17 or 5 ASSOC, plus 5 for each surplus event of the attempt |
| `StationRuns.Resends` | userpatches/drivers/seekwave-swt6621s-recon/sources/seekwave-swt6621s/swt6621s_wifi/skw_iface.c:535-623 | Time-outs 300 ms apart, each when the timer set by the one before expires, send the pending command again |
| `StationRuns.AuthBoundReached` | userpatches/drivers/seekwave-swt6621s-recon/sources/seekwave-swt6621s/swt6621s_wifi/skw_iface.c:469-518 | A run in order of time, with each timer firing when it is due, that sends the 12 AUTH commands |
| `StationRuns.AssocBoundReached` | userpatches/drivers/seekwave-swt6621s-recon/sources/seekwave-swt6621s/swt6621s_wifi/skw_iface.c:535-584 | Such a run, without surplus events, that sends the 17 ASSOC commands |
| `StationRuns.DuplicatesUnbounded` | userpatches/drivers/seekwave-swt6621s-recon/sources/seekwave-swt6621s/swt6621s_wifi/skw_msg.c:146-212 | From the start and in order of time, n authentication frames nobody waits for let n + 1 ASSOC commands out in one attempt |
| `StationTime.StepTimely` | userpatches/drivers/seekwave-swt6621s-recon/sources/seekwave-swt6621s/swt6621s_wifi/skw_iface.c:428-623 | Every event keeps: a pending step has a timer or work that expired or will expire by a bound known from the start of the attempt and the last surplus event |
| `StationTime.RunTimely` | userpatches/drivers/seekwave-swt6621s-recon/sources/seekwave-swt6621s/swt6621s_wifi/skw_iface.c:428-623 | The same over every run in which nothing is overdue by more than the lag |
| `StationTime.AttemptOver` | userpatches/drivers/seekwave-swt6621s-recon/sources/seekwave-swt6621s/swt6621s_wifi/skw_iface.c:428-623 | On every such run from the start that strands nothing, AUTHING is over 9.9 s and one lag after the request, and the attempt 0.6 s and one lag after that or after the last surplus event |
| `StationTime.PlainAttemptOver` | userpatches/drivers/seekwave-swt6621s-recon/sources/seekwave-swt6621s/swt6621s_wifi/skw_iface.c:428-623 | Without surplus events an attempt is over 10.5 s and two lags after its request |
| `StationTime.HeldOpen` | userpatches/drivers/seekwave-swt6621s-recon/sources/seekwave-swt6621s/swt6621s_wifi/skw_msg.c:146-212 | A peer that repeats its authentication frame every 300 ms holds the attempt open for any time, with every timer on time |
| `StationDriver.StaCore.Authenticate` | userpatches/drivers/seekwave-swt6621s-recon/sources/seekwave-swt6621s/swt6621s_wifi/skw_cfg80211.c:3290-3421 | A request keeps every pending step driven and sends nothing beyond the budget, unless it begins a new attempt |
| `StationDriver.StaCore.Associate` | userpatches/drivers/seekwave-swt6621s-recon/sources/seekwave-swt6621s/swt6621s_wifi/skw_cfg80211.c:3433-3515 | Association, also from another BSS, keeps every pending step driven and stays within the budget |
| `StationDriver.StaCore.UnjoinBss` | userpatches/drivers/seekwave-swt6621s-recon/sources/seekwave-swt6621s/swt6621s_wifi/skw_cfg80211.c:3193-3233 | Success means that no peer of that BSS is bound any more, failure that nothing changed; the BSS record and the bound peer go on agreeing |
| `StationDriver.StaCore.LeaveBss` | userpatches/drivers/seekwave-swt6621s-recon/sources/seekwave-swt6621s/swt6621s_wifi/skw_cfg80211.c:3235-3271 | Afterwards the station is idle without a timer, and without that peer if the command went through |
| `StationDriver.StaCore.StaWork` | userpatches/drivers/seekwave-swt6621s-recon/sources/seekwave-swt6621s/swt6621s_wifi/skw_iface.c:428-611 | The timer work keeps a pending step driven, stays within the budget, and past the overall deadline ends it |
| `StationDriver.StaCore.RxAuthFrame` | userpatches/drivers/seekwave-swt6621s-recon/sources/seekwave-swt6621s/swt6621s_wifi/skw_msg.c:146-212 | An authentication frame keeps a pending step driven exactly unless it strands it, and stays within the budget |
| `StationDriver.StaCore.RxAssocFrame` | userpatches/drivers/seekwave-swt6621s-recon/sources/seekwave-swt6621s/swt6621s_wifi/skw_msg.c:214-290 | An association response from the bound peer decides between associated and idle, any other changes nothing; a pending step stays driven and within budget |
| `StationDriver.StaCore.Handle` | userpatches/drivers/seekwave-swt6621s-recon/sources/seekwave-swt6621s/swt6621s_wifi/skw_iface.c:428-611 | Whatever happens, the fields keep the caps of the attempt in `Valid()`, the station stays driven exactly unless the event strands it, and no command goes beyond the budget |
| `PeerCtx.BindExact` | userpatches/drivers/seekwave-swt6621s-recon/sources/seekwave-swt6621s/swt6621s_wifi/skw_iface.c:1246-1278 | Binding keeps all accounting if and only if nothing is published and the context is free or the same interface's |
| `PeerCtx.EnableKeeps` | userpatches/drivers/seekwave-swt6621s-recon/sources/seekwave-swt6621s/swt6621s_wifi/skw_iface.c:1206-1223 | Publishing keeps it: flagged peers are refused, so no entry is counted twice |
| `PeerCtx.DisableKeeps` | userpatches/drivers/seekwave-swt6621s-recon/sources/seekwave-swt6621s/swt6621s_wifi/skw_iface.c:1224-1233 | Withdrawing keeps it |
| `PeerCtx.TransmitsExact` | userpatches/drivers/seekwave-swt6621s-recon/sources/seekwave-swt6621s/swt6621s_wifi/skw_iface.c:1206-1234 | After enabling, a context publishes its bound peer if and only if there is one and it was published already or carries no flag; after disabling it publishes nothing; no other context changes |
| `PeerRuns.PublishedExact` | userpatches/drivers/seekwave-swt6621s-recon/sources/seekwave-swt6621s/swt6621s_wifi/skw_iface.c:1206-1278 | After any orderly run a context publishes its peer if and only if some call enabled it while its peer carried no flag and none has disabled it since |
| `PeerRuns.BoundExact` | userpatches/drivers/seekwave-swt6621s-recon/sources/seekwave-swt6621s/swt6621s_wifi/skw_iface.c:1246-1278 | It holds whom it was last given, and publishes nobody else |
| `PeerRuns.FreedExact` | userpatches/drivers/seekwave-swt6621s-recon/sources/seekwave-swt6621s/swt6621s_wifi/skw_iface.c:1246-1278 | A peer is freed if and only if a binding has replaced it |
| `PeerRuns.StepAlloc` | userpatches/drivers/seekwave-swt6621s-recon/sources/seekwave-swt6621s/swt6621s_wifi/skw_iface.c:1087-1095 | No call but an allocation adds a peer, which starts alive, unpublished and with its address and flags |
| `PeerCtx.StepExact` | userpatches/drivers/seekwave-swt6621s-recon/sources/seekwave-swt6621s/swt6621s_wifi/skw_iface.c:1206-1278 | Every call keeps: `actived_ctx` is the number of published entries, a published entry is the bound live peer, bit i is set exactly if context i holds its peer; except exactly a binding that is not clean |
| `PeerCtx.Run` | userpatches/drivers/seekwave-swt6621s-recon/sources/seekwave-swt6621s/swt6621s_wifi/skw_iface.c:1206-1278 | The same over every run that disables before unbinding and binds no context of another interface |
| `PeerCtx.PeerTable.Transmit` | userpatches/drivers/seekwave-swt6621s-recon/sources/seekwave-swt6621s/swt6621s_wifi/skw_iface.c:1206-1234 | After enabling, the bound peer is published exactly if it was already or carries no flag; after disabling nothing is; nothing else changes and the accounting is kept |
| `PeerCtx.PeerTable.BindPeer` | userpatches/drivers/seekwave-swt6621s-recon/sources/seekwave-swt6621s/swt6621s_wifi/skw_iface.c:1246-1278 | The updates refine binding, and keep the accounting exactly under its condition |
| `PeerCtx.PeerTable.Find` | userpatches/drivers/seekwave-swt6621s-recon/sources/seekwave-swt6621s/swt6621s_wifi/skw_iface.c:1297-1330 | The walk over the peer map finds the lowest context bound to the address on this interface, and fails if and only if there is none |
| `EdmaRing.AreaExceedsRing` | userpatches/drivers/seekwave-swt6621s-recon/sources/seekwave-swt6621s/swt6621s_wifi/skw_edma.c:508-514 | There is a header behind the ring if and only if the ring does not fill its pages, and the 0x6a fill leaves every done bit clear |
| `EdmaRing.HeaderLayout` | userpatches/drivers/seekwave-swt6621s-recon/sources/seekwave-swt6621s/swt6621s_wifi/skw_edma.h:109-119 | The done flag is bit 63 of a header and the length its top 16 bits |
| `EdmaRing.FreshHeader` | userpatches/drivers/seekwave-swt6621s-recon/sources/seekwave-swt6621s/swt6621s_wifi/skw_edma.c:508-514 | An untouched header reads as not done |
| `EdmaRing.CreatedInv` | userpatches/drivers/seekwave-swt6621s-recon/sources/seekwave-swt6621s/swt6621s_wifi/skw_edma.c:495-563 | A new ring satisfies the invariant |
| `EdmaRing.PollKeeps` | userpatches/drivers/seekwave-swt6621s-recon/sources/seekwave-swt6621s/swt6621s_wifi/skw_edma.c:914-996 | For every pattern of completions during the loop and every quota: tail, node and pointer stay in step, every header keeps its own node's buffer, a filter ring passes each buffer up once, only nodes that the hardware owns are consumed, and those waiting are exactly as many as counted and the last consumed; or an allocation failed and the tail is one ahead |
| `EdmaRing.ConsumeAccounted` | userpatches/drivers/seekwave-swt6621s-recon/sources/seekwave-swt6621s/swt6621s_wifi/skw_edma.c:944-976 | The node consumed was the hardware's and changes hands once; with the last one the whole ring goes back |
| `EdmaRuns.LastConsumed` | userpatches/drivers/seekwave-swt6621s-recon/sources/seekwave-swt6621s/swt6621s_wifi/skw_edma.c:955-976 | The waiting nodes are the last `rx_node_count` ones consumed |
| `EdmaPoll.PollWalks` | userpatches/drivers/seekwave-swt6621s-recon/sources/seekwave-swt6621s/swt6621s_wifi/skw_edma.c:930-992 | The loop consumes the headers from the tail on, in order, as a walk over what each iteration finds, also across a resubmission inside the loop |
| `EdmaPoll.WalkExact` | userpatches/drivers/seekwave-swt6621s-recon/sources/seekwave-swt6621s/swt6621s_wifi/skw_edma.c:933-943 | Exactly the headers before the first that is incomplete, at the ring's end or without quota are consumed, the quota paying the cumulative count each time |
| `EdmaPoll.PollExact` | userpatches/drivers/seekwave-swt6621s-recon/sources/seekwave-swt6621s/swt6621s_wifi/skw_edma.c:914-996 | Both together: what a poll consumes, counts and leaves of the quota, and why it stops |
| `EdmaRuns.RunOrder` | userpatches/drivers/seekwave-swt6621s-recon/sources/seekwave-swt6621s/swt6621s_wifi/skw_edma.c:914-996 | On every run the k-th header consumed is number k modulo the ring size, the waiting nodes are as many as `rx_node_count` says and are the last consumed, and the cursors agree if and only if no allocation failed |
| `EdmaRuns.LockHappens` | userpatches/drivers/seekwave-swt6621s-recon/sources/seekwave-swt6621s/swt6621s_wifi/skw_edma.c:957-964 | A filter ring that gets no memory stops with the lock held and its tail one ahead |
| `EdmaRuns.Conservation` | userpatches/drivers/seekwave-swt6621s-recon/sources/seekwave-swt6621s/swt6621s_wifi/skw_edma.c:365-399 | On every run with submissions accepted, no node is lost, the nodes that the hardware owns plus `rx_node_count` are the ring size, and the count is below it between steps |
| `EdmaRuns.RunBlocked` | userpatches/drivers/seekwave-swt6621s-recon/sources/seekwave-swt6621s/swt6621s_wifi/skw_edma.c:972-976 | No run gets past a node whose submission was refused |
| `EdmaRuns.LifetimeExact` | userpatches/drivers/seekwave-swt6621s-recon/sources/seekwave-swt6621s/swt6621s_wifi/skw_edma.c:914-996 | From any state n more headers can be consumed by some run if and only if none of the next n nodes is lost: without end if nothing is lost |
| `EdmaRuns.RefusalExact` | userpatches/drivers/seekwave-swt6621s-recon/sources/seekwave-swt6621s/swt6621s_wifi/skw_edma.c:972-976 | After a header is consumed the next one can still be served if and only if the ring was not handed in whole or the submission went through; a refusal leaves every node lost |
| `EdmaRuns.OpenRefused` | userpatches/drivers/seekwave-swt6621s-recon/sources/seekwave-swt6621s/swt6621s_wifi/skw_edma.c:374-399 | After a refused submission at opening exactly as many headers can still be consumed as there were nodes not waiting |
| `EdmaRuns.UnsubmittedDead` | userpatches/drivers/seekwave-swt6621s-recon/sources/seekwave-swt6621s/swt6621s_wifi/skw_edma.c:562-563 | A ring whose first submission is refused never delivers anything |
| `EdmaDriver.Channel.constructor` | userpatches/drivers/seekwave-swt6621s-recon/sources/seekwave-swt6621s/swt6621s_wifi/skw_edma.c:461-571 | Set-up creates the specified ring |
| `EdmaDriver.Channel.Poll` | userpatches/drivers/seekwave-swt6621s-recon/sources/seekwave-swt6621s/swt6621s_wifi/skw_edma.c:914-996 | The loop over the header array refines the specification and keeps the invariant |
| `EdmaDriver.Channel.OpenData` | userpatches/drivers/seekwave-swt6621s-recon/sources/seekwave-swt6621s/swt6621s_wifi/skw_edma.c:374-399 | As many nodes are waiting as the driver submits; afterwards none is, and the invariant holds |
| `EdmaRefill.SetData` | userpatches/drivers/seekwave-swt6621s-recon/sources/seekwave-swt6621s/swt6621s_wifi/skw_edma.c:322-345 | A posted address stays inside the current node's buffer, and the channel stays well-formed |
| `EdmaRefill.PostAllMoves` | userpatches/drivers/seekwave-swt6621s-recon/sources/seekwave-swt6621s/swt6621s_wifi/skw_edma.c:297-345 | From any fill, posting n addresses closes (fill + n) / 32 nodes, leaves (fill + n) % 32 and queues the buffers in order |
| `EdmaRefill.PostAllPlace` | userpatches/drivers/seekwave-swt6621s-recon/sources/seekwave-swt6621s/swt6621s_wifi/skw_edma.c:297-345 | After n addresses the channel stands n places further around the ring of 768 |
| `EdmaRefill.PostAllWrites` | userpatches/drivers/seekwave-swt6621s-recon/sources/seekwave-swt6621s/swt6621s_wifi/skw_edma.c:322-345 | Up to 768 addresses stand one after the other around the ring of nodes; nothing else is written |
| `EdmaRefill.PostAllSeals` | userpatches/drivers/seekwave-swt6621s-recon/sources/seekwave-swt6621s/swt6621s_wifi/skw_edma.c:297-345 | The nodes closed announce 256 bytes each, as long as posting does not lap the ring |
| `EdmaRefill.PostAnnounces` | userpatches/drivers/seekwave-swt6621s-recon/sources/seekwave-swt6621s/swt6621s_wifi/skw_edma.c:322-345 | The header of the current node announces its fill |
| `EdmaRefill.WantedExact` | userpatches/drivers/seekwave-swt6621s-recon/sources/seekwave-swt6621s/swt6621s_wifi/skw_edma.c:269-279 | In the driver's integer widths: nothing is asked for between 737 and 768, and a refill lands there if and only if the counter was a 16-bit number |
| `EdmaRefill.AllocExact` | userpatches/drivers/seekwave-swt6621s-recon/sources/seekwave-swt6621s/swt6621s_wifi/skw_edma.c:148-196 | From an empty node a multiple of 32 buffers closes exactly that many full nodes, leaves the node empty, and submits and counts them |
| `EdmaRefill.AllocFlag` | userpatches/drivers/seekwave-swt6621s-recon/sources/seekwave-swt6621s/swt6621s_wifi/skw_edma.c:148-196 | From any fill, an allocation succeeds exactly if memory yields all that is asked for; only then are the nodes closed submitted, and the counter moves only if the hardware takes them |
| `EdmaRefill.RefillExact` | userpatches/drivers/seekwave-swt6621s-recon/sources/seekwave-swt6621s/swt6621s_wifi/skw_edma.c:269-279 | A refill from a right counter of at most 768 keeps it right, tops it up to within one node of 768 and leaves the node empty |
| `EdmaRefill.RefillNeverOver` | userpatches/drivers/seekwave-swt6621s-recon/sources/seekwave-swt6621s/swt6621s_wifi/skw_edma.c:269-279 | Whatever fails, the counter does not go above 768 if it was not above before |
| `EdmaRefill.RefillTakes` | userpatches/drivers/seekwave-swt6621s-recon/sources/seekwave-swt6621s/swt6621s_wifi/skw_edma.c:269-279 | A refill takes buffers if and only if it is enabled, memory yields one and a whole node is missing; a disabled one changes nothing |
| `EdmaRefill.ReturnExact` | userpatches/drivers/seekwave-swt6621s-recon/sources/seekwave-swt6621s/swt6621s_wifi/skw_edma.c:700-757 | A buffer that was out comes back once and is counted; any other address changes nothing |
| `EdmaRefill.AllocCounted` | userpatches/drivers/seekwave-swt6621s-recon/sources/seekwave-swt6621s/swt6621s_wifi/skw_edma.c:148-196 | An allocation keeps the counter right if and only if it neither fails half-way, nor is refused by the hardware, nor is asked for a negative number |
| `EdmaRefill.RefillCounted` | userpatches/drivers/seekwave-swt6621s-recon/sources/seekwave-swt6621s/swt6621s_wifi/skw_edma.c:269-279 | A refill keeps the counter right if and only if it was at most 768 |
| `EdmaRefill.ReopenOverfills` | userpatches/drivers/seekwave-swt6621s-recon/sources/seekwave-swt6621s/swt6621s_wifi/skw_edma.c:401-405 | Opening again with buffers out goes above 768, and the next refill forgets buffers it never frees |
| `EdmaRefill.OpenRunSteady` | userpatches/drivers/seekwave-swt6621s-recon/sources/seekwave-swt6621s/swt6621s_wifi/skw_edma.c:148-405 | Opened once, then refilled and emptied in any order: whole nodes, a right counter, never more than 768 |
| `EdmaRefill.RefillChannel.PutData` | userpatches/drivers/seekwave-swt6621s-recon/sources/seekwave-swt6621s/swt6621s_wifi/skw_edma.c:322-345 | The in-place update refines posting |
| `EdmaRefill.RefillChannel.Allocate` | userpatches/drivers/seekwave-swt6621s-recon/sources/seekwave-swt6621s/swt6621s_wifi/skw_edma.c:148-196 | The loop refines allocation, including running out of memory half-way |
| `EdmaRefill.RefillChannel.RefillSkbs` | userpatches/drivers/seekwave-swt6621s-recon/sources/seekwave-swt6621s/swt6621s_wifi/skw_edma.c:269-279 | The refill in the driver's arithmetic refines the specification |
| `Recovery.ReportAllTold` | userpatches/drivers/seekwave-swt6621s-recon/sources/seekwave-swt6621s/swt6621s_wifi/skw_recovery.c:85-120 | Reporting either leaves a peer alone or marks it by exactly one report, and leaves a marked one alone |
| `Recovery.RoundInv` | userpatches/drivers/seekwave-swt6621s-recon/sources/seekwave-swt6621s/swt6621s_wifi/skw_recovery.c:382-492 | Every round, complete or cut short, keeps: a peer is held in one place and alive there, reported at most once, freed at most once |
| `Recovery.RoundFrees` | userpatches/drivers/seekwave-swt6621s-recon/sources/seekwave-swt6621s/swt6621s_wifi/skw_recovery.c:217-306 | A completed round frees exactly the peers put aside, each once; one cut short frees nobody and keeps them |
| `Recovery.RoundAccounted` | userpatches/drivers/seekwave-swt6621s-recon/sources/seekwave-swt6621s/swt6621s_wifi/skw_recovery.c:233-268 | A round loses track of no peer if and only if it is not nested or nobody was bound since |
| `Recovery.RoundCounts` | userpatches/drivers/seekwave-swt6621s-recon/sources/seekwave-swt6621s/swt6621s_wifi/skw_recovery.c:395-403 | After any round `opened_dev` is the number of interfaces that carry OPENED |
| `Recovery.RoundOpens` | userpatches/drivers/seekwave-swt6621s-recon/sources/seekwave-swt6621s/swt6621s_wifi/skw_recovery.c:444-470 | A completed round opens every existing interface exactly once, and `opened_dev` is their number |
| `Recovery.RoundUp` | userpatches/drivers/seekwave-swt6621s-recon/sources/seekwave-swt6621s/swt6621s_wifi/skw_recovery.c:339-342 | After a completed round every interface carries OPENED |
| `Recovery.RoundCompletes` | userpatches/drivers/seekwave-swt6621s-recon/sources/seekwave-swt6621s/swt6621s_wifi/skw_recovery.c:382-470 | A round completes if and only if the chip answers and is calibrated and every interface opens without an assertion before its turn |
| `Recovery.RoundOrder` | userpatches/drivers/seekwave-swt6621s-recon/sources/seekwave-swt6621s/swt6621s_wifi/skw_recovery.c:444-470 | Stations and P2P devices are opened before all others, either group in order |
| `Recovery.RoundSilent` | userpatches/drivers/seekwave-swt6621s-recon/sources/seekwave-swt6621s/swt6621s_wifi/skw_recovery.c:85-154 | A round reports nobody for whom no interface had a bit when the firmware crashed |
| `Recovery.RoundBlank` | userpatches/drivers/seekwave-swt6621s-recon/sources/seekwave-swt6621s/swt6621s_wifi/skw_recovery.c:297-298 | After any round every peer map is empty |
| `Recovery.StopFrees` | userpatches/drivers/seekwave-swt6621s-recon/sources/seekwave-swt6621s/swt6621s_wifi/skw_recovery.c:560-580 | Taking the driver down frees exactly those put aside |
| `Recovery.RoundReports` | userpatches/drivers/seekwave-swt6621s-recon/sources/seekwave-swt6621s/swt6621s_wifi/skw_recovery.c:43-126 | A completed round reports every peer that was bound, with its bit set, on a station or client interface when the firmware crashed: once, unless it was marked before; and frees it once |
| `Recovery.ReportAllExact` | userpatches/drivers/seekwave-swt6621s-recon/sources/seekwave-swt6621s/swt6621s_wifi/skw_recovery.c:139-154 | A flush that an assertion cuts short reports, once each, exactly the unmarked peers of the bits that it got to |
| `Recovery.RoundReportsExact` | userpatches/drivers/seekwave-swt6621s-recon/sources/seekwave-swt6621s/swt6621s_wifi/skw_recovery.c:43-201 | A peer that was bound on one interface alone and not marked is reported by a completed round, once, if and only if that is a station or client, or an access point that restarted and whose flush got to its bit; it is freed either way |
| `Recovery.NestedReports` | userpatches/drivers/seekwave-swt6621s-recon/sources/seekwave-swt6621s/swt6621s_wifi/skw_recovery.c:217-306 | However often the recovery is cut short, and whatever is bound, unbound or marked meanwhile, the round that completes it leaves a peer that was bound on a station or client at the first crash reported once and freed once |
| `Recovery.NestedReportsExact` | userpatches/drivers/seekwave-swt6621s-recon/sources/seekwave-swt6621s/swt6621s_wifi/skw_recovery.c:217-306 | The same for a peer of any one interface: freed once, and reported exactly if a round cut short has done so or the interface tells it in the last |
| `Recovery.NestedLoses` | userpatches/drivers/seekwave-swt6621s-recon/sources/seekwave-swt6621s/swt6621s_wifi/skw_recovery.c:233-268 | A run with a station and an access point: the station is reopened, the access point is not, a peer bound for the station is lost by the next round |
| `Recovery.FreedUntold` | userpatches/drivers/seekwave-swt6621s-recon/sources/seekwave-swt6621s/swt6621s_wifi/skw_recovery.c:162-201 | A completed round in which the access point does not restart: its station is freed without a report |
| `Recovery.Run` | userpatches/drivers/seekwave-swt6621s-recon/sources/seekwave-swt6621s/swt6621s_wifi/skw_recovery.c:217-580 | Over any number of complete, interrupted and nested rounds the peer invariant holds |
| `Recovery.RunTidy` | userpatches/drivers/seekwave-swt6621s-recon/sources/seekwave-swt6621s/swt6621s_wifi/skw_recovery.c:217-580 | If nobody is bound during recovery, every peer is at all times held in one place or freed exactly once |
| `RecoveryDriver.RecoveryWork.ReportPeers` | userpatches/drivers/seekwave-swt6621s-recon/sources/seekwave-swt6621s/swt6621s_wifi/skw_recovery.c:85-120 | The walk over the saved map refines reporting, also when an assertion cuts it short |
| `RecoveryDriver.RecoveryWork.PrepareRecovery` | userpatches/drivers/seekwave-swt6621s-recon/sources/seekwave-swt6621s/swt6621s_wifi/skw_recovery.c:217-306 | The first time every bound peer and the peer map of every existing interface are put aside, a nested time nothing more is; the contexts are emptied either way |
| `RecoveryDriver.RecoveryWork.ReopenIface` | userpatches/drivers/seekwave-swt6621s-recon/sources/seekwave-swt6621s/swt6621s_wifi/skw_recovery.c:308-380 | One interface refines its specification |
| `RecoveryDriver.RecoveryWork.FreeSaved` | userpatches/drivers/seekwave-swt6621s-recon/sources/seekwave-swt6621s/swt6621s_wifi/skw_recovery.c:473-478 | The loop frees what was put aside |
| `RecoveryDriver.RecoveryWork.Recover` | userpatches/drivers/seekwave-swt6621s-recon/sources/seekwave-swt6621s/swt6621s_wifi/skw_recovery.c:382-492 | The whole round refines the specification, keeps the invariant, and completes exactly if the chip is there and every interface opens |

## Left out

- Firmware transport, bus access, netdev and cfg80211 callbacks, debugfs and logging: I/O around the modelled logic.
- Constant tables of channels, rates and capabilities, and kernel-version wrappers: data and shims.
- The bytes and checksums of keep-alive rules, and memory for storing one: the model carries indices and sizes, and the C code does not check that allocation.
- `skw_timer.c`, WMM sorting, AID allocation and MBSSID merging: small or without a decided guarantee.
- Receive reordering, defragmentation, keys and the external SAE path: a station that authenticates by external SAE is not part of the `Station` machine.
- Text parsing of private ioctls and of the configuration file: long and shallow.
- RCU and lock-level interleavings inside a locked section; a publication and its readers are one step.
- The order in which elements stand in the two radar pools, and pointer aliasing: elements are numbers.
- The time that a handler of the station machine takes, such as the 300 ms it may wait for the firmware; `StationTime` allows for it only as lag of the work.
- Wrap-around of jiffies and of the 64-bit radar clock; timestamps are assumed below 2^32.
- Chirp, width and unit conversion of the hardware pulse before it reaches the detector; the conversion to microseconds is done by the caller.
- EDMA completions that arrive inside an iteration between resubmission and clearing the done bit; they may arrive between any two iterations.
- DfsSetup.SetupBurst: one detector, with memory available during the burst.
- DfsSetup.AnySetupBurst: the same; a reset by another rule's detection is one of its happenings.
- Recovery.RoundReportsExact: a peer for which two interfaces have a bit may be reported by either, and is not covered.
- The event rings and their interrupt handler (`skw_edma_rx_node_isr`), transmit completion and the return path of transmit buffers.
- TDLS peers, which a station interface may hold beside its access point, in `Station`; `PeerCtx` and `Recovery` cover any number of peers.
- `actived_ctx` during recovery: the round resets it for stations only, and the recovery model does not carry it.
- The saved start-AP parameters and what is sent to the firmware in a round; only success or failure matters to the model.
- WowCompiler.CompileRule: requires offset plus length within 65536, which the caller's limit of 255 on each guarantees.
- MgmtSplit.SplitReport: reads the length byte as unsigned, which is what kernels built with unsigned `char` do. Beyond the frame the C loop reads foreign memory, which the model reports as failure.
- WowSender.SendFilter: memory for a message is taken to be available, and the firmware to hold no rules before.
- DfsCompleteness.GappedBurstDetected: a burst without false pulses between; what false pulses do to a sequence is in `ProcessExact` and `ExtendExact`.
