# lldpad verified: DCBX negotiation, priority groups, 802.1Qaz, timers and TLVs

lldpad is an LLDP agent for data-centre bridging. This project models the parts of it whose logic is
hard to see through and proves what they guarantee: the legacy (CIN and CEE) DCBX engine, the
priority-group allocator and rule checker, IEEE 802.1Qaz DCBX, the hand-over between the two DCBX
versions, the event loop's timer queue, and TLV packing with the in-place TLV filter.

Each component comes in two forms. Functions and datatypes say what a step means and carry the
theorems over runs. Classes and methods with loops follow the source's own control flow on mutable
state, and each is proved to compute what the functions say. What the functions come to is stated once
more without them, on stored values, messages and percentages: in the modules listed as such below, and
elsewhere in lemmas on formats and outcomes.

| files | source | content |
|---|---|---|
| `Words`, `PgTypes`, `DcbxTypes` | `include/dcb_types.h` | machine words and records |
| `DcbxFeature`, `DcbxNode`, `DcbxPort` | `dcb_protocol.c`, `lldp_dcbx.c` | feature and control state machines as tables, and as the engine runs them |
| `DcbxOutcomes`, `DcbxRequests` | `dcb_protocol.c` | what feature steps come to and when a port asks to transmit, stated on the stores before the step alone |
| `DcbxRuns`, `DcbxLink`, `DcbxMirror`, `DcbxWitnesses` | `dcb_protocol.c`, `tlv_dcbx.c` | one port over its runs, two ports over lossy channels (their numbers, then their data), inputs on which expectations fail |
| `PriorityGroups`, `PgFixUp`, `RuleCheck`, `PgAttribs` | `dcb_rule_chk.c` | collapse onto traffic classes, the DCB rules, rebalancing |
| `PgKinds`, `PgRules` | `dcb_rule_chk.c` | what the collapse does with types of traffic and bandwidth, and what the rules accept, stated on priorities and percentages alone |
| `PgRequest`, `PgGrants`, `PgCommand` | `lldp_dcbx_cmds.c` | a client's priority-group request from the message to the attributes handed on, field by field |
| `QazPfc`, `QazEts`, `QazApp`, `QazAppList` | `lldp_8021qaz.c` | PFC convergence, ETS TLVs end to end, the application table and the kernel |
| `Handover` | `lldp_dcbx.c`, `lldp_8021qaz.c`, `lldp/rx.c` | which DCBX version is active |
| `TimerQueue`, `TimerList` | `eloop.c` | the sorted timer list, on values and on linked nodes |
| `Tlv` | `lldp_tlv.c`, `lldp_mand_cmds.c` | packing and filtering |

`dafny verify dfyconfig.toml` checks everything.

## Where the code does not do what one would expect

Each of these is stated as a lemma with the exact condition under which the expectation holds; where an
input is named, that lemma shows the failure on it. The port states they start from are ones in which the
control protocol leaves an active port (`DcbxRuns.ControlRests`).

- A feature that waits for an acknowledgement and carries the force-send mark, which a duplicated TLV
  sets and nothing clears, stops waiting with the next send. It then comes into operation although its
  number is unacknowledged (`DcbxRuns.WaitingFeatureIsFrozen`, input
  `DcbxWitnesses.ForcedSendChangesOperation`).
- A frame whose application TLV is rejected, for example because it is too short, flags no application.
  If it acknowledges the number an application waits for, that application waits for a number that has
  gone by (`DcbxRuns.NoFeatureWaitsInVain`, `DcbxRuns.FrameStrandsIff`, input
  `DcbxWitnesses.ShortAppTlvStrands`).
- Two ports can be synchronised and acknowledged with nothing on the way while one holds the other's old
  settings: a change made while its feature waits goes out under the number already announced, so the
  acknowledgement of an earlier frame covers it although its own frame was lost. The stores mirror each
  other if neither port's newest frame with its present settings was lost (`DcbxMirror.ToldPortsMirror`,
  input `DcbxWitnesses.SynchronisedYetApart`); this goes one way only, because a lost frame may have
  repeated what the neighbour had.
- A peer's expiry is not recorded while the stored control error has the duplicate or neighbour bit, so
  the numbering then does not restart (`DcbxRuns.ExpiryRestartsNumbering`, input
  `DcbxWitnesses.ExpiryGoesUnrecorded`).
- When a CEE peer expires the numbering restarts but no transmission is asked for. Nothing else leaves what
  the control TLV says both untransmitted and unrequested (`DcbxRequests.NothingLeftUnsaid`, input
  `DcbxWitnesses.ExpiryLeavesUnsaid`).
- A changed Error bit is not always announced: a feature whose TLV is missing, and a synchronised CEE
  feature with duplicated TLVs, stay synchronised (`DcbxOutcomes.ErrorAnnouncedIff`).
- `FeatureSeqNo <= SeqNo + 1` does not survive the 32-bit wrap: it holds exactly as long as no event
  sends at the highest number while a feature keeps a number above 1 (`DcbxRuns.StepWithinOne`,
  `DcbxRuns.FeatureNumbersWithinOne`, input `DcbxWitnesses.NumbersWrap`).
- When all groups in use are strict, are at least as many as the classes and do not add up to 100 percent,
  the allocator adds the left-over to the entry before its bandwidth table (`PgFixUp.NoHomeIff`). A
  client's request cannot cause this (`PgRequest.DecodedLeftoverHasHome`), a received frame can: a CIN
  priority-group TLV puts priority i in group i and takes strictness and percentages from the frame
  (`tlv_dcbx.c:1310-1345`), a willing port copies it to its operational store (`dcb_protocol.c:3347-3355`)
  and has it checked (`dcb_protocol.c:2685-2697`). On such data it happens exactly if the device has one
  to seven classes, all priorities are link strict and the percentages do not sum to 100
  (`PgFixUp.CinNoHomeIff`, input `PgFixUp.CinOverrun`).
- The comment at `dcb_rule_chk.c:224` promises left-over bandwidth to the highest class that is not
  strict. It goes there exactly when there are at least as many groups as classes
  (`PriorityGroups.LeftoverPlacement`, input `PgFixUp.LeftoverOnStrictClass`).
- The rules speak of members of a bandwidth group whose percentages total 100, but no group can be split: the
  repair first puts every priority alone in a group of its own, so on the transmit side, and where the
  groups fit on both sides, anything but 100 percent (0 for link strict) is refused
  (`PgRules.AcceptedTransmit`, `PgRules.FittingAcceptsIff`, input `PgRules.SplitIsRefused`).
- A collapse leaves the receive side's bandwidth groups as they were (`PgFixUp.SecondRunSettles` shows
  that a second run repairs this and nothing else).
- A PFC follower whose neighbour is willing keeps following after frames without a PFC TLV, because
  `pfc_sm` does not test `remote_param` there (`QazPfc.FollowsExactly`, input `QazPfc.FollowsWithoutTlv`).
- A device with eight classes advertises a class count of zero (`QazEts.ConfigurationArrives`).
- Adding an application entry locally is lost if an entry of that identity is pending deletion, and does
  not outlive the peer if the entry came from the peer (`QazApp.AddTakesEffectIff`,
  `QazApp.AddLastsIff`, inputs `QazApp.ReAddIsLost` and `QazApp.AddBesidePeerIsLost`).
- Both DCBX versions can become active at once: the legacy module comes before the 802.1Qaz module in
  the module list, and if it starts at the end of a frame and then cannot unpack the TLV it stored, the
  802.1Qaz module never sees that end (`Handover.BothAfterFrameIff`, `Handover.BothCanBeActive`).

## Model

| member | source | states |
|---|---|---|
| DcbxFeature.DecisionOutcome | dcb_protocol.c:3273-3493 | after any remote step, from DCB_INIT too, that reaches the enable/willing decision: OperMode holds iff both sides are enabled, the peer reports no error, and the willing bits differ or the configurations are compatible (CIN: and the driver accepts); Error iff both are enabled, equally willing and incompatible, or CIN's driver refuses; Syncd iff the Error bit is unchanged, else the feature number is SeqNo + 1; the configuration operated on |
| DcbxFeature.OperModeNeedsDecision | dcb_protocol.c:3156-3289 | an advertised feature comes into operation only through that decision |
| DcbxFeature.Agreement | dcb_protocol.c:3286-3462 | two ports that mirror each other and both come up operate on the same PFC vector or application data, whatever the willing bits |
| DcbxOutcomes.FallsBack | dcb_protocol.c:3183-3256 | an expired CEE peer, a missing TLV and duplicated TLVs take an advertised feature out of operation onto its local configuration; its Error bit, Syncd and number in each case |
| DcbxOutcomes.HoldsOn | dcb_protocol.c:3224-3289 | an outstanding acknowledgement, a new feature version and a peer yet to follow leave operation and Error alone; the version and number taken |
| DcbxOutcomes.DecidesIff | dcb_protocol.c:3224-3273 | a step with the peer's TLV at hand reaches the decision iff no acknowledgement is outstanding, nothing is duplicated and both sides run the common feature version |
| DcbxOutcomes.OnlyDuplicatesMark | dcb_protocol.c:3236-3256 | the force-send mark comes only from duplicated TLVs and never goes |
| DcbxOutcomes.UnadvertisedIsItsOwn | dcb_protocol.c:3111-3137 | an unadvertised feature operates iff it is enabled, on its own configuration, and is never in error |
| DcbxOutcomes.LocalStep | dcb_protocol.c:3040-3145 | a local change is taken up under SeqNo + 1 by a synchronised feature only, waits iff the feature is or was advertised, and leaves operation alone but for the first run of PFC |
| DcbxOutcomes.LocalRunsOne | dcb_protocol.c:3978-4043 | a local event runs its own feature and no other, none for the logical link |
| DcbxOutcomes.RemoteRuns | dcb_protocol.c:3978-4043 | which features a remote event runs, for any flags, advertisements and versions |
| DcbxOutcomes.ErrorAnnouncedIff | dcb_protocol.c:3183-3493 | a changed Error bit leaves the feature unsynchronised, under a new number, iff the step decided, the CEE peer expired, or duplicates came for an unsynchronised or CIN feature |
| DcbxOutcomes.ErrorsAgree | dcb_protocol.c:2553-2661 | of two mirrored CEE features that decide both raise Error or neither: iff enabled, equally willing and different in PFC vector or application data, always for logical links, never for priority groups |
| DcbxOutcomes.SameSettingsComeUp | dcb_protocol.c:3286-3434 | identical PFC or application settings on both sides come into operation whatever the willing bits |
| DcbxOutcomes.CinGroupsCompatible | dcb_protocol.c:2553-2600 | CIN priority groups are compatible iff percentages and every priority's bandwidth group, strictness and percentage agree, and both sides see it alike |
| DcbxOutcomes.MismatchIsAnnounced | dcb_protocol.c:3432-3492 | two enabled, unwilling CEE sides with different PFC vectors: Error under number 6 |
| DcbxOutcomes.ErrorNeverOperates | dcb_protocol.c:2845-3628 | in every run, expiry included, no feature in error operates |
| DcbxOutcomes.SettingsArrive | dcb_protocol.c:1892-1954 | after a local change the feature has the client's settings, the other applications its Enable and Willing, and nothing else changed; no application data means keep the old |
| DcbxOutcomes.ExpiryDropsTlvs | lldp_dcbx.c:816-885 | after expiry no TLV is stored, and of applications whose TLV was stored no data |
| DcbxRequests.IssuesIff | dcb_protocol.c:3785-3914 | the next number is issued iff the present one is then acknowledged and some listening feature is unsynchronised or unsent; a transmission is then asked for |
| DcbxRequests.LocalRequestIff | dcb_protocol.c:3785-3800 | a local event asks for a transmission iff it issues a number |
| DcbxRequests.ReceiveRequestIff | dcb_protocol.c:3841-3926 | a received TLV asks for one iff it issues a number, brings another common version, or on the agreed version an unacknowledged peer number or acknowledgement zero; duplicates and second neighbours separately |
| DcbxRequests.ReceiveTakesIn | dcb_protocol.c:3841-3893 | version, MyAckNo and AckNo after a received TLV |
| DcbxRequests.LocalChangeGoesOut | dcb_protocol.c:3785-3800 | a change to a synchronised feature waits under SeqNo + 1 and, the last number acknowledged, is issued and requested at once |
| DcbxRequests.UnadvertisedChangeIsQuiet | dcb_protocol.c:3087-3110 | a change to a feature neither advertised nor formerly so is no news |
| DcbxRequests.TransmissionSettles | dcb_protocol.c:1531-1562 | a transmission clears the request and marks features sent, nothing else |
| DcbxRequests.StepSpeaks | dcb_protocol.c:3742-3931 | one event keeps the control TLV's contents transmitted or requested iff it is no CEE expiry that restarts an otherwise announced numbering |
| DcbxRequests.NothingLeftUnsaid | dcb_protocol.c:3742-3931 | over every run of a listening port that holds at all times iff there is no such event |
| DcbxWitnesses.ExpiryLeavesUnsaid | dcb_protocol.c:3819-3835 | a CEE port at numbers 5 and 7 restarts at zero unrequested |
| DcbxPort.Choose | dcb_protocol.c:3286-3431 | the branches on enable and willing give the verdict of the decision table, the configuration taken and the provisional OperMode |
| DcbxPort.Negotiate | dcb_protocol.c:3286-3493 | driver outcome and error bits turn the verdict into the decision row's values of all five protocol variables |
| DcbxPort.TakeRemoteChange | dcb_protocol.c:3183-3493 | the remote branch goes through expiry, absence, waiting, duplicates and versions in the order of the table |
| DcbxPort.EnterMachine | dcb_protocol.c:3040-3110 | leaving DCB_INIT and taking up a local change only when synchronised |
| DcbxPort.RunListening | dcb_protocol.c:3111-3181 | unadvertised, local and version-mismatched features |
| DcbxPort.RunFeatureProtocol | dcb_protocol.c:2845-3628 | the whole feature machine equals the decision table for every input |
| DcbxPort.Port.FeaturesSynched | dcb_protocol.c:3633-3681 | true iff every listening feature is synchronised and sent |
| DcbxPort.Port.UpdateFeatureSyncd | dcb_protocol.c:3684-3739 | unadvertised and force-sent features become synchronised, nothing else changes |
| DcbxPort.Port.RunControlProtocol | dcb_protocol.c:3742-3931 | the control machine takes the port to the state given by the control table |
| DcbxPort.SynchroniseControl | dcb_protocol.c:3855-3893 | version agreement, acknowledgement taken over, peer number acknowledged, and when to send again |
| DcbxPort.Port.RunFlagged | dcb_protocol.c:3978-4043 | which features run for which flags, and that each runs on the state before the event |
| DcbxPort.Port.RunDcbProtocol | dcb_protocol.c:3951-4057 | features first, then control, nothing on an inactive port |
| DcbxPort.Port.PutPeerControl | dcb_protocol.c:2213-2242 | a duplicate or second neighbour leaves both numbers, both versions and the receive state as they were |
| DcbxPort.Port.PutLocal | dcb_protocol.c:1892-1954 | nothing happens if the client's copy, protocol variables included, equals the local store or the rules refuse priority groups; else the settings reach their feature, Enable and Willing also the sibling applications, and the protocol runs once for that feature |
| DcbxPort.Port.ReceiveTlvs | dcb_protocol.c:2213-2242 | storing the peer's TLVs and running the flagged features is the receive step of the run model |
| DcbxPort.ProcessAppTlv | tlv_dcbx.c:1439-1559 | an application TLV is stored iff it is usable: no shorter than its header, and for CIN no more data than the store holds |
| DcbxPort.MibUpdateFlags | tlv_dcbx.c:1079-1147 | from the sub-TLVs of a frame, absent and ill-formed ones included, exactly the features that the frame flags: all, except the applications when an application TLV is there and not usable |
| DcbxPort.Port.TransmitTlvs | dcb_protocol.c:1531-1562 | the control TLV carries the port's numbers and all features count as sent |
| DcbxPort.Port.MibDeleteObjects | lldp_dcbx.c:816-885 | stored peer TLVs are dropped, expiry recorded where possible, and the protocol runs for exactly the features that had one |
| DcbxRuns.StepKeepsWaiting | dcb_protocol.c:3224-3234 | one event that does not acknowledge an unsynchronised advertised feature: it stays unsynchronised iff it is not force-sent or nothing is announced, and in any case its operational configuration, OperMode and number are unchanged |
| DcbxRuns.WaitingFeatureIsFrozen | dcb_protocol.c:3087-3110 | through every run of local and remote events that does not acknowledge its number, an unsynchronised advertised feature waits throughout iff it carries no force-send mark or no event of the run sends; while it waits nothing changes how it operates |
| DcbxRuns.ForcedSendEndsWaiting | dcb_protocol.c:3684-3739 | after the control protocol an advertised feature is synchronised iff it was, or is marked force-send and a send goes out |
| DcbxWitnesses.ForcedSendChangesOperation | dcb_protocol.c:3236-3252 | an input, from a port at rest, on which a force-sent PFC feature comes into operation on the peer's vector while its number is unacknowledged |
| DcbxRuns.StepAnnounces | dcb_protocol.c:3876-3914 | one event: every unsynchronised feature's number stays the current unacknowledged sequence number or the next one iff the event strands no feature, that is, acknowledges the number a feature waits for without flagging it |
| DcbxRuns.NoFeatureWaitsInVain | dcb_protocol.c:3224-3273 | in runs without expiry, wrap included, that holds at all times iff no event strands a feature |
| DcbxRuns.FrameStrandsIff | tlv_dcbx.c:1112-1129 | a received frame strands a feature iff this is an application that waits for the number acknowledged and the frame has an application TLV that is not usable |
| DcbxWitnesses.ShortAppTlvStrands | tlv_dcbx.c:1439-1450 | an input on which a too short application TLV strands FCoE under a number that has gone by |
| DcbxRuns.StepWithinOne | dcb_protocol.c:3785-3790 | one event keeps every FeatureSeqNo at most SeqNo + 1 iff it does not send at the highest SeqNo while a feature keeps a number above 1 |
| DcbxRuns.FeatureNumbersWithinOne | dcb_protocol.c:3269-3270 | over every run without expiry FeatureSeqNo is at all times at most SeqNo + 1 iff no event is of that kind |
| DcbxWitnesses.NumbersWrap | dcb_protocol.c:3788-3790 | an input on which the bound fails at the wrap |
| DcbxRuns.ExpiryFallsBack | lldp_dcbx.c:816-885 | after expiry every advertised feature with a stored TLV is out of operation and on its local configuration; for CEE under number 1 |
| DcbxRuns.ExpiryRestartsNumbering | dcb_protocol.c:3819-3840 | when the expiry is recorded the numbers restart, for CEE all three at zero; when a stored duplicate or neighbour error hides it they go on; a non-zero AckNo is cleared iff it is recorded |
| DcbxWitnesses.ExpiryGoesUnrecorded | dcb_protocol.c:2226-2229 | a port that notices the expiry and clears AckNo, and the same port with a duplicate on record, which goes on acknowledging number 7 |
| DcbxRuns.RoundTrip | dcb_protocol.c:3855-3914 | from any state of both ports, one TLV each way acknowledges the number sent and restores the right to send |
| DcbxLink.RunKeeps | dcb_protocol.c:3855-3914 | every run of two ports over channels that lose and repeat keeps, for both directions, the trail of numbers from acknowledged to issued a chain of at most two neighbouring values |
| DcbxLink.StopAndWait | dcb_protocol.c:3785-3914 | MyAckNo <= peer's AckNo <= SeqNo <= MyAckNo + 1 until the wrap, and its wrapped form always: at most one change is unacknowledged |
| DcbxMirror.RunKeeps | dcb_protocol.c:3087-3110 | every run of two ports over channels that keep their order but lose and repeat frames: as long as a port's newest frame with its present settings was not lost, that frame carries them or the neighbour's store has them |
| DcbxMirror.ToldPortsMirror | tlv_dcbx.c:1059-1147 | after every such run, with nothing on the way and neither newest frame lost, the stores of a feature both ports advertise mirror each other |
| DcbxMirror.ToldPortsAgree | dcb_protocol.c:3286-3462 | two such ports that then decide and come up operate on the same PFC vector or application data |
| DcbxMirror.OneExchangeMirrors | dcb_protocol.c:1531-1562 | from any settings and numbers of two ports that know nothing of each other, one frame each way leaves every feature both advertise mirrored and the settings as they were |
| DcbxWitnesses.SynchronisedYetApart | dcb_protocol.c:3087-3110 | a run that ends synchronised, acknowledged and with nothing on the way, the neighbour holding the old settings |
| PriorityGroups.LoadIsShare | dcb_rule_chk.c:181-222 | class j of a type with m classes carries every m-th of its groups |
| PriorityGroups.EvenSpread | dcb_rule_chk.c:162-222 | per type the numbers of groups on any two classes differ by at most one and no class is empty |
| PriorityGroups.LeftoverPlacement | dcb_rule_chk.c:224-232 | left-over bandwidth goes to the highest non-strict class iff at least as many groups as classes are in use |
| PgFixUp.CollapseKeepsGroups | dcb_rule_chk.c:133-249 | every new group exists on the device, shared groups stay shared, and joined priorities had groups of one type |
| PgKinds.JoinedAlike | dcb_rule_chk.c:138-156 | priorities that end in one class: the lowest priorities of their old groups are both link strict, or neither is and flow control is on for both or neither |
| PgKinds.TypesInOrder | dcb_rule_chk.c:184-208 | a collapse puts best effort below flow controlled below link strict |
| PgKinds.FailsIff | dcb_rule_chk.c:111-160 | the repair fails iff a group has no class of its own and classes are fewer than the types of the groups' lowest priorities |
| PgKinds.StrictServedFirst | dcb_rule_chk.c:162-174 | a type goes short only when the types after it have at most one class each, and then every class is given out |
| PgKinds.ClassesGetTheirGroups | dcb_rule_chk.c:210-268 | each class has in both directions the percentages of the groups that went to it, the class below the number of link strict classes from the top also what is left of 100, as a byte |
| PgKinds.CollapsedPriorities | dcb_rule_chk.c:251-262 | after a collapse every priority has its own transmit bandwidth group, all of it or, link strict, nothing; the receive side follows in group and percentage |
| PgKinds.LosslessKeepsApart | dcb_rule_chk.c:147-203 | eight groups on four classes with flow control for priority 3 only: group 3 ends above all others |
| PgFixUp.SecondRunSettles | dcb_rule_chk.c:112-127 | after a successful run a second one, with any flow control settings, changes only the receive side's bandwidth groups |
| PgFixUp.SharesAddUp | dcb_rule_chk.c:211-215 | the classes' shares sum to the used groups' bandwidth |
| PgFixUp.BandwidthConserved | dcb_rule_chk.c:229-232 | with used groups of at most 100 percent and a class for the rest, the stored bytes sum to exactly 100 |
| PgFixUp.CollapseConserves | dcb_rule_chk.c:162-268 | a collapse with a non-strict group and used groups of at most 100 percent gives both directions the same vector, each class its groups' sum plus the left-over on one class, total 100 |
| PgFixUp.LeftoverOnStrictClass | dcb_rule_chk.c:224-232 | groups 0 and 7 on three classes, group 7 link strict: the collapse succeeds and gives the left-over 40 percent to the link strict class |
| PgFixUp.NoHomeIff | dcb_rule_chk.c:229-232 | the left-over is written before the table iff a collapse takes place, the used groups do not add up to 100 percent, all are strict and they are at least as many as the classes |
| PgFixUp.CinNoHomeIff | tlv_dcbx.c:1310-1345 | on the data of a CIN priority-group TLV that happens iff the device has one to seven classes, all priorities are link strict and the percentages do not sum to 100, whatever flow control says |
| PgFixUp.CinOverrun | dcb_rule_chk.c:229-232 | eight link strict priorities in their own groups, no percentages, four classes |
| RuleCheck.RebalanceFillsGroups | dcb_rule_chk.c:501-542 | every non-empty bandwidth group without a link strict member sums to 100 with members at most one apart |
| RuleCheck.RebalanceAndStrict | dcb_rule_chk.c:517-526 | link strict members get zero in both directions, members beside them keep what they had |
| RuleCheck.RebalanceIdempotent | dcb_rule_chk.c:503-542 | rebalancing twice is rebalancing once |
| PgRules.TotalsMean | dcb_rule_chk.c:307-384 | the totals rule accepts iff link strict priorities are in one group and the percentages of the groups without any sum to 100 as a byte, or to 0 with every priority link strict |
| PgRules.SplitMeans | dcb_rule_chk.c:387-482 | the priority rules accept iff bandwidth groups exist, exactly link strict priorities have zero percent, and members' sums are 100 or 0, or unrestricted beside a link strict one in a group without bandwidth |
| PgRules.CheckAcceptsIff | dcb_rule_chk.c:286-486 | the check succeeds iff the groups can be repaired and both directions then meet these |
| PgRules.AcceptedTransmit | dcb_rule_chk.c:118-127 | an accepted priority has all of its transmit bandwidth group or, link strict, nothing |
| PgRules.FittingAcceptsIff | dcb_rule_chk.c:118-127 | where groups fit, accepted iff both directions meet the totals as they stand and every priority has 100 percent or, link strict, 0 |
| PgRules.SplitIsRefused | dcb_rule_chk.c:275-277 | eight members of one group with 100 percent between them are refused |
| PgRules.NothingGivenOut | dcb_rule_chk.c:340-351 | no percentages at all and nobody link strict is refused |
| PgAttribs.CountGroups | dcb_rule_chk.c:111-116 | the count is at most n iff every group number is below n |
| PgAttribs.CountTypes | dcb_rule_chk.c:138-156 | groups counted by the type of their lowest priority |
| PgAttribs.Shrink | dcb_rule_chk.c:162-174 | strict first, then flow controlled, then best effort, one class kept for each type to come |
| PgAttribs.NextClass | dcb_rule_chk.c:190-208 | the class taken and the restart of every counter that reached its quota |
| PgAttribs.Remap | dcb_rule_chk.c:180-222 | the result matrix, each class's bandwidth and the total, for all groups |
| PgAttribs.Push | dcb_rule_chk.c:234-249 | both directions get the class of each priority's group |
| PgAttribs.Attribs.Collapse | dcb_rule_chk.c:129-268 | the in-place passes give exactly the collapsed configuration, or report the write before the table, exactly if the left-over has no class |
| PgAttribs.Attribs.FixUp | dcb_rule_chk.c:98-271 | the write before the table is reported iff the left-over has no class; otherwise failure iff fewer classes than types, else the fixed-up configuration |
| PgAttribs.CheckTotal | dcb_rule_chk.c:307-352 | accepted iff link strict priorities are in one group and the other groups' percentages sum to 100 as a byte, or to 0 with every priority link strict |
| PgAttribs.CheckPriorities | dcb_rule_chk.c:387-464 | accepted iff bandwidth groups exist, exactly link strict priorities have zero percent, and members' percentages sum to 100 or 0 |
| PgAttribs.Attribs.Check | dcb_rule_chk.c:286-486 | new state of the whole rule check; attributes that could be repaired are accepted iff both directions meet the sums and percentages; the write before the table reported iff it happens |
| PgAttribs.FixupIsRemainder | dcb_rule_chk.c:496-501 | the correction table holds 100 modulo the group size |
| PgAttribs.Deal | dcb_rule_chk.c:528-541 | one hundred percent dealt out in turn, the first members one more |
| PgAttribs.Attribs.Rebalance | dcb_rule_chk.c:503-542 | the in-place loops give exactly the rebalanced configuration |
| PgRequest.SomeGroupIsFree | lldp_dcbx_cmds.c:1023-1033 | if any priority claims the link strict group, one of the eight groups is free |
| PgRequest.DecodedGroups | lldp_dcbx_cmds.c:949-1046 | after decoding both directions agree on who is link strict, these are exactly the priorities in the free group, and every transmit group exists |
| PgRequest.StrictRuleNeverRejects | lldp_dcbx_cmds.c:1028-1046 | the rule against a second link strict group never rejects a decoded request |
| PgRequest.DecodedLeftoverHasHome | dcb_rule_chk.c:229-232 | a decoded request never makes the allocator write left-over bandwidth before its table |
| PgRequest.PassesIff | lldp_dcbx_cmds.c:1052-1063 | without per-priority percentages a request passes iff the groups can be fixed up and in both directions the groups without link strict priorities sum to 100, or to 0 with all link strict |
| PgGrants.DecodedAsAsked | lldp_dcbx_cmds.c:949-1046 | whatever the request, each priority of both directions gets the group, percentage and group strict bit supplied, or else keeps its own; link strict ones end in the lowest group nobody wants; group percentages likewise |
| PgGrants.MalformedIsRefused | lldp_dcbx_cmds.c:949-1000 | a malformed percentage or a class the device lacks is refused |
| PgGrants.FittingPassesIff | lldp_dcbx_cmds.c:1052-1063 | where the groups asked for fit, a well-formed request passes iff both totals are in order and, some percentage being supplied, all are 100 or, link strict, 0 |
| PgGrants.RequestTakesEffect | lldp_dcbx_cmds.c:933-1068 | on success with groups that fit, every percentage, group and strictness supplied is in the attributes handed on in both directions and every other one unchanged; rebalancing, which takes place iff no percentage is supplied and a stored one is not all or nothing, clears group strict bits |
| PgCommand.DecodeRequest | lldp_dcbx_cmds.c:949-1046 | the successive passes accept exactly the acceptable requests and leave the decoded attributes |
| PgCommand.SetPgConfig | lldp_dcbx_cmds.c:933-1068 | verdict and attributes handed on of decode, check, rebalance and second check, for messages with a payload, without one, and of the wrong length; on success both totals are in order and a request whose groups fit takes effect field by field; the write before the table happens iff there is no payload and the stored left-over has no class |
| QazPfc.CompareMacs | lldp_8021qaz.c:690-702 | true iff the first address is the greater number |
| QazPfc.PfcRoundTrip | lldp_8021qaz.c:1376-1383 | decoding inverts encoding iff the capability is below 16 |
| QazPfc.PfcFormat | lldp_8021qaz.c:1355-1387 | willing, MBC and capability in their bits of the first byte, the enable vector in the second |
| QazPfc.OneLeader | lldp_8021qaz.c:707-723 | with distinct addresses and a willing port exactly one port leads |
| QazPfc.NeitherFollows | lldp_8021qaz.c:707-723 | in every run of two unwilling ports each stays on its own setting |
| QazPfc.LeaderNeverFollows | lldp_8021qaz.c:707-723 | in every run, with loss, repetition, reordering, frames without PFC and time-outs, the leader stays in INIT and on its own setting |
| QazPfc.Converges | lldp_8021qaz.c:1208-1226 | once the follower has heard any TLV of the leader's, both operate on the leader's setting for the rest of any run that does not take it away, the follower re-advertising it |
| QazPfc.StoredIsHistory | lldp_8021qaz.c:1902-1905 | what the follower has stored says exactly whether the last thing it learnt was the leader's TLV, and whether a willing leader was heard since the last time-out |
| QazPfc.FollowsExactly | lldp_8021qaz.c:717-722 | after any run the follower follows iff the last thing it learnt was the leader's TLV, or the leader is willing and was heard since the last time-out |
| QazPfc.SettledOnceItActs | lldp_8021qaz.c:1733-1758 | after any run that ends with a transmission or a received frame the follower is in that state and its hardware on that setting already |
| QazPfc.FollowsWithoutTlv | lldp_8021qaz.c:717-719 | a run that ends with a frame without PFC and the follower still on the leader's vector |
| QazPfc.PfcPort.StateMachine | lldp_8021qaz.c:707-723 | the branches of the machine and what the hardware is given |
| QazPfc.PfcPort.EndOfFrame | lldp_8021qaz.c:1733-1758 | a PFC TLV, or its absence, stored and acted on |
| QazPfc.PfcPort.Transmit | lldp_8021qaz.c:1355-1387 | what is advertised after running the machine |
| QazEts.GetAfterSet | lldp_8021qaz.c:399-412 | setting one priority's class changes that priority and no other |
| QazEts.ClassesDetermine | lldp_8021qaz.c:399-405 | a priority map is its eight classes |
| QazEts.ProgramsDetermines | lldp_8021qaz.c:1158-1176 | hardware programming tells configurations apart: two that program alike are one |
| QazEts.ReadPayload | lldp_8021qaz.c:1665-1687 | reading an ETS TLV gives back whatever was packed into it |
| QazEts.Layout | lldp_8021qaz.c:1264-1340 | every byte of an ETS TLV: identifier, subtype, first byte, two classes a byte with the lower priority first, bandwidths, algorithms |
| QazEts.WcrtFormat | lldp_8021qaz.c:1264-1280 | willing, credit based shaper and class count in their bits |
| QazEts.EtsPort.RunMachine | lldp_8021qaz.c:674-684 | recommendation programmed iff willing and present, else the local configuration |
| QazEts.EtsPort.BuildCfg | lldp_8021qaz.c:1264-1280 | own flags with what the port runs |
| QazEts.EtsPort.ProcessRec | lldp_8021qaz.c:1691-1731 | inverse of building a recommendation |
| QazEts.EtsPort.ProcessCfg | lldp_8021qaz.c:1635-1689 | inverse of building a configuration, class count modulo eight |
| QazEts.RecommendationTakesEffect | lldp_8021qaz.c:1192-1206 | a recommendation built by any sender and received by a willing port programs exactly the sender's map, bandwidths and algorithms |
| QazEts.ConfigurationArrives | lldp_8021qaz.c:1264-1280 | flags and ETS parameters arrive; the class count iff it is below eight |
| QazApp.RunMirrors | lldp_8021qaz.c:1760-1833 | in every run the kernel holds only known entries and all entries believed done |
| QazApp.KernelEqualsTable | lldp_8021qaz.c:1808-1833 | after any history a flush leaves the kernel equal to the table |
| QazApp.TlvLeavesLocalAndAdvertised | lldp_8021qaz.c:1845-1880 | TLV and flush leave exactly the local entries not pending deletion and the advertised ones |
| QazApp.PeersKeepLocal | lldp_8021qaz.c:1798-1806 | no run of peer activity and flushes removes a local entry |
| QazApp.DeletedIsGone | lldp_8021qaz.c:1765-1833 | a deleted entry, flushed before or not, is gone from daemon and kernel after the next flush |
| QazApp.OthersUntouched | lldp_8021qaz.c:1760-1796 | adding or deleting an entry changes no other and not yet the kernel |
| QazApp.SilenceLeavesLocal | lldp_8021qaz.c:1798-1833 | the peer's silence and a flush leave exactly the local entries not deleted |
| QazApp.AddTakesEffectIff | lldp_8021qaz.c:1765-1776 | an added entry reaches the kernel at the next flush iff none of that identity is pending deletion |
| QazApp.AddLastsIff | lldp_8021qaz.c:1765-1795 | an added entry outlives the peer's silence iff no entry of that identity is pending deletion or the peer's |
| QazApp.ReAddIsLost | lldp_8021qaz.c:1768-1776 | add, flush, delete, add, flush loses the entry |
| QazApp.AddBesidePeerIsLost | lldp_8021qaz.c:1768-1776 | an entry the peer advertises, added locally, is gone after the peer's silence and a flush |
| QazAppList.KeysRoundTrip | lldp_8021qaz.c:1858-1861 | entries read from a TLV body are those written to it |
| QazAppList.KeyFormat | lldp_8021qaz.c:1858-1861 | priority in the highest three bits, selector in the lowest three, protocol in network order |
| QazAppList.AppList.ModApp | lldp_8021qaz.c:1760-1796 | search, mark or insert at the head; keys stay unique |
| QazAppList.AppList.ResetPeer | lldp_8021qaz.c:1798-1806 | exactly the peer's entries become pending deletion |
| QazAppList.AppList.ProcessTlv | lldp_8021qaz.c:1845-1880 | the whole TLV, byte by byte, is the advertised list applied after a reset |
| QazAppList.AppList.SetHw | lldp_8021qaz.c:1808-1833 | list and kernel after a flush |
| Handover.NeverBothActive | lldp_dcbx.c:768-786 | no run of frames whose ends both modules see makes both versions active |
| Handover.BothAfterFrameIff | lldp_dcbx.c:768-804 | the exact frames after which both are active |
| Handover.BothCanBeActive | lldp_dcbx.c:768-804 | such a frame |
| Handover.SwitchNeverUndone | lldp_8021qaz.c:1962-1969 | no received frames deactivate legacy DCBX or reactivate 802.1Qaz |
| Handover.SwitchesIff | lldp_8021qaz.c:1938-1970 | a whole frame makes the switch iff it has legacy TLVs, no 802.1Qaz TLVs and the configuration allows it |
| Handover.BrokenFrameSwitchesNothing | lldp_dcbx.c:720-766 | a frame that breaks off at a short or repeated legacy TLV switches nothing |
| Handover.OtherFramesSwitchNothing | lldp/rx.c:157-200 | neither do frames without legacy TLVs or without a leading chassis ID |
| Handover.Port.DcbxRchange | lldp_dcbx.c:698-814 | legacy DCBX starts exactly at an end TLV that meets the start condition and never stops; the received mark is set exactly by a legacy TLV that is not refused and cleared exactly by a chassis ID |
| Handover.Port.QazRchange | lldp_8021qaz.c:1919-2009 | 802.1Qaz goes inactive exactly at an end TLV with legacy TLVs and no 802.1Qaz TLVs received and is never reactivated; its received mark is set exactly by its own TLVs |
| Handover.Port.ProcessFrame | lldp/rx.c:157-398 | a frame through both modules in list order, broken off at the first error |
| TimerQueue.Deadline | eloop.c:300-306 | the carried deadline is normal and is now plus the delay |
| TimerQueue.Wait | eloop.c:487-495 | the loop sleeps exactly until the deadline, or not at all |
| TimerQueue.RunSorted | eloop.c:312-334 | in every interleaving the queue is sorted by deadline, equal deadlines in registration order |
| TimerQueue.RegisterAddsOne | eloop.c:291-334 | a registration adds one timer with its own time, handler and contexts and leaves the others |
| TimerQueue.FiresTheRightOne | eloop.c:508-521 | after any history a timer fires iff one is due, and it is due and before all others |
| TimerQueue.CancelRemovesExactly | eloop.c:338-367 | cancel removes exactly the timers of the handler whose data and user contexts are those named, ELOOP_ALL_CTX naming any, and keeps the others |
| TimerQueue.NoTimerIsLost | eloop.c:291-367 | in every run each timer ever registered is pending, fired or cancelled, and only one of these |
| TimerList.Eloop.Register | eloop.c:291-335 | the pointer list is the old queue with the timer at its place |
| TimerList.Eloop.Cancel | eloop.c:338-367 | the pointer list is the queue without the matches, and their number is returned |
| TimerList.Eloop.FireDue | eloop.c:508-521 | the first timer leaves the list iff it is due |
| Tlv.RoundTrip | lldp_tlv.c:60-159 | unpacking inverts packing iff type < 128 and length < 512 |
| Tlv.WireFormat | lldp_tlv.c:60-98 | seven bits of type, nine of length, the information |
| Tlv.PacksIff | lldp_tlv.c:60-98 | packed iff not empty or the end TLV |
| Tlv.Packed.PackAfter | lldp_tlv.c:100-123 | appended iff well formed and within the limit, else the buffer is unchanged |
| Tlv.AppendAll | lldp_tlv.c:96-123 | a list is appended iff all are well formed and it fits, and then the buffer is its packing |
| Tlv.Filter | lldp_mand_cmds.c:673-696 | the in-place walk leaves exactly the packing, in order, of the matching TLVs |
| Tlv.MatchingAreNamed | lldp_mand_cmds.c:673-696 | the matching TLVs are, in order and each once, those of the type asked for or whose first four bytes are the number asked for in network order |
| Tlv.PackThenFilter | lldp_mand_cmds.c:673-696 | packing a list and filtering it gives the packing of the TLVs that match |

## Left out

- The CIN and CEE sub-TLV bit codec (`tlv_dcbx.c`): a received TLV puts the sender's local data in the peer store.
- The feature Error_Flag reporting bits other than duplicates and second neighbours, and PeerWilling: they are reported to clients and decide nothing.
- The operational priority-group configuration of a remote change: `set_configuration` lets the rule checker and the driver rewrite it, so it is a parameter of the event; agreement is stated for PFC and applications.
- DcbxPort.Port.PutLocal: whether the rule checker refuses priority groups is a parameter; the error-flag bits that decide nothing are not part of the comparison with the store; storing to disk always succeeds.
- Local changes of the logical-link feature: the code passes a loop counter as subtype and finds no store.
- Liveness of the legacy protocol beyond one round trip.
- Peer expiry during the two-port runs of `DcbxLink` and `DcbxMirror`: the numbers restart there, one port at a time.
- PgCommand.DecodeRequest: group characters whose low four bits are 8 to 14, such as '8' and '9', index past a table and are ruled out.
- PgCommand.SetPgConfig: the same; and a message without payload needs stored groups that exist, as do the rule checker's own tables.
- PgAttribs.Attribs.FixUp: when the left-over has no class, that the write before the table happens is reported, what it overwrites is not modelled.
- QazEts.EtsPort.ProcessRec: TLVs shorter than the fixed layout are ruled out because the code reads past them.
- QazEts.EtsPort.ProcessCfg: the same.
- QazAppList.AppList.ProcessTlv: the same for APP TLVs that end inside an entry.
- A received legacy frame without a usable control TLV, which leaves the stored control variables alone.
- Building the APP TLV from the kernel, netlink and driver calls: the kernel is a set and every call succeeds.
- The administrative RxOnly to RxTx change and the `pending` delay of 802.1Qaz.
- `memcpy` on overlapping ranges in the TLV filter is undefined in C; the model copies forwards.
- Neighbour identity, TTL and statistics in the receive loop.
- Sockets and signals of the event loop.
- malloc failure, logging, persistence, the command-line tools and the control socket.
- `lldp_evb*.c`, `lldp_basman.c`, `lldp_med.c`, `lldp_8023.c`, `lldp_mand.c`, `lldpad_shm.c`, `list.c`: they would add only easy members.
