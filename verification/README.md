# idemIP in Dafny

A model of the protocol units of idemIP, a TCP/IP stack without a heap, and proofs about it. Each unit of the stack is
a state machine over one buffer its caller owns, driven by calls that carry the clock and a random word. The model
keeps that form. A unit has a module of steps on a value (its specification, over which whole runs are stated) and a
class whose methods update fields and arrays in place and are proved against those steps. The classes of the ARP table,
the conflict detector, the link-local selector and the two DHCP clients carry in `Valid()` what every run keeps.

| files | unit | main results |
|---|---|---|
| `words`, `buffers`, `counting` | integers, buffers, counting | helpers |
| `checksum` | Internet checksum | the word-at-a-time route is the pair sum of RFC 1071 for every length |
| `ms`, `pad` | clock and pad | the epoch is true time; the pad converges in exactly the distance plus one |
| `deadline_list`, `deadline_times`, `timeouts` | deadline list | the linked list refines a map and a sorted list of true deadlines |
| `arp_*` | ARP table with holds | every frame pinned comes back once, in order; frames go only to what was learned; REQUESTs are paced |
| `acd*`, `autoip*` | conflict detection, link-local addresses | probing, announcing and rate limits over whole runs |
| `dhcp6*` | DHCPv6 client | writer and parser undo each other; the schedule of section 15 of RFC 8415; a build fails only on its buffer; when T1 is before T2, whose server and whose transaction-id |
| `dhcp4*` | DHCPv4 client | first-of-each parsing; the order of lease deadlines; when an expired lease is given up |
| `tcp_stream`, `tcp_order`, `dispatch_tcp`, `dispatcher` | out-of-order delivery, aggregated ACKs | deliveries are the stream; when the queue stays in order; each owed ACK once |
| `tick_model`, `tick_runs`, `tick_frames`, `tick_loans`, `scheduler` | the tick | every phase ends; every frame ARP gives up is handed out once and every hand-out given up once; when it goes to its own ring |

Clocks: a unit reads true time modulo 2^32. Runs carry the true time of each call beside its reading, so that claims
about intervals are about true time. "Never too early" needs only a clock that does not go back; exact ordering needs
true times less than 2^31 ms apart, and lemmas say so as an if-and-only-if where it is one.

## What turned out otherwise

- The pair-only checksum route adds in 32 bits. From a running sum of zero it is exact up to 131074 octets, from any
  other 16-bit one up to 131073 or 131072, and past its bound wrong for some span at every length
  (`Checksum.PairsOnlyExact`, `Checksum.PairsOnlyExactUpTo`, `Checksum.PairsOnlyFailsPast`).
- A row can always be taken from the ARP table only with fewer holds than rows, which the configuration's defaults meet
  and nothing asserts (`ArpRuns.RunAlwaysHasRow`, `ArpRuns.FullTableIsReachable`). BUSY from add also means a group
  hardware address (`ArpRuns.AddAnswers`). The one-second pacing of REQUESTs is forgotten with the row: an address whose
  row is freed and opened again is asked for at once (`ArpRuns.RunPacesRequests`, `ArpRuns.ReopenedAsksAgain`).
- A DHCPv4 tick looks at no deadline while a message is owed. A lease confirmed by a DHCPACK without a server
  identifier after INIT-REBOOT is renewed with a message that is never built, so it is never given up
  (`Dhcp4Runs.ExpiryNeedsNothingOwed`, `Dhcp4Runs.StuckIsReachable`, `Dhcp4Runs.StuckForGood`). The comment at
  `src/dhcp/dhcp4.c:1139-1147` takes the guard to be unreachable; the code is followed.
- Half the time left to T2 can be a full word, and with a draw past the middle the wait then wraps and comes out as one
  minute (`Dhcp4Waits.WrapsToAMinuteIff`, `Dhcp4Waits.LongWaitIsReachable`). The comment at
  `src/dhcp/dhcp4.c:168-172` takes such a lease to be out of reach, because it has T1 at half the lease; a server may
  send an earlier one.
- A DHCPv6 client that picks one of T1 and T2 itself beside one the server sent can leave T1 after T2
  (`Dhcp6Runs.TimesPicked`, `Dhcp6Leases.T1CanPassT2`). While renewing it looks at T2 and not at the valid lifetime, so
  an address can outlive its lease (`Dhcp6Leases.ExpiryLeavesNoAddressIff`, `Dhcp6Leases.AddressCanOutliveLease`). The
  server it has recorded need not be the one its lease came from (`Dhcp6Servers.RunNamesItsServerIff`,
  `Dhcp6Servers.LeaseUnderAnotherName`). Until the first tick of an exchange it goes by the transaction-id of the last
  one (`Dhcp6Ids.RunAcceptsItsOwnIff`, `Dhcp6Ids.OldIdIsTaken`). A lease's times count from the last reading of the
  clock before it was taken, so T1 can come sooner after that than the server said (`Dhcp6Clock.RunTurnsNoEarlier`,
  `Dhcp6Clock.RenewsSoonerThanT1`).
- A start past MAX_CONFLICTS that comes 2^31 ms or more after its interval ended reads as too early until the clock
  comes round (`AcdStarts.StartIsTakenIff`, `AcdStarts.LateStartIsRefused`). So does a tick at a probe or an
  announcement (`AcdTicks.TickActsIff`, `AcdTicks.LateProbeIsNotSent`) and at a held draw (`AutoIpTicks.TickDrawsIff`,
  `AutoIpTicks.LateDrawIsNotMade`).
- A held TCP segment is queued by its distance past RCV.NXT, so one queued after RCV.NXT has passed the head goes in
  front of it, and a delivery then hands up nothing although the next octet is held (`TcpOrder.SortedIffTimely`,
  `TcpOrder.HeldTextOutOfReach`).
- A descriptor delivered again is unpinned on the interface its connection was last heard on, and a frame ARP releases
  on the interface its address was last heard on. Each is the descriptor's own ring only while the peer stays there
  (`DispatchTcp.LoanIsHomeIffRowIs`, `DispatchTcp.LoanCanMissItsRing`, `TickLoans.FlushedGoesHomeIff`,
  `TickLoans.RunCanMissItsRing`). The comment at `src/core/tick.c:130-133` takes a report to carry the interface its
  descriptor was pinned on; the code is followed.

## Model

| member | source | states |
|---|---|---|
| `Checksum.FoldWord` | src/checksum.c:74-85 | a 16-, 32- or 64-bit end-around sum folds to the canonical representative modulo 65535 of the whole word |
| `Checksum.SumWords` | src/checksum.c:127-144 | the word loop and its fold, in either byte order, give the pair sum of the octets it covered, in canonical form |
| `Checksum.SumTail` | src/checksum.c:149-157 | the pair loop and the odd octet add the rest of the span, modulo 2^32 |
| `Checksum.Accum` | src/checksum.c:121-163 | on a word route the result is the canonical form of the running sum, the folded words and the pairs left, taken modulo 2^32, and the unbounded pair sum of section 1 of RFC 1071 from every running sum that leaves room for five terms; on the pair-only route it is the pair sum modulo 2^32 |
| `Checksum.Final` | src/checksum.c:173-179 | fold and complement |
| `Checksum.Over` | src/checksum.c:186-190 | the checksum of a span is the complement of its canonical pair sum: of any span on a word route, and of one up to 131074 octets on the pair-only one |
| `Checksum.Valid` | src/checksum.c:201-204 | a span is valid exactly when its pair sum is a non-zero multiple of 65535, within the same lengths |
| `Checksum.SumOfHalves` | src/checksum.c:94-104 | accumulating an even-length prefix and then the rest equals accumulating the whole |
| `Checksum.StampedSpanIsValid` | src/checksum.c:186-204 | writing the computed checksum into a zeroed even-offset field always makes the span valid |
| `Checksum.FieldIsDetermined` | src/checksum.c:186-204 | and no other field does, up to the two representatives of zero |
| `Checksum.PairsOnlyExact` | src/checksum.c:99-104 | the pair-only route reports the true sum if and only if the total stays under 2^32 or wraps by a multiple of 65535 to a non-zero word |
| `Checksum.WordRouteExact` | src/checksum.c:121-163 | a word route reports the true sum from a running sum if and only if what it adds up fits 32 bits |
| `Checksum.PairsOnlyExactUpTo` | src/checksum.c:99-104 | so it is exact for every span up to 131074 octets from a running sum of zero, 131073 from one below 256, and 131072 from any other 16-bit one |
| `Checksum.PairsOnlyFailsPast` | src/checksum.c:99-104 | and from each of those, at every greater length, some span is summed wrong |
| `Ms.FromSeconds` | src/ms.c:51-55 | three shifts and two subtractions are a multiplication by 1000 |
| `Ms.ExtendKeepsTrueTime` | src/ms.c:83-91 | the epoch stays equal to true time if and only if less than 2^32 ms passed between readings |
| `Ms.ExtendNeverAhead` | src/ms.c:83-91 | whatever was missed, the epoch is never ahead of true time and never runs back |
| `Ms.EpochIsTrueTime` | src/ms.c:83-91 | over a whole run of readings under 2^32 ms apart the epoch is the true time of the last |
| `Pad.PassPaysOne` | src/time_determinism_coarse.c:112-163 | each pass takes exactly one off the passes owed, and a settled pad stays |
| `Pad.ConvergesOnCost` | src/time_determinism_coarse.c:112-163 | a fixed cost inside the bounds is reached within the distance plus one passes and kept for ever |
| `Pad.ConvergesOnBound` | src/time_determinism_coarse.c:148-163 | a cost outside the bounds settles the pad at the nearer bound |
| `Pad.NotSooner` | src/time_determinism_coarse.c:148-163 | the number of passes is exact: one fewer is not enough |
| `Pad.OutlierMovesNothing` | src/time_determinism_coarse.c:148-163 | once settled a single outlying pass moves nothing, nor does the pass after it |
| `Pad.RepeatedOutlierMovesOne` | src/time_determinism_coarse.c:148-163 | the same outlier twice moves the pad one step |
| `Pad.SpentAcrossWrap` | src/time_determinism_coarse.c:88-91 | a clock that wraps inside a pass changes nothing |
| `DeadlineList.ArmRefinesMap` | src/core/timeouts.c:202-240 | arming is map update on (unit, arg); BUSY only when every slot holds another pair, with no clock assumed |
| `DeadlineList.CancelRefinesMap` | src/core/timeouts.c:244-268 | cancelling is map removal, OK exactly when the pair was armed |
| `DeadlineList.ExpireRefinesMap` | src/core/timeouts.c:293-323 | an expiry removes exactly the pair it reports, with the deadline the map held |
| `DeadlineTimes.BeforeIsTrueOrder` | src/core/timeouts.c:77-80 | the half-range comparison is the true order if and only if the two times are within 2^31 |
| `DeadlineTimes.RunIsSorted` | src/core/timeouts.c:111-129 | over every run inside the window the wrapped list is the true one: sorted by true deadline, ties in arm order, across any wrap |
| `DeadlineTimes.DrainIsExact` | src/core/timeouts.c:293-323 | expiring until BUSY yields exactly the deadlines at or before the clock, in that order, and leaves the rest |
| `DeadlineTimes.UntilIsExact` | src/core/timeouts.c:166-178 | the reported wait is the true time to the earliest deadline |
| `DeadlineTimes.RunThenDrain` | src/core/timeouts.c:202-323 | the same after any run |
| `DeadlineTimes.RunKeepsMap` | src/core/timeouts.c:202-323 | with no assumption about the clock every run keeps one entry per pair and no more than the slots |
| `Timeouts.Table.FindSlot` | src/core/timeouts.c:83-94 | the slot of an armed pair, found exactly when there is one |
| `Timeouts.Table.FreeSlot` | src/core/timeouts.c:97-107 | a slot that is not armed, found exactly when there is one |
| `Timeouts.Table.Link` | src/core/timeouts.c:111-129 | the index-linked list in place: the slot goes in after every deadline not later than its own |
| `Timeouts.Table.Unlink` | src/core/timeouts.c:132-154 | a slot taken out, the rest of the list threaded as it was |
| `Timeouts.Table.Drop` | src/core/timeouts.c:157-162 | a slot off the list and free, `armed` one less |
| `Timeouts.Table.Report` | src/core/timeouts.c:166-178 | the count armed and the wait |
| `Timeouts.Table.Clear` | src/core/timeouts.c:184-197 | an empty list, every slot free |
| `Timeouts.Table.Arm` | src/core/timeouts.c:202-240 | the whole entry in place refines DeadlineList.Arm |
| `Timeouts.Table.Cancel` | src/core/timeouts.c:244-268 | the whole entry in place refines DeadlineList.Cancel |
| `Timeouts.Table.Advance` | src/core/timeouts.c:272-288 | the clock recorded, the list untouched |
| `Timeouts.Table.Expire` | src/core/timeouts.c:293-323 | the whole entry in place refines DeadlineList.Expire |
| `ArpModel.QueuedExactly` | src/arp/arp_table.c:291-346 | a hold is on a row's list exactly when it waits on that row, which is live and of the same address |
| `ArpModel.VictimIsOldest` | src/arp/arp_table.c:188-218 | the row evicted is the one longest unseen of those with no hold, and there is none exactly when all have holds |
| `ArpModel.TakeRowNeverEmpty` | src/arp/arp_table.c:188-218 | with fewer holds in use than rows there is always a row to take |
| `ArpModel.LearnKeeps` | src/arp/arp_table.c:238-273 | merging or adding a translation keeps the table's invariant and every hold |
| `ArpEntries.QueueKeeps` | src/arp/arp_table.c:667-728 | queue keeps the invariant and takes up exactly the frame it accepts |
| `ArpEntries.QueueAccepts` | src/arp/arp_table.c:667-728 | a frame is accepted if and only if it is well formed, its address unresolved and a hold free |
| `ArpEntries.DequeueKeeps` | src/arp/arp_table.c:734-778 | a frame comes out once, for its own address, towards its row's non-group hardware address |
| `ArpEntries.AgeRowsKeeps` | src/arp/arp_table.c:352-368 | ageing rows turns their holds to reclaims and loses none |
| `ArpEntries.ExpireHoldsKeeps` | src/arp/arp_table.c:371-391 | expiring holds unthreads them and loses none |
| `ArpEntries.TickKeeps` | src/arp/arp_table.c:789-824 | a tick keeps the invariant and gives up exactly the frame it reports |
| `ArpEntries.TickPays` | src/arp/arp_table.c:395-455 | a tick that reports uses up work at that reading, and one that does not leaves nothing overdue and no REQUEST due |
| `ArpEntries.TickRunsDry` | src/arp/arp_table.c:789-824 | at one reading tick answers OK at most once per hold in use and once per unresolved row |
| `ArpRuns.AddAnswers` | src/arp/arp_table.c:475-508 | add is BUSY exactly for a group hardware address or when every row has holds, so not only when full |
| `ArpRuns.FindAnswers` | src/arp/arp_table.c:518-554 | find answers for the one live row of an address |
| `ArpRuns.StepKeeps` | src/arp/arp_table.c:459-824 | every entry keeps the invariant and the books of a run |
| `ArpRuns.RunConserves` | src/arp/arp_table.h:17-21 | over every run the frames accepted are those dequeued, those tick gave back and those still held, as multisets, never more than the pool |
| `ArpRuns.RunThreads` | src/arp/arp_table.c:291-346 | over every run each waiting hold is on exactly one live row's list and no other hold is on any |
| `ArpRuns.RunReleasesToLearned` | src/arp/arp_table.c:734-778 | over every run a frame is released only with the hardware address last accepted for its address, never a group one |
| `ArpRuns.RunFindsLearned` | src/arp/arp_table.c:518-554 | and find returns only that address |
| `ArpRuns.RunAlwaysHasRow` | src/arp/arp_table.c:188-218 | over every run with fewer holds than rows a row can be taken |
| `ArpRuns.FullTableIsReachable` | src/arp/arp_table.c:188-218 | with as many holds as rows a run reaches a table with no row to take, so the bound is exact |
| `ArpRuns.RunPacesRequests` | src/arp/arp_table.c:424-455 | over every run a REQUEST for an address comes under a second of true time after the last for it only if the row of that address was freed in between |
| `ArpRuns.RunAsksExactlyWhen` | src/arp/arp_table.c:424-455 | over every run, at every time, an unresolved row is due a REQUEST if and only if its address was never asked for, its row was freed since, or the time since the last one, less whole turns of 2^32 ms, is a second or more |
| `ArpRuns.FreedBy` | src/arp/arp_table.c:165-218 | a row is freed by nothing but a remove of its address, a sweep that finds it aged, or an eviction for another address |
| `ArpRuns.ReopenedAsksAgain` | src/arp/arp_table.c:424-455 | and a run of one millisecond asks twice for one address: queue, tick, remove, tick, queue, tick |
| `ArpOrder.RunReleasesInOrder` | src/arp/arp_table.c:734-778 | over every run the frame released is the one longest held of all those waiting for its address |
| `ArpOrder.RunTickedDryHoldsNoneOverdue` | src/arp/arp_table.c:371-391 | over every run a tick with nothing more to report leaves held no frame accepted five seconds ago or more, to within half the range of the clock |
| `ArpTable.Resolver.Clear` | src/arp/arp_table.c:461-470 | an empty table |
| `ArpTable.Resolver.RowFind` | src/arp/arp_table.c:144-160 | the one live row of an address |
| `ArpTable.Resolver.RowFree` | src/arp/arp_table.c:165-180 | a row freed, its linked holds turned to reclaims |
| `ArpTable.Resolver.RowTake` | src/arp/arp_table.c:188-218 | a free row, or the oldest with no hold, freed |
| `ArpTable.Resolver.Learn` | src/arp/arp_table.c:238-273 | a translation merged or added |
| `ArpTable.Resolver.HoldFree` | src/arp/arp_table.c:277-287 | a free hold, found exactly when there is one |
| `ArpTable.Resolver.HoldLink` | src/arp/arp_table.c:291-315 | a hold threaded onto the end of a row's list |
| `ArpTable.Resolver.HoldUnlink` | src/arp/arp_table.c:319-346 | a hold taken out of its row's list |
| `ArpTable.Resolver.AgeRows` | src/arp/arp_table.c:352-368 | the ageing loop in place |
| `ArpTable.Resolver.ExpireHolds` | src/arp/arp_table.c:371-391 | the expiry loop in place |
| `ArpTable.Resolver.GiveBack` | src/arp/arp_table.c:395-419 | a reclaimed hold given up |
| `ArpTable.Resolver.AskFor` | src/arp/arp_table.c:424-455 | a REQUEST reported and its row stamped |
| `ArpTable.Resolver.Add` | src/arp/arp_table.c:475-508 | the whole entry in place refines ArpRuns.Add |
| `ArpTable.Resolver.Find` | src/arp/arp_table.c:518-554 | the whole entry in place refines ArpRuns.Find |
| `ArpTable.Resolver.Remove` | src/arp/arp_table.c:559-585 | the whole entry in place refines ArpRuns.Remove |
| `ArpTable.Resolver.Input` | src/arp/arp_table.c:598-656 | the whole entry in place refines ArpRuns.Input |
| `ArpTable.Resolver.Queue` | src/arp/arp_table.c:667-728 | the whole entry in place refines ArpEntries.Queue |
| `ArpTable.Resolver.Dequeue` | src/arp/arp_table.c:734-778 | the whole entry in place refines ArpEntries.Dequeue |
| `ArpTable.Resolver.Tick` | src/arp/arp_table.c:789-824 | the whole entry in place refines ArpEntries.Tick |
| `Acd.Draw` | src/acd/acd.c:103-106 | a draw inside its span |
| `Acd.NeverEarly` | src/acd/acd.c:94-97 | a deadline at most half the period off never reads as due before its time |
| `Acd.StepKeeps` | src/acd/acd.c:138-432 | every call keeps the invariant of a run |
| `Acd.FirstAnnouncement` | src/acd/acd.c:241-370 | over every run a first announcement follows exactly PROBE_NUM probes of its claim, PROBE_MIN apart, the last ANNOUNCE_WAIT earlier, with no packet failing the tests of section 2.1.1 of RFC 5227 in between |
| `Acd.StartsAreRateLimited` | src/acd/acd.c:378-410 | over every run a start accepted at MAX_CONFLICTS is RATE_LIMIT_INTERVAL past the previous start and the last conflict |
| `AcdStarts.StartIsTakenIff` | src/acd/acd.c:378-410 | over every run a start that names an interface and an address is taken if and only if fewer than MAX_CONFLICTS conflicts are counted or the time past the end of the interval, less whole turns of 2^32 ms, is under 2^31 |
| `AcdStarts.LateStartIsRefused` | src/acd/acd.c:384-394 | and a run of ten conflicts is refused a start 2^31 ms past the end of its interval |
| `AcdTicks.TickActsIff` | src/acd/acd.c:330-370 | over every run a tick sends its probe or announcement, or ends its rate limit, if and only if the state has a deadline and the time past it, less whole turns of 2^32 ms, is under 2^31, and answers BUSY where it has one and that is not so; each wait is the one section 1.1 of RFC 5227 names |
| `AcdTicks.LateProbeIsNotSent` | src/acd/acd.c:330-370 | and a run started at zero with no wait drawn does not send its first probe at a tick 2^31 ms later |
| `Acd.DefencesAreSpaced` | src/acd/acd.c:207-236 | over every run the defences of one claim are DEFEND_INTERVAL apart, and its announcements ANNOUNCE_INTERVAL |
| `AcdMachine.Machine.Defend` | src/acd/acd.c:207-236 | in place, refines Acd.Defended |
| `AcdMachine.Machine.ArpIn` | src/acd/acd.c:241-283 | one call of a run in place: it answers as Acd.Receive and keeps the counts and spacing of every run |
| `AcdMachine.Machine.Tick` | src/acd/acd.c:330-370 | one call of a run in place: it answers as Acd.Fire, so no probe, announcement or end of a rate limit comes early |
| `AcdMachine.Machine.Start` | src/acd/acd.c:378-410 | one call of a run in place: it answers as Acd.Start, so a claim at MAX_CONFLICTS is held off its interval |
| `AutoIp.DrawLands` | src/autoip/autoip.c:125-157 | whatever the generator, the seed and the address taken, a draw is in 169.254.1.0 to 169.254.254.255 and is not the address taken |
| `AutoIp.DueNeverEarly` | src/autoip/autoip.c:196-199 | a held draw never reads as due before its interval is over |
| `AutoIp.StepMoves` | src/autoip/autoip.c:164-402 | a call leaves the candidate, holds the draw over, or replaces it, the last past MAX_CONFLICTS only once a held draw is due |
| `AutoIp.DrawsAreRateLimited` | src/autoip/autoip.c:181-192 | over every run each draw is in range and new, and one past MAX_CONFLICTS conflicts is RATE_LIMIT_INTERVAL after every earlier one |
| `AutoIpTicks.TickDrawsIff` | src/autoip/autoip.c:372-402 | over every run and whatever the generator a tick draws if and only if a selector that is on holds a draw over and the time past the end of its interval, less whole turns of 2^32 ms, is under 2^31, and answers BUSY if and only if one is held and that is not so |
| `AutoIpTicks.LateDrawIsNotMade` | src/autoip/autoip.c:372-402 | and a run of eleven conflicts does not draw at a tick 2^31 ms past the end of its interval |
| `AutoIp.ReportsAreInRange` | src/autoip/autoip.c:205-214 | over every run an address reported or handed over to be claimed is in range |
| `AutoIpMachine.Machine.Draw` | src/autoip/autoip.c:125-157 | the draw loop and its fold, in place |
| `AutoIpMachine.Machine.SeedFrom` | src/autoip/autoip.c:110-118 | the six octets folded over the word |
| `AutoIpMachine.Machine.Start` | src/autoip/autoip.c:240-274 | one call of a run in place: a candidate out is in range, and one drawn past the limit is an interval after those before it |
| `AutoIpMachine.Machine.Conflict` | src/autoip/autoip.c:285-312 | one call of a run in place, under the same invariant |
| `AutoIpMachine.Machine.Tick` | src/autoip/autoip.c:372-402 | one call of a run in place, under the same invariant |
| `Dhcp6Rt.TakeDraw` | src/dhcp/dhcp6.c:105-128 | the smeared mask and eight rotations, never past the limit |
| `Dhcp6Rt.RandMagIsWithinATenth` | src/dhcp/dhcp6.c:135-143 | the product fits its word whatever the base, and the magnitude is inside a tenth of it |
| `Dhcp6Rt.FirstRtIsNearIrt` | src/dhcp/dhcp6.c:166-174 | the first RT is within a tenth of IRT and for a Solicit strictly above it |
| `Dhcp6Rt.NextRtFollowsSection15` | src/dhcp/dhcp6.c:178-186 | a later RT is within a tenth of the last around its double and under MRT, or within a tenth of MRT where that would pass it, with no 32-bit step wrapping |
| `Dhcp6Rt.ElapsedIsExact` | src/dhcp/dhcp6.c:191-199 | the reciprocal multiply is min(floor(ms/100), 65535) for every time |
| `Dhcp6Codec.FindAt` | src/dhcp/dhcp6.c:348-368 | the option walk by offset finds the first option of a code, inside the region |
| `Dhcp6Codec.CheckOpts` | src/dhcp/dhcp6.c:372-385 | the length check over the whole region |
| `Dhcp6Codec.DecodeUndoesEncode` | src/dhcp/dhcp6.c:348-403 | options laid end to end pass the check and are read back in order, nothing else |
| `Dhcp6Codec.FindIsFirst` | src/dhcp/dhcp6.c:348-368 | for any octets a search is for the first of the options they hold |
| `Dhcp6Codec.EncodeUndoesDecode` | src/dhcp/dhcp6.c:372-385 | a region passes the check if and only if it is the options it holds and fewer than four octets more |
| `Dhcp6Writer.Put` | src/dhcp/dhcp6.c:390-403 | one option in place, or zero carried on once the buffer is short |
| `Dhcp6Writer.PutIaNa` | src/dhcp/dhcp6.c:408-436 | the IA_NA and the address nested in it, in place |
| `Dhcp6Writer.PutElapsed` | src/dhcp/dhcp6.c:479-486 | the elapsed time in place |
| `Dhcp6Writer.PutOro` | src/dhcp/dhcp6.c:507-535 | the requested codes in place |
| `Dhcp6Writer.Write` | src/dhcp/dhcp6.c:448-543 | a message is written whole exactly when it fits and a server it must name is recorded, and no octet past the capacity is touched |
| `Dhcp6Writer.MessageReadsBack` | src/dhcp/dhcp6.c:348-543 | every message written passes the check, and a search recovers the client DUID and elapsed time from all types, the server DUID from exactly the four that carry it, the IA_NA from all but one |
| `Dhcp6Writer.IaNaReadsBack` | src/dhcp/dhcp6.c:408-436 | the IAID and the nested held address come back out |
| `Dhcp6Runs.TimesPicked` | src/dhcp/dhcp6.c:801-838 | T1 and T2 are never zero, and T1 is at most T2 if and only if the numbers sent say so: with one time sent, half the preferred lifetime is at most the T2 sent, or the T1 sent at most the fraction picked |
| `Dhcp6Runs.TakenLeaseIsSound` | src/dhcp/dhcp6.c:754-844 | a lease taken has a non-zero valid lifetime no shorter than its preferred one, and its deadlines count from when it was taken |
| `Dhcp6Leases.RunTimesInOrder` | src/dhcp/dhcp6.c:801-838 | over every run that holds an address, T1 is at most T2, and so are their deadlines, if and only if the message the times came from put them in order |
| `Dhcp6Leases.T1CanPassT2` | src/dhcp/dhcp6.c:801-838 | and a run takes a Reply with T1 zero, T2 five and a preferred lifetime of a hundred to a bound client whose T1 is at 50 s and T2 at 5 s |
| `Dhcp6Leases.ExpiryLeavesNoAddressIff` | src/dhcp/dhcp6.c:1301-1466 | a tick at or past the end of the valid lifetime leaves no address if and only if the client is bound, rebinding, or out of tries in a Request, Release or Decline |
| `Dhcp6Leases.AddressCanOutliveLease` | src/dhcp/dhcp6.c:1301-1314 | and a run keeps a renewing client its address past the end: valid for 100 s, T1 at 50 s, T2 at 1000 s |
| `Dhcp6Servers.LeaseNamesItsServerIff` | src/dhcp/dhcp6.c:1110-1174 | a lease taken leaves the DUID its message carried recorded if and only if the client was soliciting or rebinding, or had that DUID already |
| `Dhcp6Servers.RefusalNamesServerIff` | src/dhcp/dhcp6.c:1110-1174 | a message no lease is taken from changes the server recorded exactly in a rapid Reply, a Reply while rebinding, and a NoBinding while renewing |
| `Dhcp6Servers.RunNamesItsServerIff` | src/dhcp/dhcp6.c:1110-1174 | over every run that holds an address, whether the server recorded is the one the lease's message carried is settled by the last message to take a lease or record a server alone: it is, if and only if that one took the lease soliciting or rebinding or carrying the DUID recorded then, or recorded alone the DUID the lease's message carried |
| `Dhcp6Servers.LeaseUnderAnotherName` | src/dhcp/dhcp6.c:1137-1174 | and a run renews a lease at T1, is answered by another server, and ends bound to its address with the first server recorded |
| `Dhcp6Ids.RunAcceptsItsOwnIff` | src/dhcp/dhcp6.c:1045-1051 | over every run an accepted message carries the transaction-id drawn for the exchange it is taken in if and only if the exchange is past phase NEW |
| `Dhcp6Ids.OldIdIsTaken` | src/dhcp/dhcp6.c:582-594 | and a run whose Solicit went out under an id drawn for it, then at T1 with none drawn for its Renew, takes a Reply under the Solicit's id |
| `Dhcp6Clock.RunTurnsNoEarlier` | src/dhcp/dhcp6.c:1301-1400 | over every run on a clock that does not go back a client renewing has a finite T1 that true time has reached, and one rebinding a finite T2; for a lease a server sent, unless its deadline passes the 64-bit clock, that is T1 or T2 after the last reading of the clock before the lease was taken |
| `Dhcp6Clock.RenewsSoonerThanT1` | src/dhcp/dhcp6.c:1301-1400 | and a run whose clock was last read at zero takes a lease with T1 at 50 s at 40 s and is renewing at 50 s |
| `Dhcp6Runs.StepKeeps` | src/dhcp/dhcp6.c:564-1550 | every entry keeps a recorded server wherever one is needed |
| `Dhcp6Runs.StepMoves` | src/dhcp/dhcp6.c:1276-1466 | every entry leaves the running schedule, ends it, opens it or takes it one transmission on |
| `Dhcp6Runs.RunRecordsServer` | src/dhcp/dhcp6.c:462-474 | over every run a client requesting, renewing, releasing, declining or bound to a lease holds a server DUID of 3 to 130 octets, and so does any message owed that must name one |
| `Dhcp6Runs.RunBuildsUnlessShort` | src/dhcp/dhcp6.c:1230-1272 | over every run a configured client's build fails if and only if something is owed and the buffer is missing or short |
| `Dhcp6Runs.RunFollowsSection15` | src/dhcp/dhcp6.c:1276-1297 | over every run, with whatever overrides of SOL_MAX_RT, the times armed in an exchange follow section 15 of RFC 8415 and are no more than MRC where there is one |
| `Dhcp6Runs.RunNeverOverflows` | src/dhcp/dhcp6.c:178-186 | over every run no RT comes near the end of its word |
| `Dhcp6Client.Client.ArmLease` | src/dhcp/dhcp6.c:599-629 | the three deadlines or infinities of a lease |
| `Dhcp6Client.Client.TakeMaxRt` | src/dhcp/dhcp6.c:633-663 | an override followed until a second disagrees |
| `Dhcp6Client.Client.TakeServer` | src/dhcp/dhcp6.c:667-684 | a server DUID recorded exactly when it is of a length section 11.1 allows |
| `Dhcp6Client.Client.TakeLease` | src/dhcp/dhcp6.c:754-844 | in place, refines Dhcp6.TakeLease |
| `Dhcp6Client.Client.PickTimes` | src/dhcp/dhcp6.c:801-838 | T1 and T2 picked where the server sent zero |
| `Dhcp6Client.Client.TakeAdvertise` | src/dhcp/dhcp6.c:849-877 | in place, refines Dhcp6.TakeAdvertise |
| `Dhcp6Client.Client.Start` | src/dhcp/dhcp6.c:925-955 | one step of a run in place: refines Dhcp6.Start and keeps a server recorded where one is needed and the schedule of section 15 |
| `Dhcp6Client.Client.Accept` | src/dhcp/dhcp6.c:1024-1064 | the tests of sections 16.3 and 16.10 of RFC 8415, before anything changes |
| `Dhcp6Client.Client.OnLeaseReply` | src/dhcp/dhcp6.c:1137-1174 | in place, refines Dhcp6.OnLeaseReply |
| `Dhcp6Client.Client.OnReply` | src/dhcp/dhcp6.c:1100-1225 | in place, refines Dhcp6.OnReply |
| `Dhcp6Client.Client.Input` | src/dhcp/dhcp6.c:1004-1225 | one step of a run in place: refines Dhcp6.Input under the same invariant |
| `Dhcp6Client.Client.Build` | src/dhcp/dhcp6.c:1230-1272 | the message owed in the caller's buffer, nothing past its capacity, and ERR if and only if nothing is bound or something is owed and the buffer is missing or short |
| `Dhcp6Client.Client.Tick` | src/dhcp/dhcp6.c:1347-1466 | one step of a run in place: refines Dhcp6.Tick, and what it arms follows section 15 |
| `Dhcp4Options.Walk` | src/dhcp/dhcp4.c:262-395 | a region is refused exactly when a length runs past it or a fixed-length option is wrong, and otherwise gives the first of each option |
| `Dhcp4Options.WalkedIsFirsts` | src/dhcp/dhcp4.c:262-395 | taking options one by one, each once, is taking the first of each |
| `Dhcp4Options.Parse` | src/dhcp/dhcp4.c:401-426 | a message says the first of each option over `options`, then `file`, then `sname` as option 52 names them, or nothing if any region read is malformed |
| `Dhcp4Writer.Write` | src/dhcp/dhcp4.c:678-853 | the 300 octets of a message in place, and nothing past them touched |
| `Dhcp4Writer.ItemsFit` | src/dhcp/dhcp4.c:112-117 | every option set a client writes leaves room for the end option |
| `Dhcp4Writer.MessageReadsBack` | src/dhcp/dhcp4.c:678-820 | parsing a message written gives back exactly its type, server identifier and lease time |
| `Dhcp4Runs.TimesAreInOrder` | src/dhcp/dhcp4.c:460-507 | whatever the server sent T1 < T2 <= lease, the last strict from eight seconds |
| `Dhcp4Runs.ShortLeaseIsNotStrict` | src/dhcp/dhcp4.c:469-470 | the default T2 is the expiry itself exactly below eight seconds |
| `Dhcp4Runs.RunKeepsLeaseOrder` | src/dhcp/dhcp4.c:873-975 | over every run a held lease has its deadlines in order, RENEWING is not before T1 nor REBINDING before T2, on a clock never ahead of true time and equal to it for readings under 2^32 ms apart |
| `Dhcp4Runs.ExpiryNeedsNothingOwed` | src/dhcp/dhcp4.c:873-932 | a tick at or past the expiry ends in INIT with no address if and only if nothing is owed |
| `Dhcp4Runs.StuckForGood` | src/dhcp/dhcp4.c:876-879 | a renewal with no server recorded keeps its address however long it is ticked and built |
| `Dhcp4Runs.StuckIsReachable` | src/dhcp/dhcp4.c:1139-1159 | and a run reaches it, through INIT-REBOOT and a DHCPACK without option 54 |
| `Dhcp4Runs.RefusedChangesNothing` | src/dhcp/dhcp4.c:587-646 | a message refused leaves the whole context as it was |
| `Dhcp4Runs.BuiltHasDestination` | src/dhcp/dhcp4.c:1113-1162 | a message built is 300 octets and goes to the server or to broadcast, never to zero |
| `Dhcp4Runs.BackoffIsInRange` | src/dhcp/dhcp4.c:184-209 | the wait is within a second of 4, 8, 16, 32, 64 s; in RENEWING and REBINDING it is at least 60 s, and within a second of half the time left if and only if that with its draw fits a word |
| `Dhcp4Waits.WrapsToAMinuteIff` | src/dhcp/dhcp4.c:157-209 | for every renewal and draw the wait is one minute if and only if what is wanted, held to a word, less a second and with its draw, comes to a minute or less or passes the word, and it is what that comes to otherwise |
| `Dhcp4Waits.LongWaitIsReachable` | src/dhcp/dhcp4.c:168-177 | and a run reaches it: a lease of 9000000 s with T1 at 1 s and T2 at 8589936 s, renewed at 1410 ms with two words less two to T2, waits one minute |
| `Dhcp4Waits.EarlierDrawFits` | src/dhcp/dhcp4.c:184-209 | with the middle draw the same renewal waits the word it should |
| `Dhcp4Client.Draw` | src/dhcp/dhcp4.c:131-144 | a draw inside its span |
| `Dhcp4Client.Client.Adopt` | src/dhcp/dhcp4.c:433-454 | in place, refines Dhcp4.Adopt |
| `Dhcp4Client.Client.TakeLease` | src/dhcp/dhcp4.c:460-507 | in place, refines Dhcp4.Leased |
| `Dhcp4Client.Client.OnOffer` | src/dhcp/dhcp4.c:512-535 | in place, refines Dhcp4.OnOffer |
| `Dhcp4Client.Client.OnAck` | src/dhcp/dhcp4.c:541-564 | in place, refines Dhcp4.OnAck |
| `Dhcp4Client.Client.Input` | src/dhcp/dhcp4.c:1090-1111 | one event of a run in place: refines Dhcp4.Input, a refusal changing nothing, and keeps the order of the deadlines of a lease |
| `Dhcp4Client.Client.Plan` | src/dhcp/dhcp4.c:690-766 | what Tables 4 and 5 of RFC 2131 put in each message, and where it goes |
| `Dhcp4Client.Client.MarkSent` | src/dhcp/dhcp4.c:824-852 | in place, refines Dhcp4.Sent |
| `Dhcp4Client.Client.Build` | src/dhcp/dhcp4.c:1113-1162 | the message owed in the caller's buffer, and nothing written unless it is, under the same invariant |
| `Dhcp4Client.Client.RunDeadline` | src/dhcp/dhcp4.c:873-975 | in place, refines Dhcp4.RunDeadline |
| `Dhcp4Client.Client.Start` | src/dhcp/dhcp4.c:1014-1068 | one event of a run in place: refines Dhcp4.Start on a clock never ahead of true time |
| `Dhcp4Client.Client.Tick` | src/dhcp/dhcp4.c:1164-1182 | one event of a run in place: refines Dhcp4.Tick, so RENEWING is not entered before T1 nor REBINDING before T2 |
| `TcpStream.GapIsTrue` | src/core/dispatch.c:628-631 | within half the sequence space the modular gap and skip are the true ones |
| `TcpStream.DeliverGivesStream` | src/core/dispatch.c:2304-2382 | a delivery hands up exactly the stream from RCV.NXT to where it leaves it |
| `TcpStream.RunDeliversTheStream` | src/core/dispatch.c:2304-2382 | over every run the deliveries concatenate to the stream from the first RCV.NXT to the current one, no gap, no repeat, across any wrap |
| `TcpStream.PlaceIsByPosition` | src/tcp/tcp_pcb.c:1369-1392 | with every held segment ahead of RCV.NXT a segment is queued by its true place |
| `TcpStream.HoldKeepsOrder` | src/tcp/tcp_pcb.c:1369-1392 | holding keeps the queue in stream order if and only if RCV.NXT has not passed its head |
| `TcpStream.DrainLeavesOnlyGaps` | src/core/dispatch.c:2304-2382 | an ordered queue drains whole: each segment is handed up to its last octet or begins beyond a gap |
| `TcpOrder.SortedIffTimely` | src/tcp/tcp_pcb.c:1369-1392 | over every run in reach the queue is in stream order throughout if and only if each hold finds it empty or its head not yet passed |
| `TcpOrder.RunThenDrain` | src/core/dispatch.c:2304-2382 | after every such run a drain leaves only gaps: each segment held is handed up to its last octet or begins beyond RCV.NXT |
| `TcpOrder.HeldTextOutOfReach` | src/tcp/tcp_pcb.c:1369-1392 | a run that holds 10..25, takes text to 20 and holds 30..35 leaves a delivery nothing to hand up while the octet at RCV.NXT is held |
| `DispatchTcp.AckTakesTheFirst` | src/core/dispatch.c:2402-2430 | one call reports the first live connection that owes, and none only when none does |
| `DispatchTcp.FlushReportsEachOnce` | src/core/dispatch.c:2386-2431 | calls until BUSY report each live owed connection once, in order, with its current RCV.NXT, and leave nothing owed |
| `DispatchTcp.RunReturnsEachLoan` | src/core/dispatch.c:2322-2324 | over every run each descriptor handed up by a delivery that answers OK is given back exactly once, in order, under the interface its row named, all but the last while it is lent |
| `DispatchTcp.LoanIsHomeIffRowIs` | src/core/dispatch.c:2379-2380 | a delivery gives the head of the queue back under its own ring if and only if the row still names the interface the head came in on |
| `DispatchTcp.RunReturnsToOwnRing` | src/core/dispatch.c:2304-2382 | over every run in which no connection with text held changes interface, each goes back to its own ring |
| `DispatchTcp.LoanCanMissItsRing` | src/core/dispatch.c:733-737 | a run holds a segment past a gap from interface 0, fills the gap on interface 1 and owes its acknowledgment there: the delivery lends the segment under interface 1 |
| `Dispatcher.Rows.TcpDeliver` | src/core/dispatch.c:2304-2382 | the whole entry in place refines DispatchTcp.DeliverCall |
| `Dispatcher.Rows.TcpAck` | src/core/dispatch.c:2386-2431 | the row loop in place refines DispatchTcp.AckFrom |
| `TickRuns.ServicePays` | src/core/tick.c:232-400 | a service step that runs uses up work, and one that does not leaves its unit nothing more |
| `TickRuns.ServiceReachesFlush` | src/core/tick.c:709-789 | the service phase ends in the flush within the work of its units, each then having nothing more at that reading |
| `TickRuns.FlushReachesDone` | src/core/tick.c:791-850 | the flush ends the tick within the frames held, acknowledgments owed and steps left, with nothing lent |
| `TickRuns.TickCompletes` | src/core/tick.c:709-850 | a tick runs from its services to its end |
| `TickRuns.RunReturnsEachLoan` | src/core/tick.c:151-168 | over every run of calls in any order what each step reported handed out is given up exactly once, in order, by the call after it, under the interface it was handed out with, and all of it when a tick is done |
| `TickRuns.ServiceHolds` | src/core/tick.c:159-168 | a step that runs holds exactly what its unit handed out, in whichever unit it stops, and one that finds nothing due hands out nothing |
| `TickRuns.FlushHolds` | src/core/tick.c:408-426 | and so does a step of the flush |
| `TickFrames.RunGivesUpFrames` | src/core/tick.c:232-253 | over every run in any order the frames ARP held, less those it still holds, but for the dispatches in between, are exactly the ones behind its hand-outs, one each, in order |
| `TickFrames.TickUnpinsEachFrame` | src/core/tick.c:151-168 | from a cleared scheduler to the end of a tick every frame ARP gave up was handed out once and every hand-out given up once, as its interface and descriptor say |
| `TickLoans.RunGoesHomeIff` | src/core/tick.c:136-157 | over every run a descriptor goes back to its own ring if and only if it was handed out under it |
| `TickLoans.FlushedGoesHomeIff` | src/core/tick.c:408-426 | a frame the flush takes from ARP does if and only if its row was last heard on the interface the frame came in on |
| `TickLoans.RunReturnsHome` | src/core/tick.c:151-168 | over every run whose units, at its start and after each frame, keep a waiting frame on its row's ring, every descriptor goes back to its own |
| `TickLoans.RunCanMissItsRing` | src/core/tick.c:408-426 | a run of a frame queued from interface 0 for an address then heard on interface 1 gives its descriptor to interface 1's ring |
| `TickRuns.BegunIsSettled` | src/core/tick.c:561-580 | a cleared scheduler begins with nothing lent |
| `Scheduler.Tick.DropHold` | src/core/tick.c:151-157 | in place, refines TickModel.DropHold |
| `Scheduler.Tick.Open` | src/core/tick.c:636-670 | in place, refines TickModel.Open |
| `Scheduler.Tick.Drain` | src/core/tick.c:672-705 | the ring loop in place refines TickModel.DrainCall |
| `Scheduler.Tick.ServiceArp` | src/core/tick.c:232-253 | the resolver ticked and its frame lent under the ring its descriptor names |
| `Scheduler.Tick.ServiceTimeouts` | src/core/tick.c:383-400 | the deadline list asked for one expiry |
| `Scheduler.Tick.Service` | src/core/tick.c:709-789 | the whole entry in place refines TickModel.ServiceCall |
| `Scheduler.Tick.FlushArp` | src/core/tick.c:408-426 | a resolved frame lent under its row's interface |
| `Scheduler.Tick.FlushAcks` | src/core/tick.c:540-555 | one acknowledgment taken |
| `Scheduler.Tick.Flush` | src/core/tick.c:791-850 | the whole entry in place refines TickModel.FlushCall |

## Left out

- The rest of `src/core/dispatch.c`: Ethernet, IP and UDP routing and the counters. Its connection table is a record
  with a list for a queue; the entries of `src/tcp/tcp_pcb.c` and their links are not modelled, nor is the ring of an
  interface with none bound, on which nothing is pinned or given back.
- `src/core/tick.c` beyond the ARP table, the deadline list and the acknowledgments: each other unit is the finite list
  of steps it has left at an instant. What the dispatch of a drained frame does to the units is any state of them, and
  the reassembly marks carried out with a step are left out.
- Scheduler.Tick.Drain: takes a frame off its ring and leaves the units alone, because dispatching it is not modelled.
- The operand blocks: a call's operands are parameters and its answers results. Values mirrored out unchanged, the
  name servers a DHCP message lists, and ports and multicast destinations are left out.
- Random words are arbitrary. The link-local draw is proved for every generator; that the generator of
  `src/autoip/autoip.c` spreads its states is not stated.
- Dhcp6Rt.TakeDraw: states the draw and its limit, not that it is uniform, because random words are arbitrary.
- Dhcp4Runs.RunKeepsLeaseOrder: takes clocks up to 2^42 ms short of the end of the 64-bit clock, because a deadline
  counted from later wraps.
- Dhcp6Clock.RunTurnsNoEarlier: bounds T1 and T2 in true time where their deadlines do not pass the 64-bit clock, because
  one that does wraps.
- TcpStream.DrainLeavesOnlyGaps: takes everything held and RCV.NXT to lie in one stretch of 2^31, because the sequence
  comparison has no meaning beyond it.
- TcpOrder.RunThenDrain: takes the same, and each segment ahead of RCV.NXT when it is held, as the receive window has it.
- ArpOrder.RunTickedDryHoldsNoneOverdue: says nothing of a frame held 2^31 ms past its deadline without a tick, because
  the deadline then reads as one to come.
- A null borrow: the call does nothing there, and an object cannot be absent here.
- Field offsets, alignment, table sizes and static asserts, which are compile-time facts; their numbers are constants.
- `src/core/stats.c`, `src/ethernet/`, `src/endian.c` and `src/common.c`, which are used as plain functions.
