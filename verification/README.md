# Verified model of the OCC firmware

A Dafny model of the parts of the POWER9 OCC firmware that carry state: the 24x7 performance
collector on GPE1, the OCC state and mode managers, the image header tool and the boot loader,
the host notification handshake, the droop bookkeeping of GPE0, and two arithmetic helpers.
Source paths below are relative to the root of the firmware repository.

Code that updates statics, arrays or registers is written as classes and loops, each proved
against a specification function or a property stated outright; what the firmware promises is
then proved about runs of those functions. `dafny verify dfyconfig.toml` checks the project.

## What is modelled

| file | contents |
|---|---|
| MachineWords, Wrappers | 32- and 64-bit words, division by a variable; optional values |
| CounterDeltas, PmuLayout, PmuPostings | 24x7: wrapping counters, the posting area, one posting of each of the seven groups, written cell by cell through a PBA slave that stores or adds |
| Pmu24x7, Pmu24x7Collector | 24x7: what one call does, as a function and as the step method of a class with the code's statics |
| PmuLedger | 24x7: any sequence of postings, wipes and forgotten readings |
| Pmu24x7Runs, Pmu24x7Configuration, Pmu24x7Settings | 24x7: any sequence of calls, whatever the host writes between them |
| PmuRegisters, PmuWideCounters | 24x7: every cell in terms of the bits of its register, with addresses and unit masks as the firmware lists them |
| OccState, StateManager, OccStateRuns, OccStateTargets | state manager: transitions as functions, as methods, over runs, and when a request reaches its target |
| OccMode | mode manager |
| ImageFormat, ImageTool, BootMemory, BootLoader, LaidOutImages, BuildThenBoot | image headers (field offsets of struct image_header, src/occ_405/incl/common_types.h) and checksums, the tool that patches them, the loader that checks them, and the two together |
| HostNotify, CoreDroop, GpeWait, TlbEntry | host handshake, droop counts, polling loops, page rounding |

The results a reader would not get from one function body:

- 24x7 conservation (`Pmu24x7Runs.RunConserves`, `Pmu24x7Runs.RunGainsTrueCount`): over every run
  of calls, a wrapping counter's cell holds the sum of the increments between consecutive
  remembered readings; uninterrupted, that is the true increment minus one per wrap, minus what
  readings of zero hide, doubled for memory-buffer cycles.
- 24x7 registers (`PmuWideCounters.PhbCellGainsCount`, `MbaCellGainsCount`, `PmuRegisters.NestCounters`
  and the lemmas beside it): for the words that a run reads from a register, the cells gain what the
  counts in its bits moved by; every other cell is left alone (`OtherCells`).
- 24x7 headers (`HeadersMatchAfterEveryRun`, `HeadersCountPostings`), pacing (`Pacing`,
  `OncePerPeriod`, `SpeedIsPeriod`), configuration coverage with its exact condition
  (`ConfigurationCoverage`, `PassWritesWanted`), settings (`SettingsInForce`) and pausing
  (`PausedCountsNeverPosted`, `PausedModeChange`, `PauseThenResume`).
- State manager: the run mask matches the state over every run (`RunKeepsMask`), and a single
  transition breaks it exactly when a latched, silent first half is followed by a successful
  second half (`TransitionKeepsMaskExactly`). For every pair
  of states: exactly when the target is reached, poll by poll, and with which error it is not
  (`OccStateTargets`).
- Image tool and boot loader (`BuildThenBoot.BuildAndBoot`): the loader running on the tool's
  output jumps to the entry point exactly when SRAM is good and the images fit their windows, and
  then all three images are in place.
- Host handshake (`LostExactlyWhenOutranked`, `RetriesDrainInOrder`), droop events
  (`SmallDroopReportedExactly`, `SmallDroopMissedOnlyByWrap`), mode runs (`ModeIsLastRequest`,
  `WofBitMatchesMode`).

Expected behaviour that the code does not have is kept, with the exact condition proved:

- A GPE image so large that its last address wraps passes the range check
  (`CheckGpeIsExactUntilWrap`, `OversizedGpe0Passes`); so does such a 405 image (`Check405Exactly`,
  `Oversized405Passes`). The GPE image is then loaded over the 405 image (`OversizedGpe0Overwrites`).
- A 405 or boot loader file too short for its header fields grows past the size that its header
  records, and the loader looks in the wrong place for what follows (`HeadersAgreeExactly`,
  `OneBlockWithId`).
- Active to Observation tests its settle time-out with `>` (state.c:918) where the other two waits
  use `>=`, so STOP can reach a busy PGPE (`StopsWhileBusyExactly`, `StopsWhileBusyAtDefault`).
- `wait_spi_completion` never returns its invalid-register code; such a call ends as a time-out.
- A pause inside the four configuring calls loses that call's slice of the table for good if the
  fourth call runs, since the phase advances all the same (`SliceLostExactly`,
  `OneCallPauseLosesSlice`); if the fourth is stopped the whole table is written in the next rota
  (`StoppedPassIsTriedAgain`).
- A silent failure from Standby to Active is not without effect: no error is returned and the OCC is
  left in Observation exactly when it gets there and its second half fails with the latch set or by
  losing the enabled status (`SilentlyHalfwayExactly`, `SilentlyHalfway`).
- From Standby to Active a first half that fails silently may be followed by a second half that
  succeeds, with STANDBY still in the mask (`TransitionKeepsMaskExactly`, `SilentlySkipped`).
- The latch of Observation to Characterization is never cleared, so only its first failure is
  reported (`CharacterizationFailsOnce`).
- Group 7 counts its start in the header of group 6 (gpe1_24x7.c:1366-1368).
- An illegal 24x7 speed is reported at once but stops collection only with the next call, after the
  first slice of the table has been written for it (`IllegalSpeedStopsLate`).
- The call that brings an illegal 24x7 mode reports INIT, and the error code of later calls is
  added to the status word if the slave reset leaves the PBA adding (`IllegalModeStatus`,
  `IllegalModeStopsExactly`).
- `PAGE_ALIGNED_SIZE` (main.c:236) does not parenthesise its argument, so where `create_tlb_entry`
  passes it a sum (main.c:249) as many pages are mapped as the request has bytes, and two more,
  modulo the address space (`SmallRequestExactly`, `OverMapsByOnePageExactly`, with inputs in
  `SmallRequestOverMapped` and `LargeRequestUncovered`).

## Model

| member | source | states |
|---|---|---|
| CounterDeltas.AccumulatedIsTrueMinusWraps | src/occ_gpe1/gpe1_24x7.c:1529-1548 | for every counter width and run of readings, the accumulated increments are the true increment minus one per wrap minus what zero readings hide |
| CounterDeltas.OneStep | src/occ_gpe1/gpe1_24x7.c:1541-1548 | one pair of readings loses exactly its wraps, and no wrap can follow a zero reading |
| CounterDeltas.NothingSuppressed | src/occ_gpe1/gpe1_24x7.c:994-996 | with no reading of zero nothing is hidden |
| PmuPostings.Postings.constructor | src/occ_gpe1/gpe1_24x7.h:41-44 | statics and last readings start at zero, the area with whatever memory held |
| PmuPostings.Postings.InitializePostings | src/occ_gpe1/gpe1_24x7.c:1464-1475 | exactly the 238 posting cells are zeroed, whatever the write mode was |
| PmuPostings.Postings.ForgetReadings | src/occ_gpe1/gpe1_24x7.c:180-184 | all 24 memory-buffer and 24 PHB readings become zero |
| PmuPostings.Postings.PostPmuEvents | src/occ_gpe1/gpe1_24x7.c:614-1458 | the seven in-place posting sequences leave every cell, reading, cursor and turn flag as the per-cell specification says, for any availability, mode and register values |
| PmuPostings.Postings.PostG1 | src/occ_gpe1/gpe1_24x7.c:660-684 | header, 32 counters and trailer of the nest group, in the main or the debug area |
| PmuPostings.Postings.PostG2 | src/occ_gpe1/gpe1_24x7.c:685-856 | X links and NX, or A links, in turn; only the X turn counts in header and trailer |
| PmuPostings.Postings.PostG3 | src/occ_gpe1/gpe1_24x7.c:857-964 | NV link counters, and the shared ones when any link is there |
| PmuPostings.Postings.PostG4 | src/occ_gpe1/gpe1_24x7.c:965-1121 | the eight PHB slots of the epoch, each against its own last reading; the cursor moves by eight whichever units are absent |
| PmuPostings.Postings.PostG5 | src/occ_gpe1/gpe1_24x7.c:1122-1242 | memory buffers 0 to 3, cycles doubled, nothing for a first reading |
| PmuPostings.Postings.PostG6 | src/occ_gpe1/gpe1_24x7.c:1243-1363 | memory buffers 4 to 7 |
| PmuPostings.Postings.PostG7 | src/occ_gpe1/gpe1_24x7.c:1364-1454 | start counted in the header of group 6, time of day stored, everything else added |
| PmuLedger.PostMoves | src/occ_gpe1/gpe1_24x7.c:988-999 | a posting of any group changes a wrapping counter's cell only by its weighted increment, only when its unit is visited, and never because of another counter |
| PmuLedger.CellIsLedger | src/occ_gpe1/gpe1_24x7.c:1134-1154 | after any sequence of postings, wipes and pauses the cell is the balance of its history and the last reading is remembered |
| PmuLedger.CellGainsTrueCount | src/occ_gpe1/gpe1_24x7.c:1134-1154 | over uninterrupted postings the cell gains the true increment minus wraps, doubled for cycles |
| PmuLedger.NothingRemembered | src/occ_gpe1/gpe1_24x7.c:994-996 | the first reading after a pause accumulates nothing |
| PmuLedger.PausedCountsAreNeverPosted | src/occ_gpe1/gpe1_24x7.c:175-185 | with no reading remembered, the cell gains only the increments between the readings that follow |
| PmuLedger.HeadersMatchSinceWipe | src/occ_gpe1/gpe1_24x7.c:1361-1368 | from a wipe on headers 1 to 5 equal their trailers, header 6 is the sum of trailers 6 and 7, header 7 is zero; the debug pair keeps matching |
| PmuLedger.CellsOnlyGrow | src/occ_gpe1/gpe1_24x7.c:660-1458 | between wipes every cell but the time of day is its start plus everything ever added, modulo 2^64: nothing is stored over a count |
| PmuLedger.TimeIsKept | src/occ_gpe1/gpe1_24x7.c:1447-1449 | over any run without a wipe or a group-7 posting the time-of-day cell keeps its value |
| PmuLedger.TimeOfDayIsLast | src/occ_gpe1/gpe1_24x7.c:1447-1449 | after any run the cell holds the time of the last group-7 posting, or zero if the area was wiped since |
| PmuLedger.CursorCountsPostings | src/occ_gpe1/gpe1_24x7.c:976-980 | after any events the cursor is eight slots per group-4 posting on from its start, modulo 24 |
| PmuLedger.ThreePostingsCoverOnce | src/occ_gpe1/gpe1_24x7.c:976-1118 | of any three consecutive group-4 postings exactly one covers a given slot |
| PmuLedger.CoveredSlotIsRead | src/occ_gpe1/gpe1_24x7.c:986-1118 | a slot is read exactly when covered and its unit is available, from PHB k/4 counter k%4, into its own reading |
| PmuRegisters.NestCounters | src/occ_gpe1/gpe1_24x7.c:660-684 | for a nest register that reads a*2^48+b*2^32+c*2^16+d, posting group 1 adds a, b, c and d to its four cells, from 1+4i on, or from 239+4i on in the debug mode |
| PmuRegisters.LinkCounters | src/occ_gpe1/gpe1_24x7.c:685-856 | likewise the eight registers of the X links and the NX unit, from cell 35+4i on, if the unit's bit is set; else nothing is added |
| PmuRegisters.AlinkCounters | src/occ_gpe1/gpe1_24x7.c:685-856 | likewise the eight A link registers in the other turn |
| PmuRegisters.NvlinkCounters | src/occ_gpe1/gpe1_24x7.c:857-964 | likewise the six NV link registers, from cell 69+4i on |
| PmuRegisters.SharedNvlinkCounters | src/occ_gpe1/gpe1_24x7.c:857-964 | likewise ATS and XTS, into 93 and 97 on, if any of the six NV link bits is set |
| PmuRegisters.NpcqCounters | src/occ_gpe1/gpe1_24x7.c:1364-1454 | likewise the three NPCQ registers, from cell 205+4i on, if either of two NV link bits is set |
| PmuRegisters.CappCounters | src/occ_gpe1/gpe1_24x7.c:1364-1454 | likewise the four CAPP registers, from cell 217+4i on |
| PmuRegisters.OtherCells | src/occ_gpe1/gpe1_24x7.c:660-1458 | a posting leaves every cell outside its group's stretches alone, adds one to header and trailer, stores the time of day, and X and A links swap turns |
| PmuRegisters.HeadersCountPostings | src/occ_gpe1/gpe1_24x7.c:857-1458 | over any run without a wipe, headers and trailers of groups 3 to 7 are their start plus that group's postings, and the header of group 6 counts those of group 7 too |
| PmuRegisters.TurnsAlternate | src/occ_gpe1/gpe1_24x7.c:685-856 | over any run X and A links alternate, and header and trailer of group 2 count every other posting of it |
| PmuRegisters.NoUnitStaysZero | src/occ_gpe1/gpe1_24x7.c:1464-1475 | from the first call on, the cells between the counters of groups 4 to 7 are zero after every run |
| PmuWideCounters.PhbSlotIsRead | src/occ_gpe1/gpe1_24x7.c:986-1118 | for a PHB register that reads c*65536+r, a covered slot of an available PHB remembers c, and its cell gains what the count moved by; else neither changes |
| PmuWideCounters.MbaSlotIsRead | src/occ_gpe1/gpe1_24x7.c:1129-1154 | the same for the upper and lower 32 bits of a memory buffer's registers; cycles are doubled |
| PmuWideCounters.OtherReadings | src/occ_gpe1/gpe1_24x7.c:614-1458 | no posting of another group changes a reading |
| PmuWideCounters.PhbCellGainsCount | src/occ_gpe1/gpe1_24x7.c:986-1118 | over a run of calls that neither pauses nor wipes, the cell gains the true increment of the 48-bit count that the words read from its register show, less wraps and what zero readings hide |
| PmuWideCounters.MbaCellGainsCount | src/occ_gpe1/gpe1_24x7.c:1129-1154 | likewise for the 32-bit counts of the memory buffers, twice that for cycles |
| Pmu24x7Collector.Collector.constructor | src/occ_gpe1/gpe1_24x7.c:60-77 | the statics' initial values |
| Pmu24x7Collector.Collector.SetSpeed | src/occ_gpe1/gpe1_24x7.c:1480-1524 | the twelve legal speeds set their delay, any other writes ERR1 and keeps the delay |
| Pmu24x7Collector.Collector.ConfigurePmu | src/occ_gpe1/gpe1_24x7.c:480-609 | the loop writes exactly the available entries of its slice, in order |
| Pmu24x7Collector.Collector.FirstCall | src/occ_gpe1/gpe1_24x7.c:126-155 | what the first call initialises and which error its checks report |
| Pmu24x7Collector.Collector.TakeCommand | src/occ_gpe1/gpe1_24x7.c:167-199 | effect of every command; an unknown one stays pending |
| Pmu24x7Collector.Collector.CheckChanges | src/occ_gpe1/gpe1_24x7.c:203-258 | speed, availability and mode checks and the re-initialisation agree with the decision function |
| Pmu24x7Collector.Collector.BeginCall | src/occ_gpe1/gpe1_24x7.c:123-258 | the first part of a call as a function of the state before |
| Pmu24x7Collector.Collector.ConfigureState | src/occ_gpe1/gpe1_24x7.c:346-361 | a configuring phase, and leaving configuration or restoring PAUSE in the fourth |
| Pmu24x7Collector.Collector.VisitGroup | src/occ_gpe1/gpe1_24x7.c:281-297 | post and restart the countdown, or count down |
| Pmu24x7Collector.Collector.RunState | src/occ_gpe1/gpe1_24x7.c:266-457 | the phase switch |
| Pmu24x7Collector.Collector.Gpe24x7 | src/occ_gpe1/gpe1_24x7.c:48-462 | the whole body of one call refines the step function on which the run properties are proved |
| Pmu24x7Runs.RunReplays | src/occ_gpe1/gpe1_24x7.c:266-462 | the posting area after any run of calls is that of the run's postings, wipes and pauses in order |
| Pmu24x7Runs.RunKeepsCountdowns | src/occ_gpe1/gpe1_24x7.c:266-457 | over every run the countdowns of groups 1 and 2 are equal, none exceeds 11, and those of groups 4 to 7 none exceeds 1 |
| Pmu24x7Runs.HeadersMatchAfterEveryRun | src/occ_gpe1/gpe1_24x7.c:1361-1368 | whatever memory held and the host does, headers and trailers match after every run that starts with the first call |
| Pmu24x7Runs.RunConserves | src/occ_gpe1/gpe1_24x7.c:988-999 | conservation for every counter over every run of calls |
| Pmu24x7Runs.RunGainsTrueCount | src/occ_gpe1/gpe1_24x7.c:1134-1154 | a run that neither pauses nor wipes adds the true increment minus wraps to a cell |
| Pmu24x7Runs.RunMovesCursor | src/occ_gpe1/gpe1_24x7.c:976-980 | the PHB cursor over every run of calls |
| Pmu24x7Runs.OneMoreVisit | src/occ_gpe1/gpe1_24x7.c:281-297 | the closed form of a countdown and its postings, one visit on |
| Pmu24x7Runs.OneMoreCall | src/occ_gpe1/gpe1_24x7.c:459-462 | the closed form of phase and visits, one call on |
| Pmu24x7Runs.PostedExactly | src/occ_gpe1/gpe1_24x7.c:266-457 | for every call: nothing is posted while stopped or in the first four phases of a pending configuration; else groups 1 and 2 exactly in odd phases, group 3 in even ones, groups 4, 5, 6 and 7 in phases 2, 4, 6 and 8, whenever the countdown is over |
| Pmu24x7Runs.Pacing | src/occ_gpe1/gpe1_24x7.c:266-462 | in a quiet run of any length, from any countdown, the postings of each group are those of one countdown over its visits, restarted at the speed's delay for groups 1 to 3 and at an eighth of it for groups 4 to 7 |
| Pmu24x7Runs.OncePerPeriod | src/occ_gpe1/gpe1_24x7.c:266-462 | groups 1, 2 and 3 post exactly `periods` times in periods*2*(curDelay+1) quiet calls, groups 4 to 7 in periods*8*(curDelay/8+1), from any countdown within that delay, and come back to where they were |
| Pmu24x7Configuration.AvailableExactly | src/occ_gpe1/gpe1_24x7.c:498-568 | the written indices are exactly the unskipped ones, each once, ascending |
| Pmu24x7Configuration.WritesAreFromTable | src/occ_gpe1/gpe1_24x7.c:571-606 | for speeds 0 to 3 every write carries address and value of the 8-bit prescale table, else of the other; the XTS register's low 16 bits are what it read; the indices are those of the slice |
| Pmu24x7Configuration.ConfigurationCoverage | src/occ_gpe1/gpe1_24x7.c:273-361 | after a call that starts a pass and three undisturbed ones the whole table's available entries are written in order, from the table for the first call's speed, exactly if no call with something to write was stopped |
| Pmu24x7Configuration.ReinitialisingOpens | src/occ_gpe1/gpe1_24x7.c:235-258 | every call that re-initialises starts a pass |
| Pmu24x7Configuration.SliceLostExactly | src/occ_gpe1/gpe1_24x7.c:346-361 | part of the table is left unwritten with configuration over exactly if the fourth call runs and an earlier one with something to write was stopped |
| Pmu24x7Configuration.NothingMoreIsWritten | src/occ_gpe1/gpe1_24x7.c:266-462 | once configuration is over no number of undisturbed calls writes anything, so such a slice is lost for good |
| Pmu24x7Configuration.StoppedPassIsTriedAgain | src/occ_gpe1/gpe1_24x7.c:346-462 | if the fourth call is stopped, the fifth undisturbed call after it starts a pass over the whole table again |
| Pmu24x7Configuration.OneCallPauseLosesSlice | src/occ_gpe1/gpe1_24x7.c:173-198 | a concrete pass, CLEAR, PAUSE, RESUME and a plain call, after which configuration is over and the second slice unwritten |
| Pmu24x7Configuration.OuterSharesNeverEmpty | src/occ_gpe1/gpe1_24x7.c:498-568 | the first and the last of the four calls always have something to write |
| Pmu24x7Configuration.PassSettles | src/occ_gpe1/gpe1_24x7.c:346-361 | such a pass posts nothing and ends running, or paused when the saved status was PAUSE, with the mode reported |
| Pmu24x7Configuration.PauseForgets | src/occ_gpe1/gpe1_24x7.c:175-185 | PAUSE, whatever settings arrive with it, zeroes every reading and posts nothing; the area is wiped exactly if the speed alone changes, and collection stops unless a legal new mode starts a pass |
| Pmu24x7Configuration.StoppedPostsNothing | src/occ_gpe1/gpe1_24x7.c:266-462 | while stopped nothing is posted, configured or forgotten in any number of quiet calls; only the phase moves |
| Pmu24x7Configuration.PausedCountsNeverPosted | src/occ_gpe1/gpe1_24x7.c:175-185 | from any PAUSE call on, a cell gains only increments between readings taken after it |
| Pmu24x7Configuration.PausedModeChange | src/occ_gpe1/gpe1_24x7.c:220-258 | a lone legal mode change while paused keeps every cell and reading, configures all available units in four calls and ends paused in the new mode |
| Pmu24x7Configuration.IllegalModeStatus | src/occ_gpe1/gpe1_24x7.c:229-233 | while an illegal mode stays, the status is ERR2 when the slave stores and four more at every call when it adds; nothing is posted |
| Pmu24x7Configuration.IllegalModeStopsExactly | src/occ_gpe1/gpe1_24x7.c:203-258 | in terms of ticks, command, write mode, status and speeds before the call: when the call that brings an illegal mode stops collection; it reports INIT or a bad speed |
| Pmu24x7Settings.SettingsInForce | src/occ_gpe1/gpe1_24x7.c:203-258 | after any run that starts with the first call, the settings in force are those of the last call, the default availability if none is given at start-up, and a legal speed is the delay |
| Pmu24x7Settings.SpeedIsPeriod | src/occ_gpe1/gpe1_24x7.c:266-462 | from start-up on, the speed that the host set last is the period of every group in the quiet calls that follow |
| Pmu24x7Settings.WipesExactly | src/occ_gpe1/gpe1_24x7.c:203-258 | after the first call the area is wiped exactly by CLEAR or a new speed with availability and mode as before, readings are forgotten exactly by PAUSE, and configuration starts exactly on CLEAR or new settings |
| Pmu24x7Settings.FirstCallStarts | src/occ_gpe1/gpe1_24x7.c:123-155 | the first call wipes, forgets nothing, starts a pass, and reports a bad speed |
| Pmu24x7Settings.PauseThenResume | src/occ_gpe1/gpe1_24x7.c:170-199 | a pause of any length: RESUME finds every cell, countdown and setting as before it, the readings forgotten, and the phase as many calls on |
| Pmu24x7Settings.ClearStarts | src/occ_gpe1/gpe1_24x7.c:190-258 | CLEAR runs again from a zeroed area, keeps the readings and configures from the first phase |
| Pmu24x7Settings.NewSettingsConfigure | src/occ_gpe1/gpe1_24x7.c:203-258 | legal new settings start a pass with them; a new mode saves the status and lets collection go on |
| Pmu24x7Settings.UnknownCommandStays | src/occ_gpe1/gpe1_24x7.c:170-199 | any other command changes nothing and stays in the control block |
| Pmu24x7Settings.IllegalSpeedStopsLate | src/occ_gpe1/gpe1_24x7.c:203-258 | an illegal speed is reported by the call that brings it, which still writes the first slice of the table, and stops collection with the next |
| Pmu24x7Settings.PassWritesWanted | src/occ_gpe1/gpe1_24x7.c:498-568 | a pass that is not stopped writes exactly the entries whose units, by their bits, the host has made available |
| OccStateRuns.TransitionKeepsMaskExactly | src/occ_405/state.c:85-111 | every transition keeps the run mask equal to the state's flag, except exactly the silent skip from Standby to Active |
| OccStateRuns.SilentlySkipped | src/occ_405/state.c:1136-1159 | a concrete configuration, complete only at the second check, for which Active is reached with STANDBY still in the mask |
| OccStateRuns.NoSilentSkip | src/occ_405/state.c:1136-1159 | with stable configuration data and an active mask containing the observation mask there is no silent skip |
| OccStateRuns.SetStateKeepsMask | src/occ_405/state.c:1231-1345 | one request keeps the run mask matching |
| OccStateRuns.RunKeepsMask | src/occ_405/state.c:1231-1345 | exactly one state flag, that of the state, and none in SAFE, after every run of requests |
| OccStateRuns.BecomingActiveTakesHandshake | src/occ_405/state.c:597-794 | whenever the state becomes Active, the same call checked readiness and, with cores, got clip, start with the right owner and enabled pstates, in that order |
| OccStateRuns.ReturnContract | src/occ_405/state.c:576-835 | with its own latches clear and a steady enabled status, a transition returns no error exactly when the target is reached, and an error changes neither state nor mask, except that Standby to Active may stop in Observation |
| OccStateRuns.ReturnContractExactly | src/occ_405/state.c:144-1125 | for every combination of latches, steady status or not: no error is returned exactly when the target is reached or the transition's own latch silences the failure; if the enabled status changes after the wait, exactly when the target is not reached |
| OccStateRuns.FailureMovesExactly | src/occ_405/state.c:1136-1159 | whatever is latched, a failed transition leaves state and mask alone exactly unless Standby to Active got through its first half |
| OccStateRuns.SilentlyHalfwayExactly | src/occ_405/state.c:1136-1159 | exactly when Standby to Active returns no error and ends in neither of its states: its second half fails with the latch set, or by losing the enabled status after the wait |
| OccStateRuns.SilentlyHalfway | src/occ_405/state.c:1136-1159 | a concrete configuration for which it does |
| OccStateRuns.CharacterizationFailsOnce | src/occ_405/state.c:463-565 | over every run the latch of Observation to Characterization, once set, stays set |
| OccStateRuns.ActiveContractExactly | src/occ_405/state.c:718-747 | from every state, for the second half of Standby to Active, latched or not: the contract holds exactly when the last read agrees with the wait, or the latch hides a loss |
| OccStateRuns.BlockedWait | src/occ_405/state.c:908-915 | a wait that ends blocked was blocked throughout and ended at the first step not below its limit |
| OccStateRuns.StopsWhileBusyExactly | src/occ_405/state.c:908-936 | STOP reaches a busy PGPE exactly when the limit is a multiple of the step and the previous request never settled |
| OccStateRuns.StopsWhileBusyAtDefault | src/occ_405/state.c:908-936 | so it does with the limit of four 500 us ticks and a PGPE that never settles |
| OccStateRuns.OwnerChangesOnlyWhenSettled | src/occ_405/state.c:1040-1066 | Active to Characterization never starts a new owner while the PGPE is busy |
| OccStateTargets.WaitEndsBelow | src/occ_405/state.c:908-915 | a wait ends below its limit exactly when some poll below the limit is not blocked |
| OccStateTargets.ObservationFromActive | src/occ_405/state.c:875-998 | from Active with cores, Observation is reached exactly when clips and STOP are accepted, the settle wait passes, and some poll i with 10*i below the limit sees pstates disabled; else the error, mask and latches |
| OccStateTargets.ObservationFromCharacterization | src/occ_405/state.c:382-453 | exactly when there are no cores or clips and STOP are accepted |
| OccStateTargets.ObservationFromStandby | src/occ_405/state.c:144-196 | exactly when the data covers the observation mask; the latch is what the last attempt left |
| OccStateTargets.CharacterizationFromStandby | src/occ_405/state.c:206-315 | exactly when the data covers the active mask and, with cores, clips and start are accepted and some poll sees pstates enabled with none before it later than five seconds |
| OccStateTargets.CharacterizationFromObservation | src/occ_405/state.c:463-565 | likewise, with a latch that only ever gets set |
| OccStateTargets.CharacterizationFromActive | src/occ_405/state.c:1008-1125 | likewise without the readiness check, and the previous request seen to settle at a poll below the limit |
| OccStateTargets.ActiveFromBelow | src/occ_405/state.c:576-835 | from Observation or Characterization, when Active is reached, the error for every failure, and the latch after it |
| OccStateTargets.ActiveFromStandby | src/occ_405/state.c:1136-1159 | from Standby, when Active is reached, and where the OCC is left if it is not |
| OccStateTargets.StandbyAndSafe | src/occ_405/state.c:1169-1221 | Standby and Safe are always reached, with exactly the flags of the other states gone |
| OccStateTargets.RefusedExactly | src/occ_405/state.c:1231-1345 | which pairs of states are refused, with what error, and that nothing changes |
| OccStateTargets.RequestCrossedOff | src/occ_405/state.c:1231-1345 | a requested state is crossed off exactly by the attempt that ends in it |
| OccStateTargets.ReportedOnce | src/occ_405/state.c:144-196 | however often Standby to Observation fails in a row, only the first failure is reported |
| OccStateTargets.AsksInOrder | src/occ_405/state.c:144-1221 | for every request and all answers, START and STOP are sent only after accepted clips, pstates checked only after START, and nothing follows a refusal |
| StateManager.RowIsLookup | src/occ_405/state.c:85-111 | at most one row matches a pair of states, so first match is the match |
| StateManager.LookupHasRow | src/occ_405/state.c:85-111 | every listed transition has a row |
| StateManager.Manager.ValidStates | src/occ_405/state.c:1362-1410 | the two ready bits say exactly whether the data covers the two masks |
| StateManager.Manager.WaitEnabled | src/occ_405/state.c:715-739 | true exactly when enabled is seen before a poll passes five seconds |
| StateManager.Manager.SmgrStandbyToObservation | src/occ_405/state.c:144-196 | state, mask, latch and error of every path |
| StateManager.Manager.SmgrStandbyToCharacterization | src/occ_405/state.c:206-315 | likewise, with the PGPE events |
| StateManager.Manager.SmgrObservationToCharacterization | src/occ_405/state.c:463-565 | likewise |
| StateManager.Manager.SmgrObservationToActive | src/occ_405/state.c:576-835 | likewise; after a time-out the enabled status decides |
| StateManager.Manager.SmgrCharacterizationToObservation | src/occ_405/state.c:382-453 | likewise |
| StateManager.Manager.SmgrActiveToObservation | src/occ_405/state.c:875-998 | likewise, with both waits |
| StateManager.Manager.SmgrActiveToCharacterization | src/occ_405/state.c:1008-1125 | likewise |
| StateManager.Manager.SmgrStandbyToActive | src/occ_405/state.c:1136-1159 | the two halves, the second also after a latched failure of the first |
| StateManager.Manager.SmgrAllToStandby | src/occ_405/state.c:325-372 | always succeeds |
| StateManager.Manager.SmgrAllToSafe | src/occ_405/state.c:1169-1221 | always succeeds, clears the three state flags and asks for a reset |
| StateManager.Manager.SmgrSetState | src/occ_405/state.c:1231-1345 | the table search and the request bookkeeping refine the specification on which the run properties are proved |
| OccMode.RowOf | src/occ_405/mode.c:73-86 | the table has a row exactly for the settable modes |
| OccMode.ModeManager.FindRow | src/occ_405/mode.c:180-207 | the search returns the row of the target with the right WOF action, or none |
| OccMode.ModeManager.SmgrSetMode | src/occ_405/mode.c:122-255 | new mode, KVM request and WOF bit; without KVM the mode requested, on KVM dynamic power save; a request without a row changes nothing; and exactly when an error is returned |
| OccMode.WofBitMatchesMode | src/occ_405/mode.c:265-506 | after any run with a transition the WOF bit is set exactly in an unsupported mode; a run without one changes neither |
| OccMode.ModeIsLastRequest | src/occ_405/mode.c:122-255 | over any run without KVM, the mode is the last request that the table has a row for and whose semaphore was taken, or the initial one, and the WOF bit goes with it |
| OccMode.KvmStaysInDps | src/occ_405/mode.c:164-176 | on KVM every request taken makes the mode dynamic power save, the last one is what is reported, and with none taken nothing changes |
| ImageFormat.BytesRoundTrip | src/occBootLoader/imageHdrScript.c:808-821 | reading a written header field gives the number back |
| ImageFormat.SumOverField | src/occBootLoader/bootMain.c:236-250 | jumping over a checksum field leaves the sum as it was |
| ImageFormat.ChecksumFieldsDoNotCount | src/occBootLoader/imageHdrScript.c:482-527 | images that differ only in checksum fields have the same sum, so patching these never invalidates it |
| ImageFormat.PutInside | src/occBootLoader/imageHdrScript.c:537-565 | a patch inside a file changes only the bytes written and not the length |
| ImageTool.CalImageChecksum | src/occBootLoader/imageHdrScript.c:482-527 | the streaming loop returns the wide sum of exactly the bytes outside the checksum fields, also for files that end inside or before a field |
| ImageTool.AbsBranchReachesEntry | src/occBootLoader/imageHdrScript.c:984-996 | the branch written to the 405 image reaches its entry point exactly when that is in branch range |
| ImageTool.RelBranchReachesEntry | src/occBootLoader/imageHdrScript.c:1007-1015 | for every entry point and loader address, exactly when the relative branch reaches its entry point: the distance is in range and the loader starts as far into its 64 MB as the entry is into its word |
| ImageTool.BootIsPatched | src/occBootLoader/imageHdrScript.c:821-1100 | every field of the boot loader header is right at the end, with a valid checksum, and no other byte changed |
| ImageTool.AppIsPatched | src/occBootLoader/imageHdrScript.c:834-1130 | likewise for the 405 image with the sizes and checksums of the GPE images |
| ImageTool.RecordedSizes | src/occBootLoader/imageHdrScript.c:821-860 | for files of every length the sizes in the headers are those before patching |
| ImageTool.BuildImage | src/occBootLoader/imageHdrScript.c:771-1162 | refuses exactly the unaligned inputs, untouched; otherwise both files are the patched ones and the target is the four images in order |
| BootLoader.Check405Exactly | src/occBootLoader/bootMain.c:270-305 | for every start and size, what the 405 checks accept: what fits the window, and what wraps around into it |
| BootLoader.Oversized405Passes | src/occBootLoader/bootMain.c:270-305 | a start and an aligned size that wrap into the window and pass |
| BootLoader.Check405IsExact | src/occBootLoader/bootMain.c:270-305 | for images not longer than the memory below the SRAM, exactly what fits the window |
| BootLoader.CheckGpeIsExactUntilWrap | src/occBootLoader/bootMain.c:330-409 | what the GPE checks accept: what fits, and what is so large that its last address wraps |
| BootLoader.OversizedGpe0Passes | src/occBootLoader/bootMain.c:330-368 | an oversized image, of an aligned length, that passes |
| BootLoader.Reported405 | src/occBootLoader/bootMain.c:270-305 | a refused 405 image is reported by its last address, or its start if only that is outside, and address zero by 0x1234ABCD |
| BootLoader.ReportedGpe | src/occBootLoader/bootMain.c:330-409 | a refused GPE image is reported by its last address, which is never zero, and which sizes are refused |
| BootLoader.Machine.Copy | src/occBootLoader/bootMain.c:314-324 | for all addresses and sizes, overlapping and wrapping ones included, the loop leaves the memory of a byte-by-byte copy |
| BootMemory.CopiedApart | src/occBootLoader/bootMain.c:314-324 | such a copy between ranges that neither wrap nor overlap moves the section intact and changes no other byte |
| BootMemory.CopiedPastEnd | src/occBootLoader/bootMain.c:352-364 | what every byte of memory is after a copy that runs past the end of memory |
| BootLoader.Machine.CalChecksum | src/occBootLoader/bootMain.c:226-260 | for every range, wrapping ones included, the index-jumping 32-bit loop computes the same checksum as the tool's definition |
| BootLoader.Machine.BootLoad405 | src/occBootLoader/bootMain.c:270-328 | for any memory: the return code, and a copy or nothing at all |
| BootLoader.Machine.BootLoadGpe | src/occBootLoader/bootMain.c:330-409 | likewise for a GPE image |
| BootLoader.Machine.BootTestSram | src/occBootLoader/bootMain.c:421-451 | the range holds the pattern and nothing else is written; zero is returned exactly when every word of it, as written, reads back as the pattern, else the first that does not |
| BootLoader.Machine.BootMain | src/occBootLoader/bootMain.c:82-212 | for any memory: halts in the SRAM test at the first bad word exactly when there is one, else outcome and memory are those of the load and check sequence on the tested memory |
| LaidOutImages.TestKeepsImages | src/occBootLoader/bootMain.c:88-112 | the SRAM test leaves the images in main memory alone |
| LaidOutImages.LoadsPlace | src/occBootLoader/bootMain.c:114-154 | the header walk finds every section, the loads stop at the first range check that fails, and otherwise all three images are in disjoint windows |
| LaidOutImages.ComparesImages | src/occBootLoader/bootMain.c:156-196 | the checksums compared are those of the images |
| LaidOutImages.BootsByVerdict | src/occBootLoader/bootMain.c:114-209 | for images in a row in main memory the sequence halts or jumps as the verdict on them says, and jumps only with all three in place |
| LaidOutImages.OversizedGpe0Overwrites | src/occBootLoader/bootMain.c:330-368 | a GPE0 image too long for the memory above its start passes the check and replaces everything up to the end of memory, the loaded 405 image with it, and the bottom of main memory |
| BuildThenBoot.OutcomeExactly | src/occBootLoader/bootMain.c:82-212 | for images in a row in main memory: which check halts the boot, with which checkpoint number and address or sum, and when it jumps, in terms of header bytes and byte sums |
| BuildThenBoot.CombinedFileIsLaidOut | src/occBootLoader/bootMain.c:114-154 | the combined file, placed where its boot loader's header says, holds the four patched images in a row with headers that agree with them |
| BuildThenBoot.HeadersAgreeExactly | src/occBootLoader/imageHdrScript.c:771-930 | for files of every length: the headers agree with the files as built exactly when both files had room for their headers |
| BuildThenBoot.OneBlockWithId | src/occBootLoader/imageHdrScript.c:834-925 | a 405 file of 128 bytes with an id is built sixteen bytes longer than its header says |
| BuildThenBoot.ChecksumIs | src/occBootLoader/imageHdrScript.c:482-527 | the checksum is the 32-bit sum of all bytes of a GPE image, and of all but bytes 112 to 123 of another |
| BuildThenBoot.BuiltBootHeader | src/occBootLoader/imageHdrScript.c:771-1162 | a built boot loader byte by byte: length, relative branch word, version, id and checksum, most significant byte first |
| BuildThenBoot.BuiltAppHeader | src/occBootLoader/imageHdrScript.c:771-1162 | a built 405 image byte by byte, with the lengths and checksums of the GPE images |
| BuildThenBoot.BuiltImageBoots | src/occBootLoader/bootMain.c:114-209 | for all images the verdict on the tool's output is the jump to the entry point exactly when they fit their windows |
| BuildThenBoot.BootBuiltImage | src/occBootLoader/bootMain.c:82-212 | the running loader jumps on the tool's output exactly when SRAM is good and the images fit, with everything loaded |
| BuildThenBoot.BuildAndBoot | src/occBootLoader/imageHdrScript.c:771-1162 | from the four files to the jump: unaligned input is refused and nothing changed; otherwise the target is put into memory and booted, with that outcome |
| HostNotify.Notifier.NotifyHost | src/occ_405/common.c:181-278 | new pending set, interrupt and reason bits, and exactly when success is returned |
| HostNotify.Notifier.RetryPending | src/occ_405/common.c:48-53 | the tick retries the pending set |
| HostNotify.RunKeepsOneReason | src/occ_405/common.c:181-278 | over any interleaving OCCMISC never carries two reason bits, and carries one while an interrupt is outstanding |
| HostNotify.StepProtocol | src/occ_405/common.c:181-278 | nothing is raised while one is outstanding; else what is raised is the first of shared memory, HTMGT service and I2C ownership that is pending or requested; a reason leaves the set only by being raised |
| HostNotify.LostExactlyWhenOutranked | src/occ_405/common.c:181-278 | a request is lost exactly when the host is idle, it is not pending, and one before it in that order is |
| HostNotify.PendingIsRaisedOrKept | src/occ_405/common.c:48-53 | a pending reason is raised or still pending after any interleaving |
| HostNotify.RequestIsRaisedOrKept | src/occ_405/common.c:181-278 | so is any request that was not lost |
| HostNotify.RetriesDrainInOrder | src/occ_405/common.c:48-53 | with the host answering, whatever reason bits it leaves set, at most three retries drain the set in that order |
| CoreDroop.CoreData.CountEvents | src/occ_gpe0/core_data.c:118-146 | exactly the counts of the read quad and of its cores whose event bit is seen go up by one |
| CoreDroop.CoreData.GetCoreData | src/occ_gpe0/core_data.c:80-161 | counts, flags and return code for every combination of read failures |
| CoreDroop.VdsrBits | src/occ_gpe0/core_data.c:118-146 | which bit of the register is the quad's and which each core's; zero is an event |
| CoreDroop.ReadIsPoll | src/occ_gpe0/core_data.c:118-161 | reading a word whose bits show the latches has the counts and flags of a poll in a run |
| CoreDroop.SmallRunInvariant | src/occ_gpe0/core_data.c:103-161 | over any run a core's count is its sightings modulo 2^32, and what is owed is latched or counted |
| CoreDroop.SmallDroopReportedExactly | src/occ_gpe0/core_data.c:103-161 | in runs of fewer than 2^32 events the flag is set exactly when a small droop is owed to the core |
| CoreDroop.SmallDroopMissedOnlyByWrap | src/occ_gpe0/core_data.c:103-161 | with no bound, exactly when an owed droop is missed |
| CoreDroop.LargeDroopReportedOnce | src/occ_gpe0/core_data.c:103-161 | a large droop is reported to the next reader of the quad and to nobody after |
| GpeWait.BusyWait | src/occ_gpe0/gpe_util.c:162-192 | returns at the first poll at which the 32-bit elapsed time reaches the request or 33 comparisons in a row were equal, whenever there is one |
| GpeWait.SlowClockEnds | src/occ_gpe0/gpe_util.c:162-192 | there is one for every clock that moves by at most 2^32 minus the request per poll |
| GpeWait.UnchangedMeansStuck | src/occ_gpe0/gpe_util.c:162-192 | the count of unchanged comparisons reaches n exactly when the last n comparisons each saw equal low 32 bits |
| GpeWait.WaitMeasuresTrueTime | src/occ_gpe0/gpe_util.c:162-192 | for such a clock the wait ends by the true elapsed time |
| GpeWait.ElapsedIsTrue | src/occ_gpe0/gpe_util.c:162-192 | 32-bit subtraction is the true elapsed time across a wrap |
| GpeWait.OneTickMoreNeverReturns | src/occ_gpe0/gpe_util.c:162-192 | that bound is sharp: a clock allowed one tick more per poll never ends the wait |
| GpeWait.WaitSpiCompletion | src/occ_gpe0/gpe_util.c:82-152 | exactly when each return code is given, with one read for every whole 10 us of the time-out and at least one; an invalid register ends as a time-out |
| TlbEntry.CreateTlbEntry | src/occ_405/main.c:234-254 | for every address and size: a page-aligned start; the request is covered exactly when the mapped pages, counted modulo the address space, are enough; the length is the intended PAGE_SIZE*(floor((offset+size)/PAGE_SIZE)+1) exactly when the branch with the sum is not taken or happens to agree with it modulo the address space |
| TlbEntry.SmallRequestIsCovered | src/occ_405/main.c:234-254 | every request of less than 2^22 - 2 bytes is covered |
| TlbEntry.SmallRequestExactly | src/occ_405/main.c:246-254 | such a request gets the intended length exactly when it neither crosses its page by its last part nor is in the last page; else two pages more than it has bytes |
| TlbEntry.OverMapsByOnePageExactly | src/occ_405/main.c:246-254 | such a request is over-mapped by at most one page exactly when the sum is not taken, or it is empty and inside a page |
| TlbEntry.SmallRequestOverMapped | src/occ_405/main.c:236-249 | 100 bytes at 1000, which need two pages, get 104448 bytes |
| TlbEntry.LargeRequestUncovered | src/occ_405/main.c:236-249 | 0x3FFFFE bytes at 1023, which need 4097 pages, get none |

## Left out

- The host writing its control block in the middle of a 24x7 call: the block is sampled when the call starts.
- 24x7 version, marker and debug cells, the tick counter of late calls, and the response message with its halt.
- Failing SCOM accesses in 24x7, whose return codes the code ignores: a register reads some 64-bit word.
- The contents of the two configuration tables and the body of the PBA slave reset: parameters. The tables' XTS entries leave the low 16 bits clear, as both do.
- The twelve cases of `set_speed`, one per speed, are the identity they spell out.
- The register address lists and unit masks that the postings use are functions of the unit number with the values listed in PmuRegisters and PmuWideCounters; the flat MBA/MCA naming of the source is kept.
- Error logs, traces and checkpoints that have no effect on the modelled state.
- Bodies of the PGPE calls, hardware-pstate checks, nominal-pstate and WOF calls, run-mask updates, memory and GPU disables, and the semaphore: their outcomes are parameters of a call.
- The bits of the valid-states byte other than the two ready bits: a parameter that does not overlap them.
- The time actually spent in `wait_spi_completion`; only what it reads and returns is modelled.
- EMPATH and temperature values collected by `get_core_data`: only the return codes matter to the counts.
- I/O failures of the image tool, the same file passed twice, ELF parsing and header dumps.
- The two functions for the GPE images of the boot loader are one method with the window as a parameter.
- SRAM faults that the test pattern does not show: what the loader reads after the test is what it wrote.
- LaidOutImages.BootsByVerdict: leaves out images that do not lie below the SRAM and GPE images whose copy runs past the end of memory; whether the loader then jumps depends on the sums of what is overwritten, as `BootMain` and `OversizedGpe0Overwrites` say.
- BuildThenBoot.BuiltImageBoots: leaves out files without room for their headers, which `HeadersAgreeExactly` shows are not laid out as the loader walks them.
- Whatever puts the combined file into main memory: a plain loop stands for it.
- ImageTool.BuildImage: the headers are stated field by field only for files with room for them; a shorter file, such as a 128-byte image with a 16-byte id, holds what the writes in order leave, and grows. The patches of the two headers are not interleaved as in the source; none of one reads the other.
- GpeWait.BusyWait: a wait that is never over does not return, so its contract covers the others.
- An unrecognised pending byte in `notify_host`: the pending set holds only the three defined reasons.
- OCC reset handling, header reading, HOMER access, FIR collection, APSS, DIMM and memory power control.
