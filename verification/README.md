# ZeBridge: a verified model of its Python services and scripts

ZeBridge replicates PostgreSQL tables and sensor readings over NATS. This project models the parts of
its Python programs that keep state, race with other processes or do delicate arithmetic, and proves
what they promise. `dafny verify dfyconfig.toml` checks everything.

| file | what it models |
|---|---|
| `Archive.dfy` | the readings responder: Parquet files up to a boundary, a hot table after it, one view over both; the follower that fills the hot table; the archiver that writes the files |
| `Tour.dfy` | the order of a tour's stops: exact up to nine, nearest neighbour and 2-opt beyond |
| `Plane.dfy`, `Corridor.dfy` | anchors along a way, the cap on their number, what the corridor keeps, point-to-segment distance |
| `Checkpoint.dfy` | the hub's recovery checkpoint as a protocol against publishers and the worker |
| `Cutover.dfy` | the migration of the public mutation queue to private capture |
| `Snapshot.dfy` | a full snapshot absorbed as a diff with tombstones and revival (fuel feed, charge points, points of interest) |
| `CopyText.dfy` | the hand-written COPY text and the rules it is read by |
| `Geohash.dfy` | geohash by bisection, prefixes, cells, the grid around a centre |
| `EventKeys.dfy` | UUIDv7 keys and the filters that compare them |
| `DateLine.dfy` | longitude boxes on a circle |
| `Memberships.dfy` | the reset of the fixture principals' tenant memberships |
| `Reals.dfy`, `BinaryPowers.dfy`, `Wrappers.dfy` | products of reals; powers of two; Option and Result |

Code that changes state step by step is modelled by classes and methods with loops, proved against
specification functions or properties stated outright. The checkpoint is a relation between states
instead, because its claims are about every state between two of its calls, a crash included; so are
the environment's steps in it. Floating-point numbers are exact reals, integers are unbounded.

## Assumptions about the environment

- A manifest the responder reads never covers less than one it read earlier, and its files hold the latest
  row of each key up to its boundary. When the archiver's manifests do is proved exactly
  (`Archive.Archive`, `Archive.PublishedIsFaithfulExactlyWhen`); that both matter is shown by
  `Archive.BackwardManifestLosesARow` and `Archive.FirstRunCertifiesWhatExpired`. Stream sequence numbers
  start at 1 and name one message each.
- The ordered consumer delivers the stream's messages in order from the start sequence.
- The worker acknowledges a write only after PostgreSQL committed it (README_0.md, line 1322).
- While the migration runs, admission does not, so nobody publishes on the private subjects.
- The distance of the corridor is a metric in which a stretch of a segment of the way is at most `c` times
  as long as its share of it, `c` being at least 1. The flat plane has `c` = 1
  (`Plane.FlatIsMetricAndStraight`); points interpolated in degrees are spaced unevenly on the ground, and
  the guarantee shrinks by what `c` exceeds 1.
- pg_dump and `copy_secret` sync what they write. Files the checkpoint does not sync may be gone after the
  host died; directory entries are not looked at.
- COPY text is read by PostgreSQL's documented rules for the text format: backslash sequences, `\N` for
  NULL and the end-of-data marker.
- The keys of one snapshot are unique. `Snapshot.KeepFirst` models the loop that should make them so for
  charge points.

## Where the code does less than it seems to

- **The archiver's first run certifies readings it never saw.** Without a manifest it does not compare the
  stream's first sequence with anything, starts there, and publishes a boundary above it. What had expired
  before is then covered by the boundary and in no file, and a responder that still had it drops it
  (`Archive.FirstRunCertifiesWhatExpired`). The exact condition is in `Archive.Archive`; with `--accept-loss`
  it is `Archive.PublishedIsFaithfulExactlyWhen`.
- **A lost reply to the checkpoint's pause leaves capture paused.** `paused_capture` is set only after the
  call returned, so when the pause took effect but its reply did not arrive, or takes effect after the script
  gave up, the `finally` block does not resume. OPERATIONS.md says capture resumes even on ordinary failure.
  The exact condition is `Checkpoint.ExitRestoresExactlyWhen`, the runs are
  `Checkpoint.LostPauseReplyLeavesCapturePaused` and `Checkpoint.PauseCanComeAfterTheEnd`.
- **The resume file is not synced before the pause**, so a host that dies can take it along, against the
  comment on backup-hub.py line 64 and OPERATIONS.md line 903: `Checkpoint.PausedMeansRecoverable` says
  exactly when it is there, `Checkpoint.HostDeathCanLoseTheResumeFile` gives the run. The death of the
  process alone never costs it.
- **The migration's first update is outside its guarded block**, and the block catches no interruption.
  `Cutover.Left` names the configuration every end leaves, and `Cutover.LeftIsPreviousExactlyWhenHarmless`
  says which ends leave the old one: a first update that was refused rather than lost, a rollback that was
  not refused, an interruption before the pause took effect or after the rollback did. Which end comes is
  determined by how the calls turn out and whether a write comes in (`Cutover.Migrate`): inside the block
  every exception, a late write included, is followed by one attempt to restore.
  `Cutover.LosesThePauseReply` and `Cutover.InterruptedAfterThePause` are runs that leave public capture off.
  Running the script again repairs neither: it reports unsafe limits, or takes the half-finished migration
  for a finished one when the old limits happen to be bounded (`Cutover.MigrateTwice`,
  `Cutover.NextRunFinds`). Nor does it complete a run that stopped at a busy legacy consumer.
- **A longitude box that only touches the date line admits one of its two names.** Around 170 with a
  half-width of 10, longitude -180 is left out (`DateLine.EastwardBoxMissesTheDateLine`). The condition is
  `DateLine.BoxIsRightExactlyWhen`.
- **A view whose sides are not within [-180, 180] is not normalised**, unlike a centre: from -190 to -170 it
  misses 175 (`DateLine.UnwrappedViewMissesAStrip`). The condition is `DateLine.ViewIsRightExactlyWhen`.
- **Duplicate charge points are recognised by their text**, while the staged column is a UUID: two spellings
  of one key are both kept, and writing one row twice can abort the load
  (`Snapshot.TwoSpellingsAreBothKept`, condition in
  `Snapshot.KeepFirst`).
- **The anchor cap gives MAX_ANCHORS + 1 anchors, and the second step can be narrower than the first**, when
  only the extra anchor at the end passed the cap: `Corridor.AnchorsFor`, `Corridor.SecondStepCanBeNarrower`.
- **The corridor is narrower at bends.** The comment on `densify` (poi_service.py, lines 352-353) and the
  answer's `held` say it keeps sqrt(width^2 - (step/2)^2) everywhere. On a straight segment it does
  (`Corridor.BesideTheWayIsKept`), around a bend not: `Corridor.BendIsNarrower` is the input,
  `Corridor.KeptAtAVertexExactlyWhen` the exact condition, and width - c * step/2 holds everywhere
  (`Corridor.NearTheWayIsKept`).
- **`v7_boundary` keeps the leading twelve digits** of a moment that needs more, so its filter is right exactly
  for moments below 2^48 ms: `EventKeys.KeyFilterIsTimeFilter`, `EventKeys.FilterPastTheLastMillisecond`.
- **The grid has fewer cells** as soon as one of its points leaves the range: `Geohash.Grid`,
  `Geohash.GridAtTheDateLineIsShort`.

## Model

| member | source | states |
|---|---|---|
| Archive.LatestHoldsOneRowPerKey | examples/16-archive/responder.py:50-56 | the view has exactly one row for each key, and one at least as late as every row under that key |
| Archive.DedupComposes | examples/16-archive/responder.py:50-56 | deduplicating the archived part first does not change the deduplication of everything |
| Archive.FlushCondenses | zb-archiver/src/zb_archiver/archiver.py:163-176 | a chunk becomes one file with one row per key, which loses nothing of the chunk nor of what was archived before; a chunk with nothing readable only moves the boundary |
| Archive.PublishedIsFaithfulExactlyWhen | zb-archiver/src/zb_archiver/archiver.py:179-227 | whatever chunks were archived, gaps between them included, the published manifest holds the latest row of each key up to its boundary exactly when every reading passed over was sent again and archived later |
| Archive.TakenInOneStretch | zb-archiver/src/zb_archiver/archiver.py:210-217 | without `--accept-loss` the archived chunks are exactly the readings from the start on, none passed over |
| Archive.Archive | zb-archiver/src/zb_archiver/archiver.py:92-227 | one run: when it refuses, how many chunks it takes and what it publishes; without `--accept-loss` a tenant with a faithful archive keeps one, and a first run is faithful exactly when each reading below the stream's first sequence was sent again later |
| Archive.FirstRunCertifiesWhatExpired | zb-archiver/src/zb_archiver/archiver.py:92-114 | a first run on a stream that lost message 1 publishes a boundary over it, and a responder that had it loses it |
| Archive.Readings.constructor | examples/16-archive/responder.py:39-48 | an empty responder: no files, boundary 0, empty hot table |
| Archive.TotalRowsAdds | examples/16-archive/responder.py:62 | the archived count is the sum of the files' rows |
| Archive.Readings.MoveTo | examples/16-archive/responder.py:58-64 | a newer manifest replaces files and boundary, and the hot rows it covers leave, in order; the invariant that no reading is lost is kept |
| Archive.Readings.Add | examples/16-archive/responder.py:66-72 | rows join the hot table, late ones at or below the boundary included; the invariant is kept |
| Archive.Readings.Query | examples/16-archive/responder.py:74-79 | after any interleaving of manifests and additions, the answer is the latest reading per key over everything archived up to the boundary or added, one row per key |
| Archive.BackwardManifestLosesARow | examples/16-archive/responder.py:58-64 | after a manifest that moves back, a row that had been archived and added is in neither the files nor the hot table |
| Archive.React | examples/16-archive/responder.py:117-129 | one turn of the follower, event by event: a reading joins the pending batch or fills it up and everything goes to the hot table, anything else adds nothing, a timeout flushes; above the boundary, hot table then pending batch stay exactly what was delivered |
| Archive.Follow | examples/16-archive/responder.py:99-129 | over any sequence of deliveries, timeouts and manifest moves every reading of a message arrives and nothing else does; above the boundary the hot table followed by the pending batch is the delivered readings in order, none repeated; the boundary is the last manifest's |
| Archive.NoHoleExactlyWhenNothingBetween | examples/16-archive/responder.py:91-93 | archive and stream together miss nothing exactly when no reading lies between the boundary and the stream's first sequence; never when the stream starts at or before covers + 1 |
| Archive.AnswerAfter | examples/16-archive/responder.py:82-129 | started without a hole and flushed, the responder answers from every reading up to the furthest point archive or stream has reached |
| Tour.PermutationsAreExactlyTheReorderings | examples/08-map/poi_service.py:155-157 | the enumeration the exact search walks lists exactly the reorderings of the stops |
| Tour.Shortest | examples/08-map/poi_service.py:155-158 | the exact search returns a shortest order among all that start at stop 0 |
| Tour.LengthIsItsLegs | examples/08-map/poi_service.py:151-153 | an open tour is as long as the sum of its legs, a closed one as the open one that comes back to its first stop |
| Tour.RotationKeepsTheLength | examples/08-map/poi_service.py:151-153 | starting a closed tour elsewhere does not change its length |
| Tour.ShortestFromZeroIsShortest | examples/08-map/poi_service.py:155-158 | for a closed tour, shortest from stop 0 is shortest of all orders |
| Tour.Nearest | examples/08-map/poi_service.py:161 | the next stop is among those left and none left is nearer |
| Tour.NearestNeighbour | examples/08-map/poi_service.py:159-161 | the first tour visits every stop once, starts at 0, and goes to a nearest remaining stop each time |
| Tour.FlipAt | examples/08-map/poi_service.py:168 | the move puts the stops of the stretch end for end and leaves the others |
| Tour.EndsFor | examples/08-map/poi_service.py:166-170 | trying every end of a stretch keeps the stops and the first one; either the tour got shorter by more than 1e-6 or no end was worth it |
| Tour.TwoOpt | examples/08-map/poi_service.py:162-171 | 2-opt ends, keeps the stops and the first one, is never longer than the tour it started from, and at exit no reversal gains more than 1e-6 |
| Tour.MeasureDrops | examples/08-map/poi_service.py:169-170 | each accepted move lowers a natural number, so the loop ends |
| Tour.Order | examples/08-map/poi_service.py:142-171 | the order is a permutation from stop 0: shortest up to nine stops, beyond that no reversal of a stretch shortens it by more than 0.000001 and it is no longer than a nearest-neighbour tour from stop 0; lengths are those of LengthIsItsLegs |
| Tour.FrontFlipIsBackFlip | examples/08-map/poi_service.py:165-170 | on symmetric distances, reversing the front of a closed tour is as long as reversing its back |
| Tour.ClosedTourHasNoWorthwhileFlip | examples/08-map/poi_service.py:162-171 | so the local optimum of a closed tour covers every stretch, though the loop never moves stop 0 |
| Plane.FootIsNearest | examples/08-map/poi_service.py:174-182 | no point of the segment is nearer than the clamped projection |
| Plane.SegmentDistanceIsTheMinimum | examples/08-map/poi_service.py:174-182 | a point is within a limit of a segment exactly when it is within that limit of some point of it, longitudes scaled, degenerate segments included |
| Corridor.StepsBrackets | examples/08-map/poi_service.py:338-376 | the number of whole steps in a length |
| Corridor.RemainderOfSum | examples/08-map/poi_service.py:367 | the carried remainder after a segment is the way since the last anchor |
| Corridor.Densify | examples/08-map/poi_service.py:338-374 | anchors sit at exactly 0, step, 2 step, ... and at the whole length; each is interpolated on the way at a fraction in (0, 1] |
| Corridor.WholeStepsHaveNoTail | examples/08-map/poi_service.py:427-431 | a step of length / n gives exactly n + 1 anchors |
| Corridor.CapIsPassedExactlyBy | examples/08-map/poi_service.py:429 | the cap is passed exactly by ways longer than MAX_ANCHORS - 1 steps |
| Corridor.SecondStepCanBeNarrower | examples/08-map/poi_service.py:377-380 | a way of 3999.5 steps passes the cap and gets a narrower step |
| Corridor.AnchorsFor | examples/08-map/poi_service.py:426-431 | the anchors of a route are half a width apart; past the cap they are exactly MAX_ANCHORS + 1, the MAX_ANCHORS-th part of the way apart, which is at least half a width exactly when the way holds MAX_ANCHORS whole steps and less between 3999 and 4000 of them |
| Corridor.NearTheWayIsKept | examples/08-map/poi_service.py:383-395 | on a way whose segments stretch by at most c, no point at most width - c * step/2 from any place on it is rejected, whatever the step |
| Corridor.KeptIsNearTheWay | examples/08-map/poi_service.py:383-395 | what the corridor keeps is within the width of some place on the way |
| Corridor.BetweenNeighboursIsKept | examples/08-map/poi_service.py:345-353 | between neighbouring anchors of a straight segment the corridor holds sqrt(width^2 - (step/2)^2) |
| Corridor.BesideTheWayIsKept | examples/08-map/poi_service.py:383-395 | the same for the anchors placed along a way |
| Corridor.MidwayIsWhereTheCorridorNarrows | examples/08-map/poi_service.py:432-433 | midway between two anchors that half-width is exact |
| Corridor.KeptAtAVertexExactlyWhen | examples/08-map/poi_service.py:345-353 | which points beside a vertex one of the anchors on its two arms keeps, by the stretch of each arm and how far the point lies away from that arm's anchor |
| Corridor.BendIsNarrower | examples/08-map/poi_service.py:352-353 | at a right-angle bend between two anchors half a width apart, a point nearer than the promised half-width is rejected |
| Checkpoint.StepKeepsInv | deploy/backup-hub.py:50-97 | every step of script, publishers, worker or disk, a pause or resume taking effect late, and the death of the process or the host keep the invariant |
| Checkpoint.RunKeepsInv | deploy/backup-hub.py:50-97 | the invariant holds in every state of every run |
| Checkpoint.ManifestMeansComplete | deploy/backup-hub.py:73-94 | with a manifest, the dump holds every write accepted in any state before the pause or committed before the dump, and nothing uncommitted; every named file is there, after the host died those that were synced |
| Checkpoint.SucceedingRun | deploy/backup-hub.py:50-97 | a run that ends well, with the manifest, what was committed in the dump and capture as before |
| Checkpoint.ExistingDestinationIsKept | deploy/backup-hub.py:60 | a destination that is there already stops the script before it writes or pauses anything |
| Checkpoint.NothingAcceptedWhilePaused | deploy/backup-hub.py:62-79 | no publish is accepted between pause and resume |
| Checkpoint.PausedMeansRecoverable | deploy/backup-hub.py:64-71 | a pause changes nothing but what is captured, and while the stream is paused the resume file is there, with the configuration from before, exactly unless the host died before it was synced |
| Checkpoint.HostDeathCanLoseTheResumeFile | deploy/backup-hub.py:64-71 | a run after which the stream is paused and no file says what it was |
| Checkpoint.PauseCanComeAfterTheEnd | deploy/backup-hub.py:69-97 | a run that gives up on its pause and ends, and is paused afterwards |
| Checkpoint.ExitRestoresExactlyWhen | deploy/backup-hub.py:69-97 | an exit after the pause took effect leaves the original configuration exactly when the pause's reply was not lost and the resume took effect, then or later; success always does |
| Checkpoint.LostPauseReplyLeavesCapturePaused | deploy/backup-hub.py:69-97 | a run that ends with capture paused although no resume was refused |
| Cutover.EachLimitBinds | deploy/migrate-mutations.py:41-46 | a bounded queue stays bounded under a plan with another limit exactly as long as that is no lower than its own |
| Cutover.InstalledIsBoundedExactlyWhenSafe | deploy/migrate-mutations.py:40-47 | an installed plan passes the check of an existing private queue exactly when the plan is safe |
| Cutover.Hub.Interfere | deploy/migrate-mutations.py:57-58 | publishers and worker between two calls: writes leave the queue only when finished, and while only private subjects are captured it cannot grow |
| Cutover.TryToInstall | deploy/migrate-mutations.py:60-71 | the guarded block: the plan is installed only on a paused, empty queue; it throws when the read raises, when a write came in or when the update raises, and what each way out of it leaves |
| Cutover.ChangeCapture | deploy/migrate-mutations.py:54-74 | its end, from how its calls turn out and whether a write came in: one attempt to restore after a read that raised, a late write or an update that raised, none after a failed pause or an interruption; every change of limits is made on a paused, empty queue |
| Cutover.HarmlessExactlyWhenEndsAsBefore | deploy/migrate-mutations.py:54-74 | the old configuration is there in the end exactly when the pause never took effect, or one of the failures inside the block was followed by a restoring call that took effect |
| Cutover.LeftIsPreviousExactlyWhenHarmless | deploy/migrate-mutations.py:54-74 | the same by what the script reports: a first update refused rather than lost, a rollback not refused, an interruption before the pause took effect or after the rollback did |
| Cutover.NextRunFinds | deploy/migrate-mutations.py:40-49 | a run that stopped half-way leaves private capture, bounded exactly when the old limits were, or when the plan is safe where it was installed |
| Cutover.RetireLegacyConsumers | deploy/migrate-mutations.py:75-81 | only idle consumers with a public filter are deleted; after success none is left; it ends as the consumers say unless a call of it failed or was interrupted |
| Cutover.Inspect | deploy/migrate-mutations.py:22-53 | which refusal or plan is reported, or that the run goes on to the pause, from the first read's outcome and the queue it found; unsafe limits exactly when a limit is missing, not positive or above the plan's, or a setting is another |
| Cutover.Migrate | deploy/migrate-mutations.py:22-82 | however publishers act and calls turn out: the report of every branch up to the installed plan, spelled out, the configuration every end leaves, exactly when it is the old one, the plan field by field after the cutover, and that retention and limits change only while public capture is off and nothing is queued |
| Cutover.LosesThePauseReply | deploy/migrate-mutations.py:54-59 | a run whose first update loses its reply ends with public capture off |
| Cutover.InterruptedAfterThePause | deploy/migrate-mutations.py:60-74 | so does one that is interrupted at the second read |
| Cutover.RestoresAfterALateWrite | deploy/migrate-mutations.py:61-73 | a run in which a write arrives before the pause and every call succeeds ends with the old configuration |
| Cutover.RestoresAfterARefusedPlan | deploy/migrate-mutations.py:71-73 | so does one whose installing update is refused |
| Cutover.MigrateTwice | deploy/migrate-mutations.py:40-49 | whichever end short of harmless the first run came to, the second changes neither configuration nor consumers; it is content exactly when the limits it finds are bounded and its own read succeeds, and leaves busy legacy consumers |
| Snapshot.ReadersSeeTheSnapshot | examples/08-map/load_fuel.py:108-149 | after an upsert and its soft-delete the live rows are the snapshot, and no key has disappeared |
| Snapshot.ChangesExactlyTheDifference | examples/08-map/load_chargers.py:82-99 | a row changes, and is stamped now, exactly when live rows and snapshot differ under its key; all others keep `updated_at` |
| Snapshot.EachRowAfterwards | examples/08-map/load_chargers.py:82-99 | row by row: what is written, what gets a tombstone and keeps its values, what stays as it was |
| Snapshot.NoSmallerDiff | examples/08-map/load_fuel.py:20-22 | no other way to show the snapshot touches fewer rows |
| Snapshot.ReportCountsTheChanges | examples/08-map/load_fuel.py:151-155 | the report counts each changed row once: inserted are the new keys, deleted the live keys the snapshot lacks, updated the rest |
| Snapshot.AgainChangesNothing | examples/08-map/load_pois.py:73-90 | the same snapshot again changes nothing and reports zeros |
| Snapshot.RoundedIsNear | examples/08-map/load_fuel.py:60 | the stored price is within half a thousandth of the staged one, and storing it again keeps it |
| Snapshot.LoadableExactlyWhen | examples/08-map/load_fuel.py:60-61 | a load aborts exactly for a price without a date or one that rounds to a thousand or more |
| Snapshot.PricesAreCarried | examples/08-map/load_fuel.py:80-100 | a live price for every price cell and no other, dated as staged, in whole thousandths and within half of one |
| Snapshot.OutagesAreCarried | examples/08-map/load_fuel.py:101-107 | a live outage for every kind that is there and not blank and no other, with its kind and start |
| Snapshot.FuelFeed.Apply | examples/08-map/load_fuel.py:92-156 | the three tables move together or not at all; afterwards readers see the staged cells, prices as rounded by their column, and every live price and outage names a live station |
| Snapshot.FuelFeed.ApplyAll | examples/08-map/load_fuel.py:18-22 | after a sequence of loads readers see the staged cells of the last one that did not abort, and every key ever loaded is still there |
| Snapshot.StagedRowsRefer | examples/08-map/load_fuel.py:94-107 | unpivoted prices and outages name staged stations |
| Snapshot.KeepFirst | examples/08-map/load_chargers.py:189-199 | the first readable row of each key's text is kept and no other; as UUIDs the kept keys are unique exactly when the export spells every key one way |
| Snapshot.TwoSpellingsAreBothKept | examples/08-map/load_chargers.py:193-196 | a key in lower and in upper case is kept twice |
| CopyText.UnescapedUndoesEscaped | examples/08-map/load_fuel.py:227-232 | reading a field back gives every character of the value, but a space for each tab, carriage return and newline |
| CopyText.CellSurvives | examples/08-map/load_pois.py:118-122 | a cell is read back as NULL exactly when it had no value, even for the text `\N`, and otherwise character by character |
| CopyText.ScanTakesRow | examples/08-map/load_fuel.py:235 | a written line is read as one row with its fields |
| CopyText.ReadUndoesWrite | examples/08-map/load_fuel.py:226-235 | the whole file is read back: same rows, same fields, NULL exactly where there was no value, every character but a space for each tab, carriage return and newline |
| CopyText.WriteFile | examples/08-map/load_fuel.py:233-235 | the loop that writes the file produces text that is read back as its rows |
| CopyText.SpacesAre | examples/08-map/load_chargers.py:132 | the characters that stripping removes, one by one |
| CopyText.ChargerCellSurvives | examples/08-map/load_chargers.py:129-135 | a charge point's cell is NULL exactly when missing or blank, and otherwise what lies between its first and last character that is no space |
| Geohash.NextCell | examples/08-map/load_pois.py:96-103 | one more bit: the upper half exactly from the middle on |
| Geohash.Bisect | examples/08-map/load_pois.py:98-102 | comparing with the middle of the interval yields the next bit and the next cell's interval |
| Geohash.Encode | examples/08-map/load_pois.py:93-106 | the loop returns base-32 of the interleaved bits of the clamped floors, in any precision |
| Geohash.ShorterHashIsAPrefix | examples/08-map/load_pois.py:93-106 | a shorter hash of a point is a prefix of a longer one |
| Geohash.DigitIs | examples/08-map/load_pois.py:30 | the digits are the numerals and the letters from b on without i, l and o, in this order |
| Geohash.CellsHaveTheirOwnHash | examples/08-map/provision.py:24-37 | different cells have different hashes |
| Geohash.SameHashExactlyInSameCell | examples/08-map/load_pois.py:93-106 | two points share a hash exactly when they share a cell |
| Geohash.StepMovesTheIndex | examples/08-map/provision.py:42-48 | a step of j sides moves the cell index by exactly j |
| Geohash.Grid | examples/08-map/provision.py:40-49 | the grid holds the cells of all stepped points: (2r+1)^2 distinct ones exactly when every point stays in range |
| Geohash.GridAtTheDateLineIsShort | examples/08-map/provision.py:40-49 | around longitude 180 some point always leaves the range |
| EventKeys.FieldsAdd | examples/09-event/mqtt_gateway.py:39 | joining bit fields that do not overlap is adding them |
| EventKeys.KeyIsItsFields | examples/09-event/mqtt_gateway.py:36-40 | a key is its milliseconds, version, variant and random bits, each in its place |
| EventKeys.KeyCarriesItsMilliseconds | examples/09-event/event_service.py:46 | extracting the time of a key gives back its millisecond, modulo 2^48 |
| EventKeys.BoundaryIsASmallestKey | examples/09-event/event_service.py:50-61 | the boundary's text is the number of the smallest key of its leading twelve digits |
| EventKeys.KeyFilterIsTimeFilter | examples/09-event/event_service.py:54-61 | filtering on the key is filtering on the time for every key exactly when the moment is below 2^48 ms |
| EventKeys.FilterPastTheLastMillisecond | examples/09-event/event_service.py:60-61 | at 281474976710.656 s a key from the millisecond before passes the filter |
| EventKeys.WindowHoldsWholeBuckets | examples/09-event/event_service.py:156-160 | the moving average's window is the readings from `since` on whose bucket is complete |
| EventKeys.Newest | examples/09-event/event_service.py:134-135 | the largest key carries the largest time |
| DateLine.NormalIsTheSamePlace | examples/10-airports/airport_service.py:62 | normalising a longitude keeps its place on the circle |
| DateLine.BoxAroundIsTheCircularDistance | examples/10-airports/airport_service.py:62-73 | the box admits a longitude exactly when it is within the half-width on the circle, but for one name of a date line the box only touches |
| DateLine.BoxIsRightExactlyWhen | examples/10-airports/airport_service.py:62-73 | so it is right about all longitudes exactly when it does not stop at the date line |
| DateLine.EastwardBoxMissesTheDateLine | examples/10-airports/airport_service.py:72-73 | ten degrees around 170 leave out -180 |
| DateLine.OnlyOneSideCrosses | examples/10-airports/airport_service.py:68-71 | the two wrapping cases exclude each other |
| DateLine.ViewIsTheWayEast | examples/10-airports/airport_service.py:34-37 | with both sides in [-180, 180] a view admits what lies on the way east from its west to its east side, but for the other name of a date line at the edge of a view that does not wrap |
| DateLine.ViewIsRightExactlyWhen | examples/10-airports/airport_service.py:34-37 | for any two sides, the exact condition under which a view admits just the longitudes on the way east from its west to its east side |
| DateLine.UnwrappedViewMissesAStrip | examples/10-airports/airport_service.py:34-37 | a view from -190 to -170 leaves out 175 |
| Memberships.InsertMissing | scripts/reprovision.py:177-183 | the missing canonical memberships go in, one state at a time, revoking nobody |
| Memberships.DeleteExtras | scripts/reprovision.py:184-189 | the extra memberships of fixture principals go out; in no state on the way has anyone who had a membership lost the last one |
| Memberships.InsertSweeper | scripts/reprovision.py:190-193 | the sweeper joins every tenant it sweeps |
| Memberships.Reset | scripts/reprovision.py:168-193 | the final table row by row: the fixture principals' own tenants, what the others had, the sweeper in every tenant it sweeps; the count of changes; every intermediate state leaves everyone who had a membership with one; a dry run changes nothing |
| Memberships.EachFixtureHasItsTenant | scripts/reprovision.py:56-57 | afterwards a fixture principal is in exactly its own tenant |
| Memberships.SecondRunChangesNothing | scripts/reprovision.py:168-193 | a second run reports and changes nothing |

## Left out

- The bridge, libzb and the TypeScript core; NATS, PostgreSQL, DuckDB and S3 themselves; subprocesses, arguments and printing.
- Floating-point rounding and the trigonometry of the great-circle distance; the latitude/longitude boxes that filter before it, and the row limits of the queries.
- Plane.SegmentDistanceIsTheMinimum: states squared distances in degrees, without the square root and the 111,320 m per degree, both increasing.
- Corridor.BetweenNeighboursIsKept: for the flat plane, where right angles and Pythagoras are; the sphere's correction is left out.
- Corridor.BesideTheWayIsKept: for the flat plane, in the same way.
- Corridor.KeptAtAVertexExactlyWhen: for the flat plane, and about the two anchors next to the vertex only.
- Corridor.MidwayIsWhereTheCorridorNarrows: for the flat plane, and about the two anchors at the ends of the stretch only.
- Checkpoint.StepKeepsInv: the script is a relation between states, not a method, and the contents of copied files, their modes and checksums are not modelled.
- Cutover.Migrate: the plan is taken as complete (a missing key raises in the code); other configuration changes during the run are excluded, as its operator instructions demand.
- Snapshot.FuelFeed.Apply: aborts only for a price without a date or too large for its column; malformed numbers or dates, which PostgreSQL refuses too, and duplicate keys are not modelled. The parsing of the CSV and JSON exports is left out.
- Geohash.Grid: returns the set of cells; the final sort of the list is left out.
- EventKeys.KeyFilterIsTimeFilter: covers moments from 1970 on; a negative moment does not format as a UUID at all.
- Archive.Archive: the runs that end because the reader, the upload or the manifest's revision failed publish what was committed before; the retention check, waiting and batching are left out.
- The responder's split of its count into archived and hot, which reads the boundary outside the lock; the alignment of DuckDB's time buckets and window frames.
- The thinning of crowded airport views, the other steps of the reset script, and the load generators and demo programs.
