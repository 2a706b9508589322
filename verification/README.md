# Verified models of the ingest feeds and the fair-value estimator

This project models, in Dafny 4.11, four parts of a trading venue's off-chain
stack and proves properties of them for all inputs and all runs. `dafny verify
dfyconfig.toml` checks everything.

- **The ingestion protocol.** A poll source drains a newest-first, capped and
  still-growing ledger oldest-first, in two phases (enumerate back to the cursor,
  then hydrate) behind a pager. `Ledger` is the RPC as a function of ledger, window
  and limit; `PollMachine`, `PollTheorems` and `PollDrain` are the source as a
  transition system over positions, with arrivals and failures as environment steps;
  `Backfill` and
  `RpcPoll` are the pager and the source as classes that refine it. `Decode` and
  `Pipeline` carry the records through decoding, the insert-if-absent tables and the
  stored cursor under crashes at any point; `Runner` is the drive loop and the sink.
  `Completeness` says exactly when nothing below the cursor is missing. `Takes`,
  `Fold` and `Aggregate` are the watermarked fold into takes and rollups; `Reingest`
  joins it to the decoder and `FoldedLedger` to the ledger.
- **The calendar.** `Calendar` holds the two era algorithms with Rust's truncating
  division written out, against a day-by-day count under the 4/100/400 rule.
  `CivilText` is the printer and the parser.
- **The fair-value estimator.** `Consensus`, `ConsensusLaws` and `Resolve` are the
  multi-source resolver; `Fusion`, `FusionLaws`, `FusionRuns` and `FusionFilter` the
  recursive filter and its absorption clocks; `Basis` the gated moving average,
  over the laws of `Products`;
  `Config` the validated configuration; `Engine`, `EngineLaws` and
  `FairValueEngine` the regime composition. `ConsensusSpec`, `FusionSpec` and
  `EngineSpec` tell in full what each of the three must come to, by counting and
  plain arithmetic, and prove that on every input it does. `Readings` holds one reading.
- **Two smaller protocols.** `RateGate` is the request gate clones share;
  `Liveness` and `LivenessReporter` the edge-triggered reporter over a bounded
  channel.

Code that changes state in the source is a class here, each method equated with a
pure function of its old state; the theorems are about those functions and their
runs.

## Where the code and its own words differ

- The poll source promises that no record is left behind its cursor. It holds for a
  page exactly under the tip condition (`EmitsExactlyBelowCursor`), and
  `OneArrivalSkipsARecord` is a run that breaks it. The code re-checks only that the
  recorded newest signature is in the reply; the variant that also checks the lower
  end (`checksLowerEnd`) keeps the promise on every run.
- `RpcPollSource::new` says it starts from the present. With no cursor the walk has
  no lower bound, so it begins at position zero: `NewSourceReadsHistory` is a run
  that emits a success older than the source. `CanEmitIffAtOrAbove` gives the exact
  condition: an entry there at construction can be emitted if and only if it lies at
  or above the resume point, so a source starts from the present exactly when it is
  resumed at the tip.
- The fold says that a watermark landing in the middle of a take, and a replayed
  slot, converge to the same row. The ordinal precedes the signature in the
  watermark's order, so when a pass has taken one transaction of a slot and another
  comes in later with no leg above the watermark, that other is never folded
  (`TakeNeverFolded`). `FoldConverges` gives the exact
  condition, and `ChainConverges` says when ingesting a ledger meets it.
- `parse_civil_utc` reports an out-of-range field as not a real date, yet accepts
  30 February and a 60th second and yields the instant they roll over to
  (`ThirtiethOfFebruaryIsAccepted`, `SecondSixtyIsAccepted`). It accepts every set
  of fields in range (`EveryStampInRangeReads`), and what it accepts prints as it was
  read if and only if it is a real date and time (`AcceptedReadsBack`).

## Model

| member | source | states |
|---|---|---|
| `PollTheorems.EmitsExactlyBelowCursor` | feeds/src/rpc.rs:349-445 | over every run of arrivals, page errors, transaction errors and polls: what was emitted is one record for each success at the covered positions, with its own signature, index zero and its own body, in order and with nothing else; all lie below the cursor, and are the whole stretch from the resume point to it if and only if every page committed met the tip condition in the state it was fetched in |
| `PollTheorems.GuardedTells` | feeds/src/rpc.rs:387-445 | the history the machine carries tells exactly whether every page committed met the tip condition when it was fetched |
| `PollTheorems.RepairedEmitsExactlyBelowCursor` | feeds/src/rpc.rs:331-344 | with a check that the reply still reaches the page's lower end, what was emitted is one record, its own, for each success below the cursor, for every run and with no condition |
| `PollTheorems.RecordsAreTheSuccesses` | feeds/src/rpc.rs:349-370 | the records of any positions are one for each success among them, in order: signature, index zero and body, written out |
| `PollTheorems.TipConditionIsEnough` | feeds/src/rpc.rs:331-344 | a tip page of m records with k arrivals since is either reproduced whole or the walk restarts with the cursor where it was, when m + k is at most the page limit or k is at least it |
| `PollTheorems.TipPageLoss` | feeds/src/rpc.rs:331-344 | in every other case the page is still emitted and exactly its m + k - limit oldest records are passed over |
| `PollTheorems.OneArrivalSkipsARecord` | feeds/src/rpc.rs:318-344 | the smallest such run: pages of two, one arrival between enumeration and emission, and the older of two records is never emitted though the cursor passes it |
| `PollTheorems.EmitsEachOnce` | feeds/src/rpc.rs:387-445 | no run of one process life emits a signature twice |
| `PollTheorems.ClosedPagesReproduce` | feeds/src/rpc.rs:318-344 | a page below the tip comes back exactly as it was enumerated, whatever has arrived since |
| `PollTheorems.CursorMovesBetweenRestarts` | feeds/src/rpc.rs:389-442 | between two restarts caused by an unreproducible page the cursor strictly advances, under any arrivals and failures |
| `PollTheorems.NoRestartWhileStuck` | feeds/src/rpc.rs:389-442 | the walk after a restart cannot restart again before the cursor moves |
| `PollTheorems.StuckUntilTheCursorMoves` | feeds/src/rpc.rs:373-376 | from a restart on, either the cursor has moved or the restart is still the last thing that happened to the walk |
| `PollTheorems.WalkTerminates` | feeds/src/rpc.rs:126-173 | under unbounded arrivals each page call short of the bound consumes exactly one page limit of positions, so the backward walk ends |
| `PollTheorems.RunKeeps` | feeds/src/rpc.rs:387-445 | every run keeps the invariant, never lowers the cursor and never rewrites the ledger |
| `PollTheorems.AnythingMayHappen` | feeds/src/rpc.rs:126-173 | at any moment entries may arrive, any page call may fail, and so may the call for any transaction not passed over |
| `PollTheorems.CursorIsTheLastReturned` | feeds/src/rpc.rs:424-442 | after any run the source's cursor is that of the last batch it returned with one, or the one it began with |
| `PollTheorems.CaughtUpTells` | feeds/src/rpc.rs:387-445 | a batch says caught-up exactly when the walk has reached its bound and every page it found has been emitted, and the cursor is then at the newest record the walk saw |
| `PollDrain.DrainsFromTheStart` | feeds/src/rpc.rs:387-445 | from any resume point over a ledger that then stands still a finite run of successful calls reaches caught-up, and has emitted one record, its own, for each success from there to the tip |
| `PollDrain.CanEmitIffAtOrAbove` | feeds/src/rpc.rs:270-303 | a success in the ledger when a life began can be emitted by it if and only if its position is at or above the resume point |
| `PollDrain.NewSourceReadsHistory` | feeds/src/rpc.rs:270-303 | a source given no cursor, under its default limits, emits a success older than itself in its first poll and reports caught-up in its second |
| `PollMachine.StepKeeps` | feeds/src/rpc.rs:126-173 | each arrival, call, failure, commit, restart and return keeps the invariant tying the queued pages, the walk's mark, the cursor, the emitted log and the hydration in progress together |
| `PollMachine.CommitCovers` | feeds/src/rpc.rs:424-442 | the covered positions stay one contiguous stretch exactly when the page committed starts at the old cursor |
| `Ledger.ReplyFrom` | feeds/src/rpc.rs:829-875 | a page call's reply lies inside the window between the two signatures, and stops short of its lower end only at the page limit |
| `Ledger.PageIsNewest` | feeds/src/rpc.rs:829-875 | a reply is the newest `limit` entries of that window, newest first, or all of a shorter one |
| `Paging.Backfill.Extend` | feeds/src/backfill.rs:106-109 | enumerated keys are appended and the bound is remembered once reached |
| `Paging.Backfill.Step` | feeds/src/backfill.rs:117-130 | no page is released before the walk reaches its bound, then the oldest pending one is, and asking again gives the same answer |
| `Paging.Backfill.Commit` | feeds/src/backfill.rs:135-137 | exactly the oldest pending page is retired |
| `Paging.Backfill.Restart` | feeds/src/backfill.rs:149-152 | the queue is dropped and the bound forgotten |
| `RpcPoll.RpcPollSource.constructor` | feeds/src/rpc.rs:286-303 | the page limit is clamped to 1..1000, the page budget is 16, and the source is the poll machine resumed at position zero of the ledger, with no steps taken |
| `RpcPoll.RpcPollSource.WithMaxPagesPerPoll` | feeds/src/rpc.rs:306-309 | the page budget of one poll is at least one, and nothing else changes, on a fresh source or one that has polled |
| `RpcPoll.RpcPollSource.ResumeFrom` | feeds/src/rpc.rs:312-316 | the cursor becomes the stored one, whatever it is; between walks, with a signature the ledger holds, the source is the machine resumed just above it |
| `RpcPoll.RpcPollSource.EnumeratePages` | feeds/src/rpc.rs:126-173 | one segment of the backward walk, call by call, is a run of the poll machine's walk steps, with the keys, resume mark and bound it reports |
| `RpcPoll.RpcPollSource.FetchPage` | feeds/src/rpc.rs:331-344 | re-requesting a page is the machine's fetch step: trimmed to the recorded newest, absent when that is no longer in the reply |
| `RpcPoll.RpcPollSource.Hydrate` | feeds/src/rpc.rs:349-370 | a page becomes its records oldest first, failed entries passed over, as a run of the machine's hydration steps; a failed call returns with the page still queued and the cursor where it was |
| `RpcPoll.RpcPollSource.EmitPage` | feeds/src/rpc.rs:411-442 | the cursor moves to the page's recorded newest only with the page's records in the batch |
| `RpcPoll.RpcPollSource.Next` | feeds/src/rpc.rs:387-445 | one poll is a run of the machine from one idle state to the next, and the returned batch, or error, is the one outcome it logged |
| `RpcPoll.RpcPollSource.ReturnedSoFar` | feeds/src/rpc.rs:349-445 | all a source has returned so far is its own record for each success at the positions it has covered, in order |
| `Pipeline.StepKeeps` | feeds/src/runner.rs:113-169 | polling, handing over, committing rows, saving the cursor, and a crash between any two of them keep the pipeline invariant |
| `Pipeline.CrashAnywhere` | feeds/src/store.rs:110-120 | any run may crash at any point; the next life begins with nothing in hand at the stored cursor, over the tables as they are |
| `Pipeline.CrashSafety` | feeds/src/store.rs:110-120 | over every run with crashes anywhere: the stored cursor never passes the source's; the tables are always the starting ones plus the events of the positions written, none below the start; and when every page committed in any process life met the tip condition they are exactly those of the ledger up to a position at or above the stored cursor |
| `Pipeline.SoundTells` | feeds/src/store.rs:110-120 | the history the pipeline carries tells exactly whether every page committed in any process life met the tip condition when it was fetched |
| `Pipeline.NothingBelowTheCursorIsMissing` | feeds/src/store.rs:110-120 | every event of every successful transaction below the stored cursor is in its table with its own content, or under the row that stood at its key before the feed began |
| `Completeness.CompleteIffSavesAreWhole` | feeds/src/store.rs:110-120 | over every run with crashes anywhere, every position below the stored cursor has been written if and only if no batch was saved over a position that no batch, of that or an earlier process life, had written; where every page committed met the tip condition none was |
| `Completeness.StoredIffWritten` | indexer/src/store.rs:227-283 | an event the feed did not find in the tables is there exactly when its position was written, and then as itself |
| `Completeness.NothingIsMissing` | feeds/src/store.rs:110-120 | over every run an event below the stored cursor is in the tables exactly when its position was written, and always where every saved batch was whole |
| `Completeness.TipMakesSavesWhole` | feeds/src/rpc.rs:331-344 | where every page committed met the tip condition, every batch saved is whole |
| `Pipeline.ReplayLeavesTheSameTables` | feeds/src/rpc.rs:311-316 | two runs over one history that wrote as far as each other leave equal tables, however each crashed and replayed |
| `Pipeline.CrashFreeRowsMeetTheCursor` | feeds/src/store.rs:110-120 | without a crash the written rows end exactly at the stored cursor, or at that of the batch about to be saved |
| `Runner.StoreSink.Handle` | feeds/src/store.rs:110-120 | rows are committed before the cursor is saved, and either call may fail with or without having taken effect: an error leaves nothing, the rows, or the rows and the cursor, never the cursor without the rows |
| `Runner.RunUntil` | feeds/src/runner.rs:113-169 | over any number of turns the stored cursor is the source's and the tables hold exactly what was emitted; a source error changes neither; a sink error ends the run with the cursor and rows of every batch before, and of the last one nothing, its rows, or its rows and its cursor |
| `Decode.DecodeExact` | indexer/src/decode.rs:44-105 | an event is decoded exactly when some blob whose program index names the trusted program is the eight-byte tag followed by a payload of at least eight bytes that the codec reads as it; its key is the transaction's place and the number of tagged blobs before, no two events share one, and they come in that order |
| `Decode.KeysDependOnTheTransactionAlone` | indexer/src/decode.rs:44-105 | for any two codecs and any two trusted programs, two rows have the same key if and only if they come from the same blob |
| `Decode.NarrowWithinWide` | indexer/src/decode.rs:44-105 | a codec that reads more yields every row of the narrower one, unchanged |
| `Decode.WriteBatch` | indexer/src/store.rs:209-221 | the tables after a batch are those of its decoded events written in order, and the count is of the rows that were new |
| `Decode.WriteEventsConcat` | indexer/src/store.rs:227-283 | writing one list and then another is writing their concatenation |
| `Decode.WriteEventsAgain` | indexer/src/store.rs:227-283 | writing what is already stored changes nothing |
| `Decode.WriteEventsContent` | indexer/src/store.rs:227-283 | for any list of events, at each key a write leaves the stored row, or an event given for that key and table, or nothing, and says which |
| `Decode.ReingestUnderWiderCodec` | indexer/src/decode.rs:44-105 | re-ingesting any list of transactions, replays included, under a codec that reads more leaves the tables the wider codec alone would have made: stored rows stand and nothing is stored twice |
| `Reingest.NoEventCountsTwice` | indexer/src/store.rs:227-283 | after such a re-ingest the fill table is row for row the wider codec's, and the takes folded from it total the legs, base, quote and fees of those rows once each |
| `Reingest.WritesList` | indexer/src/store.rs:227-283 | the key-value tables of the writer and the ordered table of the fold hold the same fills after any list of events |
| `Takes.LessTotal` | indexer/queries/fills_after.sql:4-8 | the watermark order decides between any two distinct keys |
| `Takes.LessTransitive` | indexer/queries/fills_after.sql:4-8 | the watermark order is transitive |
| `Takes.LegsPresent` | indexer/queries/legs_for.sql:1-6 | the legs found for a take are exactly the fills of its signature and index |
| `Takes.GroupTakes` | indexer/src/aggregate.rs:21-58 | one pass of bucketing yields exactly one take per group of fills, folded from that group's legs in order |
| `Takes.FoldConserves` | indexer/src/aggregate.rs:21-58 | leg counts, base, quote and fees summed over the takes are those summed over the fills |
| `Takes.AveragePriceIs` | indexer/src/aggregate.rs:40-44 | a take's price times its base is its quote, and it has a price exactly when it moved base |
| `Takes.AllTakesAreTold` | indexer/src/aggregate.rs:21-58 | there is one take for each transaction with a row, and it says its market, taker, side, slot and time as its first leg does, and counts and sums its legs |
| `Fold.AboveMovesOn` | indexer/queries/fills_after.sql:4-8 | taking the first n rows above a mark and moving the mark to the last of them skips no row and repeats none |
| `Fold.AboveTheTaken` | indexer/queries/fills_after.sql:4-8 | what lies above the last row taken is, row for row, what was not taken |
| `Fold.UpsertIsReplace` | indexer/queries/take_upsert.sql:1-25 | the columns an upsert leaves alone never differ from the recomputed take's |
| `Fold.StepKeeps` | indexer/src/aggregate.rs:65-98 | inserts, each step of a pass, and a crash after any of them keep the fold invariant |
| `Fold.QuietStateIsFolded` | indexer/src/aggregate.rs:65-98 | once a pass finds nothing new, the takes table is the grouping of every fill but those of transactions that arrived wholly behind the watermark, and every rollup is current |
| `Fold.FoldConverges` | indexer/src/aggregate.rs:1-6 | over any run, at such a point the takes table equals the grouping of all fills if and only if every transaction had a leg above the watermark when it was inserted; each take is that of its legs, and each rollup is over exactly its market's takes |
| `FoldedLedger.ChainConverges` | indexer/src/aggregate.rs:1-6 | over what a feed that skips nothing ingests, batch by batch, with any replays and with passes stopped or failing anywhere, no transaction is inserted behind the watermark if slots rise across the boundary each batch begins at; once a pass then finds nothing new the takes are the grouping of every fill ingested |
| `FoldedLedger.InsertIsEnabled` | indexer/src/store.rs:227-283 | from between passes the legs of the next entry, or of one replayed, can always be inserted |
| `Fold.WholePass` | indexer/src/aggregate.rs:65-98 | wherever rows lie ahead a whole pass can be made, and what then lies ahead is exactly what it did not take |
| `Fold.PassesCatchUp` | indexer/src/aggregate.rs:65-98 | from any state between passes, one pass for every `limit` rows ahead, rounded up, finds nothing new, and with nothing missed has folded every take |
| `Fold.EmptyIsFolded` | indexer/src/aggregate.rs:65-98 | an empty warehouse satisfies the invariant with nothing missed, so the theorem holds of every run from it |
| `Fold.TakeNeverFolded` | indexer/queries/fills_after.sql:1-8 | a concrete run in which a later transaction of an already folded slot stays out of the takes table for good |
| `Fold.QuietStateConserves` | indexer/src/aggregate.rs:21-58 | at such a point the takes table conserves the fills' leg count, base, quote and fees |
| `Fold.RewindRepairs` | indexer/src/aggregate.rs:1-6 | moving the watermark back below every row is safe from any state between passes, and from there nothing counts as missed |
| `Fold.RefoldChangesNothing` | indexer/src/aggregate.rs:1-6 | folding again from any watermark, by whole or broken passes, changes no take and no rollup of a settled state |
| `Aggregate.OneTakePerGroup` | indexer/src/aggregate.rs:79-84 | grouping one take's own legs yields that take and nothing else |
| `Aggregate.RunOnce` | indexer/src/aggregate.rs:65-98 | one pass over a store any call to which may fail, with or without having taken effect: an error leaves a state the next pass can start from, at the old watermark or at the last row taken; success folds exactly the touched takes, refreshes exactly their markets and returns the number of rows taken |
| `Calendar.EraIsFloor` | feeds/src/time.rs:41-41 | the correction before the truncating division makes it a floor, negative years included |
| `Calendar.DaysFromCivilIs` | feeds/src/time.rs:37-48 | the era form equals whole March years plus days by the plain leap-year counts |
| `Calendar.CountsUp` | feeds/src/time.rs:37-48 | the day after any real date counts one more, over every month and year end |
| `Calendar.CountOfDateAfter` | feeds/src/time.rs:37-48 | the day number is the day-by-day count from 1970-01-01, forwards and back |
| `Calendar.YearOfEraIsRight` | feeds/src/time.rs:74-75 | the year the nested-quotient line picks is the year the day of the era falls in |
| `Calendar.DayOfItsDate` | feeds/src/time.rs:70-86 | every integer day number names a real date whose day number it is |
| `Calendar.OneDateADay` | feeds/src/time.rs:37-48 | no two real dates share a day number |
| `Calendar.DateOfItsDay` | feeds/src/time.rs:70-86 | the two algorithms are inverse on every real date |
| `Calendar.WalksTheCalendar` | feeds/src/time.rs:70-86 | the closed form equals the day-by-day walk of the calendar under the 4/100/400 rule |
| `Calendar.OnlyRealDatesReturn` | feeds/src/time.rs:37-48 | a month and day in range come back as given if and only if they are a real date; otherwise the day count has rolled into the next month |
| `CivilText.InstantOfItsStamp` | feeds/src/time.rs:90-95 | every instant, before the epoch too, has a real date and a time of day that give it back |
| `CivilText.StampReturnsIffReal` | feeds/src/time.rs:56-65 | fields in the accepted ranges come back from their instant if and only if they are a real date and a time with seconds below 60 |
| `CivilText.PaddedReads` | feeds/src/time.rs:94-94 | a number printed zero-padded is digits alone and reads back when it fits 64 bits |
| `CivilText.RenderReads` | feeds/src/time.rs:107-130 | what is printed parses back field by field |
| `CivilText.ParseUndoesFormat` | feeds/src/time.rs:90-154 | the parser undoes the printer for every instant of the years 1 to 9999 and refuses what is printed for any other |
| `CivilText.EveryStampInRangeReads` | feeds/src/time.rs:107-154 | every set of fields in range is accepted in its printed form, real date or not |
| `CivilText.ThirtiethOfFebruaryIsAccepted` | feeds/src/time.rs:131-154 | `2023-02-30 00:00:00` is accepted with the instant of `2023-03-02 00:00:00` |
| `CivilText.SecondSixtyIsAccepted` | feeds/src/time.rs:131-154 | `2023-02-28 11:59:60` is accepted with the instant of `2023-02-28 12:00:00` |
| `CivilText.AcceptedReadsBack` | feeds/src/time.rs:107-154 | an accepted text's instant prints as its own fields if and only if they are a real date and time |
| `CivilText.AcceptedIff` | feeds/src/time.rs:131-154 | a text is accepted exactly when its fields read and lie in the six ranges, and its instant is then their days and seconds |
| `CivilText.FullTextReads` | feeds/src/time.rs:107-130 | a full text reads, field by field, exactly when each of the six is a number |
| `CivilText.NumberIs` | feeds/src/time.rs:107-130 | what reads as a number is one optional sign and a run of digits, within 64 bits |
| `CivilText.SignedReads` | feeds/src/time.rs:107-130 | and every such text reads as its number |
| `CivilText.BareDateIsMidnight` | feeds/src/time.rs:97-130 | a date alone is accepted as its midnight |
| `CivilText.NoSecondsIsZero` | feeds/src/time.rs:97-130 | a time without seconds is at second zero |
| `CivilText.AcceptedFits` | feeds/src/time.rs:131-154 | for every accepted text the result lies in [-62135596800, 253402300800] and every intermediate value fits 64 bits |
| `ConsensusLaws.OfferOrderIsIrrelevant` | fair-value/src/consensus.rs:359-541 | permuting the offers changes no value, age, confidence, state, count, dispersion or anchoring |
| `ConsensusLaws.ReferencesBesideATape` | fair-value/src/consensus.rs:335-396 | reference fixes offered anywhere beside a healthy tape change nothing the leg reports but the list handed to fusion |
| `ConsensusLaws.FirstEightAreSeated` | fair-value/src/consensus.rs:263-294 | a leg seats the first eight sources that answered, in the order offered |
| `ConsensusLaws.PushedReferenceChangesNothing` | fair-value/src/consensus.rs:284-294 | pushing a reference after a healthy tape changes nothing the leg reports, full or not |
| `ConsensusLaws.MajorityHoldsTheValue` | fair-value/src/consensus.rs:459-541 | with three or more judged, an interval holding a strict majority of them, and the designated one if any, holds the resolved value |
| `ConsensusLaws.AnchorIs` | fair-value/src/consensus.rs:470-503 | the one designated source anchors unless the set is dispersed, has three or more members and every other is strictly nearer the median |
| `ConsensusLaws.OutlierIsTheSuspect` | fair-value/src/consensus.rs:877-906 | the source named by a dispersion is the partner of a pair's designated member, else one no other is further than, the untrusted one on a tie |
| `ConsensusLaws.AttributionIsExact` | fair-value/src/consensus.rs:388-541 | contributors are named if and only if there is a value, weights sum to 1, the weighted values sum to the value, no credited age exceeds the leg's; and exactly when a leg has no value |
| `ConsensusLaws.ResolvedIsFresh` | fair-value/src/consensus.rs:359-541 | a resolved reading is positive and younger than the bound of the class that was judged |
| `ConsensusLaws.LoneTrustedIs` | fair-value/src/consensus.rs:861-870 | the lone designation is the only designated source of the set |
| `ConsensusLaws.FurthestIsFurthest` | fair-value/src/consensus.rs:891-906 | no source is further, nor equally far and untrusted where the named one is designated |
| `ConsensusSpec.ResolutionIsTold` | fair-value/src/consensus.rs:359-541 | for whatever is offered, by counting over the set of judged sources: the healthy list, the state (dispersed exactly when some two are further apart than the fraction of the median, else corroborated or agreed), the reading (the designated source's unless contradicted, else the median, oldest age and widest confidence, else none) and the outlier |
| `ConsensusSpec.AgreeingPairIsTheMean` | fair-value/src/consensus.rs:429-541 | two judged sources with no single designation give their mean, or disperse and give nothing when further apart than the fraction of it |
| `ConsensusSpec.OneMedian` | fair-value/src/consensus.rs:429-441 | the ranks that define the median pick out one number |
| `Consensus.Ranked` | fair-value/src/consensus.rs:431-441 | the ranking is a permutation of the healthy set |
| `Consensus.RankedRises` | fair-value/src/consensus.rs:431-441 | the ranking is in order of value |
| `Resolve.FindLoneTrusted` | fair-value/src/consensus.rs:861-870 | the loop that gives up at a second designation finds the lone one |
| `Resolve.Summarize` | fair-value/src/consensus.rs:910-924 | the running maxima are the oldest age and the widest confidence |
| `Resolve.Resolve` | fair-value/src/consensus.rs:359-541 | the two fills, the ranked copy and the arms compute the resolution the laws are about |
| `FusionLaws.BatchIsFold` | fair-value/src/fusion.rs:887-920 | the batch information form equals folding one Kalman gain update per fusible measurement, and posterior precision is the prior's plus the sum of theirs |
| `FusionLaws.FoldInAnyOrder` | fair-value/src/fusion.rs:877-887 | folding the same measurements in any other order ends in the same estimate and variance |
| `FusionLaws.GainUpdateIs` | fair-value/src/fusion.rs:877-920 | one gain update adds precisions and precision-weighted means |
| `FusionLaws.SharesSumToOne` | fair-value/src/fusion.rs:1069-1088 | contribution weights and the prior's share of the posterior precision sum to 1; on a seed and on a re-seed the weights alone do |
| `FusionLaws.AttributionListsAll` | fair-value/src/fusion.rs:1049-1088 | every measured reading is listed, at weight zero exactly when it was trimmed or already absorbed |
| `FusionLaws.LoneSeedPassesThrough` | fair-value/src/fusion.rs:839-872 | a lone first measurement becomes the estimate at its own variance |
| `FusionLaws.UpdateKeepsSound` | fair-value/src/fusion.rs:685-750 | every update leaves a positive estimate with a positive variance, or a filter never seeded |
| `FusionLaws.TracksTheConsensus` | fair-value/src/fusion.rs:685-750 | after every update that is not carried the estimate is positive and within the wider of the band and the predicted re-seed gate of the fast consensus |
| `FusionLaws.AdmittedWithin` | fair-value/src/fusion.rs:1025-1033 | a reading the trim admits lies within the band of the fast consensus |
| `FusionLaws.GateIsSigmasOrFloor` | fair-value/src/fusion.rs:829-837 | comparing squares decides the re-seed gate as comparing with the wider of so many standard deviations and the floor does |
| `FusionLaws.ReadingsAgeLikeTheEstimate` | fair-value/src/fusion.rs:782-823 | a reading's variance grows with its age by exactly the drift the estimate's own grows by |
| `FusionLaws.ConfidenceOutranksClass` | fair-value/src/fusion.rs:788-800 | a published confidence stands in for the class noise whatever the class; without one the noisier class has the wider variance |
| `FusionSpec.UpdateIsTold` | fair-value/src/fusion.rs:685-750 | every update from a sound state, in plain arithmetic: the prediction; the measurements of the first eight, their variances, trim and throttle; and the arm: carried when nothing is taken in, seeded with no estimate, re-seeded exactly past the gate, else fused by one Kalman update for each measurement taken in; with the clocks and the shares |
| `FusionSpec.ReseedsPastTheGate` | fair-value/src/fusion.rs:729-750 | with a prior and something to take in, an update re-seeds if and only if the fast consensus is off the prior by more than both so many standard deviations of the prediction and the floor, and otherwise fuses |
| `Readings.UncertainIsWide` | fair-value/src/reading.rs:78-83 | a reading is uncertain exactly when it publishes a half-width past the fraction of its value |
| `FusionRuns.AbsorbedOncePerInterval` | fair-value/src/fusion.rs:644-665 | over any run with at most eight reference names, two committed absorptions of one reference are at least the publication interval of elapsed time apart |
| `FusionRuns.ClockTells` | fair-value/src/fusion.rs:550-616 | the clock kept for a source is the time since the run last absorbed it |
| `FusionRuns.ClocksAreReferences` | fair-value/src/fusion.rs:618-651 | every clock belongs to a reference, one each, so a tape never occupies a slot, with or without eviction |
| `FusionRuns.CarriedVariance` | fair-value/src/fusion.rs:755-764 | across carried ticks the estimate stands and its variance is the last committed one plus (drift x estimate) squared times the time elapsed |
| `FusionRuns.AfterIsSound` | fair-value/src/fusion.rs:685-750 | every filter a run reaches has a positive estimate and variance, or was never seeded |
| `Fusion.MeasurementVariance` | fair-value/src/fusion.rs:782-823 | a variance is given only to a usable reading and is positive |
| `FusionFilter.FusionFilter.Mark` | fair-value/src/fusion.rs:593-616 | marking restarts the source's own clock, else takes a free slot, else the stalest |
| `FusionFilter.FusionFilter.Prepare` | fair-value/src/fusion.rs:698-721 | the fill takes the first eight candidates, skips the unmeasurable and counts the fusible |
| `FusionFilter.FusionFilter.Update` | fair-value/src/fusion.rs:685-750 | the in-place update leaves the state and report of the pure update |
| `FusionFilter.FusionFilter.Seed` | fair-value/src/fusion.rs:849-872 | seeding writes the mean, variance and clocks of the pure seed |
| `FusionFilter.FusionFilter.Fuse` | fair-value/src/fusion.rs:887-920 | fusing writes the mean, variance and clocks of the batch update |
| `FusionFilter.FusionFilter.Reseed` | fair-value/src/fusion.rs:929-956 | re-seeding adopts the fast consensus at the variance the measurements support, and marks them absorbed |
| `FusionFilter.Accumulate` | fair-value/src/fusion.rs:1037-1047 | the loop adds exactly the fusible measurements' precision and pull |
| `Basis.BasisEma.Update` | fair-value/src/basis.rs:146-171 | the in-place update leaves the estimate and outcome of the pure offer |
| `Basis.OfferIs` | fair-value/src/basis.rs:146-171 | what an offer does in full: seeds, refuses past the allowance, or moves the estimate the capped decay of the way |
| `Basis.StaysInTheHull` | fair-value/src/basis.rs:146-171 | over every run the estimate stays within any interval holding the seed and all that was folded |
| `Basis.FoldIsBounded` | fair-value/src/basis.rs:146-216 | a fold moves the estimate by at most the capped weight of the allowance, and leaves at least the rest of the way to go, so no print replaces it |
| `Basis.RefusalEnds` | fair-value/src/basis.rs:185-216 | an observation within ten base allowances is folded by the first tick ten half-lives after the last fold |
| `Basis.GateWidens` | fair-value/src/basis.rs:207-216 | the allowance never narrows with age, is the base up to one half-life and at most ten times it |
| `Basis.AllowanceIsLinear` | fair-value/src/basis.rs:207-216 | the allowance is the base up to one half-life, ten times it from ten on, and in proportion to the half-lives elapsed in between |
| `Basis.CadenceIsIrrelevant` | fair-value/src/basis.rs:23-26 | for an observation within the base allowance, two offers land where one over the joined gap does if and only if the cap does not bind over that gap or there is no move to make |
| `Config.ValidateIsExact` | fair-value/src/config.rs:186-241 | the ordered tests accept exactly the configurations the engine can rely on |
| `EngineLaws.RunKeeps` | fair-value/src/engine.rs:515-573 | over every run both filters are sound, the basis is positive, a pinned engine holds none, and its clock is the time since the last fold |
| `EngineLaws.EveryTickIsCoherent` | fair-value/src/engine.rs:578-785 | over every run: a mid is positive and absent only when paused; an unpinned FX-anchored one is the product of the FX leg and a basis aged exactly the time since the last fold and within its bound; a pinned one is the product of FX and the pin and never the crypto leg |
| `EngineLaws.SeedIsInBand` | fair-value/src/engine.rs:659-682 | the observation that first gives an engine its basis lies in the sane band |
| `EngineLaws.BasisStaysInTheHull` | fair-value/src/engine.rs:653-725 | over every engine run the basis stays within any interval holding, for each folding tick, the number that takes its FX leg to its crypto leg; an unpinned FX-anchored mid is the product of the FX leg and that basis |
| `EngineLaws.RefusalEnds` | fair-value/src/engine.rs:659-697 | over every engine run, a stretch that begins with a basis standing and ends, ten half-lives or more after the last fold before it, on two live legs implying a basis within ten base allowances has a tick that folded |
| `EngineLaws.BreachesAreRaised` | fair-value/src/engine.rs:602-662 | an out-of-band observation raises the breach whether or not it folded, and the peg breach is raised exactly when a healthy peg reading is off its band or the peg sources disagree, in every regime |
| `EngineLaws.HealthIsEarned` | fair-value/src/engine.rs:697-725 | full health means an observation folded this tick on two legs neither lone and unchecked nor dispersed, or the session's closed window on such a crypto leg |
| `EngineLaws.RegimeTellsWhy` | fair-value/src/engine.rs:653-785 | over every run each regime and degrade implies its own cause in the legs, the basis left behind and the peg |
| `EngineLaws.UncertainIsTheAnchors` | fair-value/src/engine.rs:640-727 | over every run a mid is flagged uncertain exactly when it is FX-anchored and the priced reading's published half-width is too wide |
| `EngineLaws.PinIgnoresCrypto` | fair-value/src/engine.rs:537-541 | a pinned engine composes the same whatever its crypto reference was offered |
| `EngineLaws.PricedLegTracks` | fair-value/src/engine.rs:878-895 | the priced leg is present exactly when the consensus is, at its age and confidence, positive and within the band or gate of it |
| `EngineLaws.ComposedKeeps` | fair-value/src/engine.rs:515-573 | one tick from a sound state keeps it sound and makes every claim of the run theorems for that tick |
| `EngineSpec.EveryTickIsTold` | fair-value/src/engine.rs:515-785 | every tick of every run, in plain arithmetic: the legs and their filters; the basis folded, refused or standing; the mid as FX times the pin, FX times a basis within its age, the crypto leg, the static peg or nothing; the regime, the health and both breaches exactly |
| `FairValueEngine.FairValueEngine.Compose` | fair-value/src/engine.rs:515-573 | the in-place composition over two filters, a moving average and a clock leaves the state and value of the pure one |
| `FairValueEngine.FairValueEngine.ComposeResolved` | fair-value/src/engine.rs:578-785 | each arm of the walk, with the basis and its clock changed only where both legs are live |
| `RateGate.HttpClient.Claim` | feeds/src/http.rs:469-479 | a claim takes the later of now and the shared gate, and moves the gate past it by this clone's interval |
| `RateGate.HttpClient.HoldOff` | feeds/src/http.rs:485-495 | a cooldown moves the shared gate out and never in |
| `RateGate.GateIsLatestBound` | feeds/src/http.rs:469-495 | over every interleaving of clones the gate is the latest bound set so far, and one of them |
| `RateGate.SlotIsLeast` | feeds/src/http.rs:469-495 | a slot is the least instant no earlier than its own clock, any cooldown recorded before, and any earlier slot plus its caller's interval |
| `RateGate.SlotsAreSpaced` | feeds/src/http.rs:469-479 | two slots are at least the earlier caller's interval apart |
| `RateGate.WindowHolds` | feeds/src/http.rs:446-479 | with intervals of at least d > 0, a window of length w holds at most floor(w / d) + 1 slots |
| `RateGate.RetryAfterReads` | feeds/src/http.rs:636-645 | delta-seconds (section 10.2.3 of RFC 9110), with leading zeros, a plus sign and blanks around them allowed, are read as stated and held to 300 seconds; a number past 64 bits is not read |
| `RateGate.OnlySecondsAreRead` | feeds/src/http.rs:636-645 | a header that is read holds such a number, within 64 bits, and blanks around it, and nothing else |
| `RateGate.Cooldown` | feeds/src/http.rs:538-541 | no header holds a client off longer than 300 seconds |
| `RateGate.CooldownIs` | feeds/src/http.rs:538-541 | a 429 holds the client off a minute with no header or one that cannot be read, and else for the seconds stated, up to five minutes |
| `Liveness.RunKeeps` | feeds/src/liveness.rs:208-233 | over every run: accepted records are a subsequence of the transitions set, each at most once with its original stamp; delivered holds exactly when the last accepted is the latest; dropped counts the refusals since the last accept; warnings are a minute apart and closure is said once |
| `Liveness.OfferKeeps` | feeds/src/damped.rs:97-162 | one offer, accepted, refused or closed, keeps the drop count and the damping |
| `Liveness.OfferIsTold` | feeds/src/damped.rs:97-162 | an offer is taken exactly when the channel is open with room, and says recovered exactly when refusals were warned of; a refusal by a closed channel is said once, one by a full channel when first or hundredth and a minute after the last warning |
| `Liveness.DropLeavesUpIff` | feeds/src/liveness.rs:262-276 | exactly when the consumer is left with an Up as its last record after the producer ends |
| `Liveness.DropSays` | feeds/src/liveness.rs:262-276 | a producer that ends on an Up the consumer has sets one last transition, down, with its reason |
| `Liveness.DropWithRoomLeavesDown` | feeds/src/liveness.rs:262-276 | with two free slots on an open channel it never is, over every run |
| `Liveness.ReassertDelivers` | feeds/src/liveness.rs:204-233 | a refused transition goes out as it was set on the first reassert that finds room |
| `LivenessReporter.DampedSender.Send` | feeds/src/damped.rs:97-162 | the in-place offer leaves the counters, lines, channel and answer of the pure one |
| `LivenessReporter.LivenessReporter.SetState` | feeds/src/liveness.rs:208-216 | setting a state retains it undelivered and flushes |
| `LivenessReporter.LivenessReporter.Retry` | feeds/src/liveness.rs:204-206 | a retry is a flush of the retained transition |
| `LivenessReporter.LivenessReporter.Drop` | feeds/src/liveness.rs:262-276 | ending flushes, then reports Down only over a delivered Up |

## Left out

- The Solana client, HTTP, tokio and Postgres: page calls, transaction calls, commits and saves are steps that may fail; the ledger is an append-only sequence of distinct signatures and the RPC answers from all of it, so a pooled endpoint with shallower history is not modelled.
- Base58, JSON decoding and `to_raw_tx`: an entry either yields a record or is passed over, and a payload is read by an arbitrary partial codec.
- SQL evaluation: tables are maps or sorted sequences with insert-if-absent, and a market's rollup is the set of takes it was last computed over, not its sums.
- Other sinks, metrics, sleeping and the timing of a shutdown: the drive loop runs one store sink for a number of turns; the fold runs between inserts, as its place after the store sink in the same loop makes it.
- A second process folding or inserting at the same time: one pass runs at a time.
- Ordering of the touched takes and markets within a pass, which the source takes from sorted sets: the pass is proved for every order.
- Decimal rounding, the 32-bit leg count and the conversion of the average price to a float: atoms are unbounded naturals and a price is a rational.
- Floating rounding, overflow and `exp`: values are reals, with one non-finite value where the code tests for it. The resolver's overflow arm (a non-finite median) cannot be reached in reals, and the decay of the basis weight is any number in [0, 1].
- Square roots: the re-seed gate compares squares and the age term of a variance is linear in age.
- Saturation of durations and counters: times are unbounded naturals of nanoseconds.
- Configurations with non-finite fields, which `validate` also rejects.
- RpcPoll.RpcPollSource.ResumeFrom: a cursor the node does not hold, and a call in the middle of a walk, are promised only the cursor they write, because the machine's positions say nothing of such a source; the indexer calls it once, before polling, with a cursor it saved from the same node.
- Pipeline.NothingBelowTheCursorIsMissing: assumes distinct signatures, because two transactions under one signature could share a key.
- FusionRuns.AbsorbedOncePerInterval: assumes at most eight reference names over the life of a filter, because past that the table evicts a clock and the source documents the loss; `ClocksAreReferences` needs no such bound.
- ConsensusLaws.AttributionIsExact: assumes distinct source names within a leg, because an attribution by name means nothing otherwise; so do the other laws that name or count sources.
- FusionLaws.TracksTheConsensus: bounds the distance by any number that covers the band and the gate, in place of a maximum with a square root.
- Fold.FoldConverges: inserts are of one new transaction's legs at once, or of legs already stored, which is what ingesting under one codec produces.
- Reingest.NoEventCountsTwice: speaks of the takes a fold of the whole table gives; when a take already folded comes to show legs a wider codec adds to it behind the watermark is not modelled.
- Redaction and sanitising of error text, and the wording of log lines: a reason is any text and a log line is its kind and count.
- Response-body caps, headers, redirects and the request itself: the gate and the reading of `Retry-After` are the modelled part of the HTTP client.
- Other feeds, venues and streams, the programs, the schema, the market-data roster, the bots and every user interface.
