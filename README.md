# Stale-session auto-sign-out, modelled in Dafny

The job runs once a day. It closes tutoring sessions that were left open for eight hours or more, and it makes sure every open session has a `last_sign_out` field.

It runs over two collections, in order: first every record of `students`, then every record of `tutors`. For each collection it does the following:

- It pages through the records whose `time_out` is `null`. Pages are in ascending document-id order, 1000 records at a time. Each page resumes strictly after the last record of the previous page.
- It reads the clock once per non-empty page.
- It decides each record of the page in one of three ways:
  - **force-close:** `time_out := now` and `last_sign_out := "auto"`;
  - **backfill:** `last_sign_out := null`;
  - **no write.**
- It stages the resulting merge-writes in a batch. The batch is committed whenever it holds 450 writes, and whatever is left is flushed at the end of the page.
- It stops on an empty page or on a page shorter than 1000.

The model has six modules:

- `Wrappers` holds `Option`.
- `Timestamps` holds the stored-value union and the normalizer: `IsTimestampLike` and `ToMillis`.
- `SessionRecords` holds the per-record decision `Decide`, the merge patch and `Settle` (decide, then apply).
- `DocumentKeys` holds the lexicographic order on document ids in which the store sorts them.
- `SessionStore` is an in-memory document store:
  - a `Firestore` class whose `collections` field the methods update;
  - a ghost log of committed batches;
  - `Scan`, the keyset-paginated query;
  - `Commit`, the atomic batch.
- `Reconciliation` holds the job itself: the inner loop (`StageRecord`, `ProcessPage`), the pagination loop (`NextPage`, `VisitPage`, `ProcessCollection`), the daily entry point (`AutoSignOutDaily`) and the lemmas about whole runs.

The central specification function is `Reconciliation.Target(c, nowOf, parse)`. It gives collection `c` after every record in `nowOf` has been decided and merge-written with its own page's instant `nowOf[k]`. `ProcessCollection` is proved to leave the store exactly in that state, with these facts about the run:

- `nowOf` covers exactly the records the query matched when the run began.
- The pages are consecutive, ascending runs of those records, and every page but the last is full.
- Every record of page `i` was decided with the `i`-th clock reading.
- The commit log holds exactly each page's writes, batched as the batch limit demands.

The whole-run lemmas then say what `Target` does to each record. They also show:

- no record is written twice;
- closed records and other collections are untouched;
- a second pass with the same instants writes nothing.

`Date.parse` is the parameter `parse: string -> Option<int>`, where `None` stands for NaN. `Timestamp.now()` is the parameter `readings: nat -> int`: `readings(n)` is what the clock returns the `n`-th time it is read.

The query filter `time_out == null` is modelled as the store evaluates it. It matches a record whose `time_out` field holds `null`, and not a record that lacks the field. So a record with no `time_out` field is never visited by the job, although `Decide` alone would treat it as open.

## Model

| member | source | states |
|---|---|---|
| Timestamps.IsTimestampLike | functions/src/jobs/autoSignOut.ts:12-19 | only an object can be timestamp-like, and only when its `toMillis` member is a function; `null`, strings, numbers and booleans never are |
| Timestamps.ToMillis | functions/src/jobs/autoSignOut.ts:21-31 | only objects and strings normalize; an object that is neither timestamp-like nor a `Date` gives no value |
| Timestamps.ToMillisCases | functions/src/jobs/autoSignOut.ts:12-31 | the full case table: a timestamp-like object gives its own `toMillis()`; otherwise a `Date` gives `getTime()`; a string gives `Date.parse`; anything else gives null |
| Timestamps.ToMillisNoneIff | functions/src/jobs/autoSignOut.ts:21-31 | the result is null exactly for an unparseable string or a value that is none of timestamp-like, `Date` or string |
| Timestamps.ToMillisOfTimestamp | functions/src/jobs/autoSignOut.ts:21-22 | the timestamp written as `time_out` normalizes back to its milliseconds |
| Timestamps.TimestampLikeWinsOverDate | functions/src/jobs/autoSignOut.ts:12-23 | a callable `toMillis` takes precedence over `Date`-ness; a non-callable `toMillis` member does not make a value timestamp-like |
| SessionRecords.Decide | functions/src/jobs/autoSignOut.ts:60-91 | force-close exactly when `time_in` normalizes, `time_out` is nullish and at least eight hours have passed; backfill exactly when not force-closing and `last_sign_out` is absent; otherwise no write |
| SessionRecords.IsStale | functions/src/jobs/autoSignOut.ts:74-75 | a record that is due for closing has a `time_in` field and a nullish `time_out` |
| SessionRecords.StaleStaysStale | functions/src/jobs/autoSignOut.ts:74-75 | a record due for closing at one instant is due at every later instant |
| SessionRecords.Merge | functions/src/jobs/autoSignOut.ts:78-85 | a merge-write sets the named fields and keeps every other field |
| SessionRecords.PatchFields | functions/src/jobs/autoSignOut.ts:70-88 | the merge patch is empty exactly when there is no write; it names no field but `time_out` and `last_sign_out`; it names `time_out` exactly when force-closing; every write sets `last_sign_out` |
| SessionRecords.UnreadableTimeInOnlyBackfills | functions/src/jobs/autoSignOut.ts:68-72 | an unnormalizable `time_in` never force-closes; it backfills exactly when `last_sign_out` is absent, and `time_out` is never written |
| SessionRecords.StaleRecordIsClosed | functions/src/jobs/autoSignOut.ts:74-86 | an open record eight hours old or older is force-closed with `time_out = now` and `last_sign_out = "auto"`, whether or not `last_sign_out` existed |
| SessionRecords.EightHourBoundary | functions/src/jobs/autoSignOut.ts:74-75 | exactly eight hours is closed; one millisecond less is not |
| SessionRecords.FreshRecordIsKept | functions/src/jobs/autoSignOut.ts:87-90 | a record younger than eight hours is backfilled only when `last_sign_out` is absent; otherwise it gets no write; its `time_out` is kept |
| SessionRecords.ClosedRecordKeepsTimeOut | functions/src/jobs/autoSignOut.ts:74-90 | a record with a non-null `time_out` is never force-closed; its `time_out` is kept, and it is left as it was when it has `last_sign_out` |
| SessionRecords.SettleKeepsOtherFields | functions/src/jobs/autoSignOut.ts:68-91 | applying the decision keeps every field and changes none but `time_out` and `last_sign_out` |
| SessionRecords.SettleIsIdempotent | functions/src/jobs/autoSignOut.ts:60-91 | re-deciding a settled record with the same instant gives no write, so settling twice is settling once |
| DocumentKeys.LessIrreflexive | functions/src/jobs/autoSignOut.ts:43 | no document id precedes itself in the id order |
| DocumentKeys.LessTransitive | functions/src/jobs/autoSignOut.ts:43 | the id order is transitive |
| DocumentKeys.LessTotal | functions/src/jobs/autoSignOut.ts:43 | any two distinct ids are ordered |
| DocumentKeys.LessAsymmetric | functions/src/jobs/autoSignOut.ts:43 | the id order is asymmetric |
| DocumentKeys.AscendingConcat | functions/src/jobs/autoSignOut.ts:43-46 | two ascending runs, the first wholly before the second, form one ascending run |
| DocumentKeys.AscendingIsDistinct | functions/src/jobs/autoSignOut.ts:43 | an ascending run of ids holds no id twice |
| DocumentKeys.PrefixComesFirst | functions/src/jobs/autoSignOut.ts:43 | an id that is a proper prefix of another sorts before it |
| SessionStore.MinKey | functions/src/jobs/autoSignOut.ts:43 | returns the least id of a non-empty set of ids |
| SessionStore.MatchesOpen | functions/src/jobs/autoSignOut.ts:42 | a record the `time_out == null` filter matches has a nullish `time_out`; a record without a `time_out` field is never matched |
| SessionStore.Firestore.Scan | functions/src/jobs/autoSignOut.ts:40-48 | the page holds at most `limit` records, each matching `time_out == null` and after the cursor, with current data, in strictly ascending id order; any matching record after the cursor that is left out comes after the whole page, and then the page is full |
| SessionStore.Firestore.Commit | functions/src/jobs/autoSignOut.ts:95-103 | the batch's writes all take effect, in staging order, and the batch is appended to the commit log |
| SessionStore.ApplyWritesElsewhere | functions/src/jobs/autoSignOut.ts:95-103 | applying writes keeps every collection present and leaves a collection that no write names exactly as it was |
| Reconciliation.ReconcileOneMore | functions/src/jobs/autoSignOut.ts:68-91 | applying one record's merge-write, or none when there is no write, to the store reconciled so far gives the store reconciled with that record included |
| Reconciliation.StagingReconciles | functions/src/jobs/autoSignOut.ts:68-91 | staging a record's write, or nothing, on top of an open batch that completes the reconciled store gives a batch that completes the store reconciled with that record too |
| Reconciliation.CommitIfFull | functions/src/jobs/autoSignOut.ts:94-98 | a batch that has reached 450 writes is committed, appended to the log and replaced by an empty one; a smaller batch stays open and nothing is committed; the store with the open batch applied is unchanged, and the committed and open writes together are the staged ones |
| Reconciliation.StageRecord | functions/src/jobs/autoSignOut.ts:57-101 | one iteration of the inner loop: the store changes only by the batches committed; staged plus committed writes grow by exactly the record's own write; the store plus the open batch equals the store reconciled with the record; any commit holds exactly 450 writes; afterwards the count is below 450 |
| Reconciliation.StageNext | functions/src/jobs/autoSignOut.ts:57-101 | one pass of the inner loop keeps its invariant: the store plus the open batch is reconciled with the records so far, each stamped with the page's instant; the full commits and the open batch are exactly the page's writes so far, in order, and the log holds the commits |
| Reconciliation.FlushRemainder | functions/src/jobs/autoSignOut.ts:103 | a non-empty remaining batch is committed and appended to the log, an empty one is not; the page's commits stay non-empty and at most 450, all but the last exactly 450 |
| Reconciliation.ProcessPage | functions/src/jobs/autoSignOut.ts:51-103 | the whole page is decided with one instant; the page's commits are each non-empty and at most 450, all but the flush exactly 450; together they are the page's writes in order, one per record needing one; the store is reconciled with the page; the cursor is the page's last id |
| Reconciliation.UpToAdvance | functions/src/jobs/autoSignOut.ts:100 | moving the cursor to a page's last id adds exactly the page's ids to those at or before the cursor; a page holding everything after the old cursor leaves nothing after the new one |
| Reconciliation.ScanFromStart | functions/src/jobs/autoSignOut.ts:40-48 | the query over the partly reconciled store returns the first open records after the cursor of the collection as the run found it, with their original data, none visited before |
| Reconciliation.VisitedSnoc | functions/src/jobs/autoSignOut.ts:46-100 | a page of the first open ids after the cursor adds exactly its ids to the visited ones, keeps them ascending across pages and strictly shrinks the set left to visit |
| Reconciliation.NextPage | functions/src/jobs/autoSignOut.ts:40-48 | the next page, read against the original collection: at most 1000 ascending, unvisited open records after the cursor; any open record after the cursor that the page leaves out comes after it, and then the page is full |
| Reconciliation.VisitPage | functions/src/jobs/autoSignOut.ts:38-106 | one pass of the outer loop keeps the run's progress invariant; an empty page or a short page ends the loop with every open record visited; a full page adds one page and strictly shrinks what is left |
| Reconciliation.FullPagesKept | functions/src/jobs/autoSignOut.ts:105 | a run that goes on past a page only after a full page has every page but its last full |
| Reconciliation.ProcessCollection | functions/src/jobs/autoSignOut.ts:33-107 | afterwards the store is the original with exactly the originally open records of the collection settled; each record is visited once, in ascending id order, page by page; every page but the last holds 1000 records; page `i` uses the `i`-th clock reading; the log holds each page's well-sized commits of exactly that page's writes |
| Reconciliation.PageWritesTargetPage | functions/src/jobs/autoSignOut.ts:57-101 | a page's writes go to its collection and its own records, at most one per record, in ascending id order |
| Reconciliation.AscendingSplit | functions/src/jobs/autoSignOut.ts:43-46 | both halves of an ascending run of ids ascend, and the first lies wholly before the second |
| Reconciliation.WritesAppendAscend | functions/src/jobs/autoSignOut.ts:46-100 | writes to a collection's stretch of ids followed by writes to a later stretch target that collection and those ids, and ascend as a whole |
| Reconciliation.CommitsAscend | functions/src/jobs/autoSignOut.ts:33-107 | pages of ascending ids, each committing writes only to its own records and in ascending order, together commit writes only to the pages' records and in ascending order |
| Reconciliation.RunWritesAscend | functions/src/jobs/autoSignOut.ts:33-107 | across a whole run every committed write targets the collection and a visited record, and the written ids strictly ascend in commit order, so no record is written twice |
| Reconciliation.RunOutcome | functions/src/jobs/autoSignOut.ts:57-101 | per record after a run: unvisited is unchanged; visited and stale is closed at its page's instant and tagged "auto"; otherwise it keeps `time_out`, is untouched when it had `last_sign_out`, and gets `last_sign_out = null` when it had not; every other field is kept |
| Reconciliation.ClosedRecordsUntouched | functions/src/jobs/autoSignOut.ts:42-88 | a record the query does not match, and every other collection, is left exactly as it was |
| Reconciliation.RerunIsNoOp | functions/src/jobs/autoSignOut.ts:60-91 | re-deciding every visited record with its instant finds nothing to write, so a second pass with those instants changes nothing |
| Reconciliation.VisitedRecordsStaySettled | functions/src/jobs/autoSignOut.ts:63-90 | at any later instant a visited record is never backfilled again, and a record the run closed no longer matches the query |
| Reconciliation.ReconciledElsewhere | functions/src/jobs/autoSignOut.ts:109-112 | reconciling one collection leaves every other collection as it was |
| Reconciliation.AutoSignOutDaily | functions/src/jobs/autoSignOut.ts:109-112 | students are reconciled in full, then tutors: the final store is tutors-over-students reconciled; each collection's visited records are exactly those open at the start; tutors' pages use clock readings after all the students' pages; every student commit precedes every tutor commit |

## Left out

- The Firestore SDK and `firebase-admin` plumbing are replaced by the in-memory `Firestore` class. This covers `initializeApp`, the query builder, `doc.ref` and `doc.data()`. The class answers the query and applies batches with the meaning the job relies on.
- The `onSchedule("every 24 hours")` trigger is scheduling infrastructure and is not modelled. `async`/`await` is modelled as plain sequencing. Runs that overlap, or writes by other clients during a run, are not modelled; the store changes only through the job's own commits.
- `Date.parse` and `Number.isNaN` are a foreign call and a floating-point test. They are the parameter `parse`.
- `Timestamp.now()` is the parameter `readings`; the helper `Reading` names one reading, and the clock's use is stated in the `ProcessCollection` row. A `Timestamp` has sub-millisecond precision; only its milliseconds are modelled, which is all the decision uses.
- JavaScript numbers are modelled as unbounded integers. Fractional milliseconds and values beyond 2^53 are not represented.
- The store's id order is modelled as plain lexicographic order on characters. The store's special ordering of numeric ids and of UTF-8 byte order is not modelled.
- Failures are not modelled: `Scan` and `Commit` always succeed. In the source, `q.get()` (line 48) and `batch.commit()` (lines 95 and 103) can reject. A rejection aborts `processCollection`, and with it the whole job (line 110): the remaining pages and the `tutors` collection are skipped, while the batches committed before it stay in the store.
- A NaN from `getTime()` of an invalid `Date` (line 23), or from a `toMillis()` that returns NaN, is not represented: the model has only integer milliseconds. The decision would come out the same. NaN fails both `== null` and `>=`, so such a record is backfilled exactly when `last_sign_out` is missing and is never force-closed, which is what the model does for a `time_in` with no value.
- Email sending, the test endpoint, history-entry closing and notification queueing are not part of the code modelled here, and are not modelled.
- Reconciliation.AutoSignOutDaily: the ascending-order and full-page facts for each collection are not restated; they are in the ensures of each `ProcessCollection` call.
