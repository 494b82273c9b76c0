/**
 * The reconciliation job itself: page through the open records of a
 * collection in ascending id order, decide each one, stage merge-writes in
 * batches of bounded size, and run it for students, then tutors.
 */
module Reconciliation {
  import opened Wrappers
  import opened Timestamps
  import opened SessionRecords
  import opened DocumentKeys
  import opened SessionStore

  /** Records fetched per query. */
  const PageSize: nat := 1000

  /** Staged writes per commit, kept below the store's ceiling of 500. */
  const BatchLimit: nat := 450

  /** The records of a collection that the job's query matches. */
  ghost function OpenKeys(c: map<Key, Doc>): set<Key> {
    set k | k in c && MatchesOpen(c[k])
  }

  /**
   * Collection `c` once each record in `nowOf` has been decided and
   * written with its own instant `nowOf[k]`; every other record is as it was.
   */
  ghost function Target(c: map<Key, Doc>, nowOf: map<Key, int>, parse: string -> Option<int>): map<Key, Doc> {
    map k | k in c :: if k in nowOf then Settle(c[k], nowOf[k], parse) else c[k]
  }

  /** The whole store once collection `name` has been reconciled as `nowOf` says. */
  ghost function Reconciled(cols: Collections, name: string, nowOf: map<Key, int>,
                            parse: string -> Option<int>): Collections {
    if name in cols then cols[name := Target(cols[name], nowOf, parse)] else cols
  }

  /** A sequence of sequences laid end to end. */
  function Flatten<T>(xss: seq<seq<T>>): seq<T>
    decreases |xss|
  {
    if xss == [] then [] else xss[0] + Flatten(xss[1..])
  }

  /**
   * The commits of one page: none is empty, none exceeds the batch limit,
   * and every one but the page-end flush holds exactly the batch limit.
   */
  ghost predicate WellSizedCommits(commits: seq<seq<Write>>) {
    forall j :: 0 <= j < |commits| ==>
      0 < |commits[j]| <= BatchLimit && (j < |commits| - 1 ==> |commits[j]| == BatchLimit)
  }

  lemma {:induction false} FlattenAppend<T>(xss: seq<seq<T>>, yss: seq<seq<T>>)
    ensures Flatten(xss + yss) == Flatten(xss) + Flatten(yss)
    decreases |xss|
  {
    if xss == [] {
      assert xss + yss == yss;
    } else {
      assert (xss + yss)[1..] == xss[1..] + yss;
      FlattenAppend(xss[1..], yss);
    }
  }

  lemma FlattenSnoc<T>(xss: seq<seq<T>>, xs: seq<T>)
    ensures Flatten(xss + [xs]) == Flatten(xss) + xs
  {
    FlattenAppend(xss, [xs]);
    assert Flatten([xs]) == xs + Flatten([]);
  }

  lemma WriteIdsAppend(a: seq<Write>, b: seq<Write>)
    ensures WriteIds(a + b) == WriteIds(a) + WriteIds(b)
  {
  }

  lemma ConcatRegroup<T>(f: seq<T>, batch: seq<T>, mine: seq<T>, c: seq<T>, batch': seq<T>)
    requires c + batch' == batch + mine
    ensures (f + batch) + mine == (f + c) + batch'
  {
    calc {
      (f + batch) + mine;
      f + (batch + mine);
      f + (c + batch');
      (f + c) + batch';
    }
  }

  lemma AscendingExtend(ks: seq<Key>, more: seq<Key>, k: Key)
    requires StrictlyAscending(ks)
    requires forall i :: 0 <= i < |ks| ==> Less(ks[i], k)
    requires more == [] || more == [k]
    ensures StrictlyAscending(ks + more)
  {
  }

  /** `m` with every key of `ks` mapped to the instant `t`. */
  ghost function Stamp(m: map<Key, int>, ks: seq<Key>, t: int): map<Key, int>
    decreases |ks|
  {
    if ks == [] then m else Stamp(m, ks[..|ks| - 1], t)[ks[|ks| - 1] := t]
  }

  lemma {:induction false} StampFacts(m: map<Key, int>, ks: seq<Key>, t: int)
    ensures forall k :: k in Stamp(m, ks, t) <==> k in m || k in ks
    ensures forall k :: k in ks ==> Stamp(m, ks, t)[k] == t
    ensures forall k :: k in m && k !in ks ==> Stamp(m, ks, t)[k] == m[k]
    decreases |ks|
  {
    if ks != [] {
      var init := ks[..|ks| - 1];
      StampFacts(m, init, t);
      assert ks == init + [ks[|ks| - 1]];
    }
  }

  lemma StampSnoc(m: map<Key, int>, ks: seq<Key>, i: nat, t: int)
    requires i < |ks|
    ensures Stamp(m, ks[..i + 1], t) == Stamp(m, ks[..i], t)[ks[i] := t]
  {
    assert ks[..i + 1][..i] == ks[..i];
  }

  lemma AscendingFresh(ids: seq<Key>, i: nat)
    requires StrictlyAscending(ids) && i < |ids|
    ensures ids[i] !in ids[..i]
  {
    forall j | 0 <= j < i
      ensures ids[j] != ids[i]
    {
      AscendingIsDistinct(ids, j, i);
    }
  }

  lemma AppendAssoc<T>(a: seq<T>, b: seq<T>, c: seq<T>)
    ensures (a + b) + c == a + (b + c)
  {
  }

  lemma FullCommitsAppend(cs: seq<seq<Write>>, more: seq<seq<Write>>)
    requires forall j :: 0 <= j < |cs| ==> |cs[j]| == BatchLimit
    requires forall j :: 0 <= j < |more| ==> |more[j]| == BatchLimit
    ensures forall j :: 0 <= j < |cs + more| ==> |(cs + more)[j]| == BatchLimit
  {
  }

  lemma FlushKeepsWellSized(cs: seq<seq<Write>>, last: seq<Write>)
    requires forall j :: 0 <= j < |cs| ==> |cs[j]| == BatchLimit
    requires 0 < |last| <= BatchLimit
    ensures WellSizedCommits(cs + [last])
  {
  }

  lemma FullCommitsWellSized(cs: seq<seq<Write>>)
    requires forall j :: 0 <= j < |cs| ==> |cs[j]| == BatchLimit
    ensures WellSizedCommits(cs)
  {
  }

  lemma ApplyWritesSnoc(cols: Collections, ws: seq<Write>, w: Write)
    ensures ApplyWrites(cols, ws + [w]) == ApplyWrite(ApplyWrites(cols, ws), w)
  {
    assert (ws + [w])[..|ws|] == ws;
  }

  /**
   * Deciding one more record `k` of collection `name` with instant `now`
   * and applying its merge-write (if any) to the reconciled store gives the
   * store reconciled with `k` included.
   */
  lemma ReconcileOneMore(cols: Collections, name: string, nowOf: map<Key, int>, k: Key, now: int,
                         parse: string -> Option<int>)
    requires name in cols && k in cols[name] && k !in nowOf
    ensures Decide(cols[name][k], now, parse) == NoWrite ==>
      Reconciled(cols, name, nowOf[k := now], parse) == Reconciled(cols, name, nowOf, parse)
    ensures Decide(cols[name][k], now, parse) != NoWrite ==>
      ApplyWrite(Reconciled(cols, name, nowOf, parse),
                 Write(name, k, Patch(Decide(cols[name][k], now, parse), now)))
      == Reconciled(cols, name, nowOf[k := now], parse)
  {
    var c := cols[name];
    var t := Target(c, nowOf, parse);
    var t' := Target(c, nowOf[k := now], parse);
    assert t' == t[k := Settle(c[k], now, parse)];
    if Decide(c[k], now, parse) == NoWrite {
      assert Settle(c[k], now, parse) == c[k];
      assert t' == t;
    }
  }

  /** The merge-write staged for a record decided as `a`, if any. */
  function StagedFor(name: string, id: Key, a: Action, now: int): seq<Write> {
    if a == NoWrite then [] else [Write(name, id, Patch(a, now))]
  }

  /** The merge-writes one page stages, in page order: each record's own write, if it needs one. */
  function PageWrites(name: string, page: seq<DocSnap>, now: int, parse: string -> Option<int>): seq<Write>
    decreases |page|
  {
    if page == [] then []
    else
      var last := page[|page| - 1];
      PageWrites(name, page[..|page| - 1], now, parse) + StagedFor(name, last.id, Decide(last.data, now, parse), now)
  }

  lemma PageWritesSnoc(name: string, page: seq<DocSnap>, i: nat, now: int, parse: string -> Option<int>)
    requires i < |page|
    ensures PageWrites(name, page[..i + 1], now, parse) ==
      PageWrites(name, page[..i], now, parse) + StagedFor(name, page[i].id, Decide(page[i].data, now, parse), now)
  {
    assert page[..i + 1][..i] == page[..i];
  }

  /**
   * Staging one record's merge-write, if it needs one, on top of a batch
   * that brings the store to the reconciled state brings it to the state
   * reconciled with that record added.
   */
  lemma StagingReconciles(cols: Collections, batch: seq<Write>, name: string, doc: DocSnap, now: int,
                          parse: string -> Option<int>, cols0: Collections, nowOf: map<Key, int>)
    requires ApplyWrites(cols, batch) == Reconciled(cols0, name, nowOf, parse)
    requires name in cols0 && doc.id in cols0[name] && cols0[name][doc.id] == doc.data && doc.id !in nowOf
    ensures ApplyWrites(cols, batch + StagedFor(name, doc.id, Decide(doc.data, now, parse), now)) ==
      Reconciled(cols0, name, nowOf[doc.id := now], parse)
  {
    var action := Decide(doc.data, now, parse);
    ReconcileOneMore(cols0, name, nowOf, doc.id, now, parse);
    if action != NoWrite {
      ApplyWritesSnoc(cols, batch, Write(name, doc.id, Patch(action, now)));
    } else {
      assert batch + [] == batch;
    }
  }

  /**
   * Commit in chunks: a batch that has reached the batch limit is
   * committed and a fresh, empty one takes its place; a smaller batch is
   * kept open. Either way the store with the open batch applied is what it
   * was, and the committed batches and the open one are the writes staged.
   */
  method CommitIfFull(db: Firestore, batch: seq<Write>, ops: nat)
    returns (batch': seq<Write>, ops': nat, ghost committed: seq<seq<Write>>)
    requires ops == |batch| <= BatchLimit
    modifies db
    ensures ops' == |batch'| < BatchLimit
    ensures ops < BatchLimit ==> committed == [] && batch' == batch
    ensures ops == BatchLimit ==> committed == [batch] && batch' == []
    ensures db.collections == ApplyWrites(old(db.collections), Flatten(committed))
    ensures ApplyWrites(db.collections, batch') == ApplyWrites(old(db.collections), batch)
    ensures db.log == old(db.log) + committed
    ensures Flatten(committed) + batch' == batch
  {
    batch', ops', committed := batch, ops, [];
    if ops >= BatchLimit {
      db.Commit(batch);
      committed := [batch];
      assert Flatten(committed) == batch by { FlattenSnoc([], batch); }
      batch', ops' := [], 0;
    } else {
      assert Flatten(committed) == [];
    }
  }

  /**
   * The body of the inner loop for one record: decide it with the page's
   * instant, stage its merge-write if it needs one, and commit the batch
   * when the count reaches the batch limit. The staged-and-committed writes
   * grow by exactly the record's own write, and the store, once the batch
   * is applied, is the one reconciled with this record added.
   */
  method StageRecord(db: Firestore, name: string, doc: DocSnap, nowMs: int, parse: string -> Option<int>,
                     batch: seq<Write>, ops: nat, ghost cols0: Collections, ghost nowOf: map<Key, int>)
    returns (batch': seq<Write>, ops': nat, ghost committed: seq<seq<Write>>)
    requires ops == |batch| < BatchLimit
    requires ApplyWrites(db.collections, batch) == Reconciled(cols0, name, nowOf, parse)
    requires name in cols0 && doc.id in cols0[name] && cols0[name][doc.id] == doc.data && doc.id !in nowOf
    modifies db
    ensures ops' == |batch'| < BatchLimit
    ensures db.collections == ApplyWrites(old(db.collections), Flatten(committed))
    ensures ApplyWrites(db.collections, batch') == Reconciled(cols0, name, nowOf[doc.id := nowMs], parse)
    ensures db.log == old(db.log) + committed
    ensures forall j :: 0 <= j < |committed| ==> |committed[j]| == BatchLimit
    ensures Flatten(committed) + batch' == batch + StagedFor(name, doc.id, Decide(doc.data, nowMs, parse), nowMs)
  {
    var action := Decide(doc.data, nowMs, parse);
    StagingReconciles(db.collections, batch, name, doc, nowMs, parse, cols0, nowOf);
    var staged, count := batch, ops;
    if action != NoWrite {
      staged, count := batch + [Write(name, doc.id, Patch(action, nowMs))], ops + 1;
    }
    assert staged == batch + StagedFor(name, doc.id, action, nowMs);
    batch', ops', committed := CommitIfFull(db, staged, count);
  }

  /**
   * The page-end flush: a non-empty open batch is committed, an empty one
   * is not. The page's commits stay well sized and still hold, in order,
   * every write staged on the page.
   */
  method FlushRemainder(db: Firestore, batch: seq<Write>, ops: nat,
                        ghost log0: seq<seq<Write>>, ghost commits: seq<seq<Write>>)
    returns (ghost commits': seq<seq<Write>>)
    requires ops == |batch| < BatchLimit
    requires db.log == log0 + commits
    requires forall j :: 0 <= j < |commits| ==> |commits[j]| == BatchLimit
    modifies db
    ensures commits' == if ops > 0 then commits + [batch] else commits
    ensures db.collections == ApplyWrites(old(db.collections), batch)
    ensures db.log == log0 + commits'
    ensures WellSizedCommits(commits')
    ensures Flatten(commits') == Flatten(commits) + batch
  {
    if ops > 0 {
      db.Commit(batch);
      FlattenSnoc(commits, batch);
      AppendAssoc(log0, commits, [batch]);
      FlushKeepsWellSized(commits, batch);
      commits' := commits + [batch];
    } else {
      assert Flatten(commits) + [] == Flatten(commits);
      assert ApplyWrites(db.collections, []) == db.collections;
      FullCommitsWellSized(commits);
      commits' := commits;
    }
  }

  /**
   * The state of the inner loop after the first `i` records of page
   * `snap`: the open batch holds fewer writes than the batch limit and,
   * applied, brings the store to the one reconciled with those records;
   * every commit so far holds exactly the batch limit; and the commits and
   * the open batch together are the writes those records staged.
   */
  ghost predicate InPage(cols: Collections, log: seq<seq<Write>>, log0: seq<seq<Write>>, cols0: Collections,
                         name: string, snap: seq<DocSnap>, i: nat, nowMs: int, parse: string -> Option<int>,
                         nowOf0: map<Key, int>, batch: seq<Write>, ops: nat, nowOf: map<Key, int>,
                         commits: seq<seq<Write>>) {
    && i <= |snap|
    && ops == |batch| < BatchLimit
    && ApplyWrites(cols, batch) == Reconciled(cols0, name, nowOf, parse)
    && nowOf == Stamp(nowOf0, Ids(snap)[..i], nowMs)
    && log == log0 + commits
    && (forall j :: 0 <= j < |commits| ==> |commits[j]| == BatchLimit)
    && Flatten(commits) + batch == PageWrites(name, snap[..i], nowMs, parse)
  }

  /** Before the first record of a page, nothing is staged, committed or visited on it. */
  lemma InPageStart(cols: Collections, log0: seq<seq<Write>>, cols0: Collections, name: string,
                    snap: seq<DocSnap>, nowMs: int, parse: string -> Option<int>, nowOf0: map<Key, int>)
    requires cols == Reconciled(cols0, name, nowOf0, parse)
    ensures InPage(cols, log0, log0, cols0, name, snap, 0, nowMs, parse, nowOf0, [], 0, nowOf0, [])
  {
    assert Ids(snap)[..0] == [];
    assert snap[..0] == [];
    assert log0 + [] == log0;
  }

  /** After the last record of a page, the loop's state speaks of the whole page. */
  lemma InPageEnd(cols: Collections, log: seq<seq<Write>>, log0: seq<seq<Write>>, cols0: Collections,
                  name: string, snap: seq<DocSnap>, nowMs: int, parse: string -> Option<int>,
                  nowOf0: map<Key, int>, batch: seq<Write>, ops: nat, nowOf: map<Key, int>,
                  commits: seq<seq<Write>>)
    requires InPage(cols, log, log0, cols0, name, snap, |snap|, nowMs, parse, nowOf0, batch, ops, nowOf, commits)
    ensures ops == |batch| < BatchLimit
    ensures ApplyWrites(cols, batch) == Reconciled(cols0, name, nowOf, parse)
    ensures nowOf == Stamp(nowOf0, Ids(snap), nowMs)
    ensures log == log0 + commits
    ensures forall j :: 0 <= j < |commits| ==> |commits[j]| == BatchLimit
    ensures Flatten(commits) + batch == PageWrites(name, snap, nowMs, parse)
  {
    assert Ids(snap)[..|snap|] == Ids(snap);
    assert snap[..|snap|] == snap;
  }

  /** Every record of page `snap` is an unvisited record of collection `name` after the cursor, with its data. */
  ghost predicate FromCollection(snap: seq<DocSnap>, cols0: Collections, name: string, nowOf0: map<Key, int>,
                                 cursor0: Option<Key>) {
    forall k :: 0 <= k < |snap| ==>
      name in cols0 && snap[k].id in cols0[name] && cols0[name][snap[k].id] == snap[k].data &&
      snap[k].id !in nowOf0 && After(cursor0, snap[k].id)
  }

  /** One pass of the inner loop: record `i` of the page is staged, and committed with its batch if full. */
  method StageNext(db: Firestore, name: string, snap: seq<DocSnap>, i: nat, nowMs: int,
                   parse: string -> Option<int>, cursor0: Option<Key>, batch: seq<Write>, ops: nat,
                   ghost cols0: Collections, ghost nowOf0: map<Key, int>, ghost log0: seq<seq<Write>>,
                   ghost nowOf: map<Key, int>, ghost commits: seq<seq<Write>>)
    returns (batch': seq<Write>, ops': nat, ghost nowOf': map<Key, int>, ghost commits': seq<seq<Write>>)
    requires i < |snap| && StrictlyAscending(Ids(snap))
    requires FromCollection(snap, cols0, name, nowOf0, cursor0)
    requires InPage(db.collections, db.log, log0, cols0, name, snap, i, nowMs, parse, nowOf0,
                    batch, ops, nowOf, commits)
    modifies db
    ensures InPage(db.collections, db.log, log0, cols0, name, snap, i + 1, nowMs, parse, nowOf0,
                   batch', ops', nowOf', commits')
  {
    var doc := snap[i];
    AscendingFresh(Ids(snap), i);
    StampFacts(nowOf0, Ids(snap)[..i], nowMs);
    ghost var committed;
    ghost var mine := StagedFor(name, doc.id, Decide(doc.data, nowMs, parse), nowMs);
    batch', ops', committed := StageRecord(db, name, doc, nowMs, parse, batch, ops, cols0, nowOf);
    FlattenAppend(commits, committed);
    AppendAssoc(log0, commits, committed);
    FullCommitsAppend(commits, committed);
    commits' := commits + committed;
    ConcatRegroup(Flatten(commits), batch, mine, Flatten(committed), batch');
    PageWritesSnoc(name, snap, i, nowMs, parse);
    StampSnoc(nowOf0, Ids(snap), i, nowMs);
    nowOf' := nowOf[doc.id := nowMs];
  }

  /**
   * The inner loop over one page, with the page-end flush: each record is
   * decided with the page's single instant `nowMs`, at most one merge-write
   * is staged per record, and the batch is committed whenever it reaches
   * the batch limit. Afterwards the store is the one reconciled with the
   * page's records added, and the cursor is the page's last id.
   */
  method ProcessPage(db: Firestore, name: string, snap: seq<DocSnap>, nowMs: int,
                     parse: string -> Option<int>, cursor0: Option<Key>,
                     ghost cols0: Collections, ghost nowOf0: map<Key, int>)
    returns (cursor: Option<Key>, ghost nowOf: map<Key, int>, ghost commits: seq<seq<Write>>)
    requires db.collections == Reconciled(cols0, name, nowOf0, parse)
    requires StrictlyAscending(Ids(snap))
    requires FromCollection(snap, cols0, name, nowOf0, cursor0)
    modifies db
    ensures db.collections == Reconciled(cols0, name, nowOf, parse)
    ensures nowOf == Stamp(nowOf0, Ids(snap), nowMs)
    ensures db.log == old(db.log) + commits
    ensures WellSizedCommits(commits)
    ensures Flatten(commits) == PageWrites(name, snap, nowMs, parse)
    ensures cursor == if |snap| == 0 then cursor0 else Some(snap[|snap| - 1].id)
  {
    cursor := cursor0;
    nowOf := nowOf0;
    commits := [];
    var batch: seq<Write> := [];
    var ops := 0;
    InPageStart(db.collections, db.log, cols0, name, snap, nowMs, parse, nowOf0);
    for i := 0 to |snap|
      invariant InPage(db.collections, db.log, old(db.log), cols0, name, snap, i, nowMs, parse, nowOf0,
                       batch, ops, nowOf, commits)
      invariant cursor == if i == 0 then cursor0 else Some(snap[i - 1].id)
    {
      batch, ops, nowOf, commits :=
        StageNext(db, name, snap, i, nowMs, parse, cursor0, batch, ops, cols0, nowOf0, old(db.log), nowOf, commits);
      cursor := Some(snap[i].id);
    }
    InPageEnd(db.collections, db.log, old(db.log), cols0, name, snap, nowMs, parse, nowOf0,
              batch, ops, nowOf, commits);
    commits := FlushRemainder(db, batch, ops, old(db.log), commits);
  }

  /** The members of `s` at or before the cursor; with no cursor, none. */
  ghost function UpTo(s: set<Key>, cursor: Option<Key>): set<Key> {
    set k | k in s && !After(cursor, k)
  }

  /** A key at or before the cursor precedes every key after it. */
  lemma BeforeCursorAfter(cursor: Option<Key>, x: Key, y: Key)
    requires !After(cursor, x) && After(cursor, y)
    ensures Less(x, y)
  {
    LessTotal(x, cursor.value);
    if x != cursor.value {
      LessTransitive(x, cursor.value, y);
    }
  }

  /**
   * Moving the cursor from `c0` to the last id of a non-empty page that
   * holds the first matching ids after `c0` adds exactly the page's ids to
   * the ids at or before the cursor; when the page holds every matching
   * id after `c0`, nothing matching is left after the new cursor.
   */
  lemma {:induction false} UpToAdvance(s: set<Key>, c0: Option<Key>, ids: seq<Key>)
    requires |ids| > 0 && StrictlyAscending(ids)
    requires forall i :: 0 <= i < |ids| ==> ids[i] in s && After(c0, ids[i])
    requires forall k :: k in s && After(c0, k) && k !in ids ==>
      forall i :: 0 <= i < |ids| ==> Less(ids[i], k)
    ensures UpTo(s, Some(ids[|ids| - 1])) == UpTo(s, c0) + (set k | k in ids)
    ensures (forall k :: k in s && After(c0, k) ==> k in ids) ==> UpTo(s, Some(ids[|ids| - 1])) == s
  {
    var last := ids[|ids| - 1];
    forall k | k in ids
      ensures !Less(last, k)
    {
      var i :| 0 <= i < |ids| && ids[i] == k;
      if i < |ids| - 1 {
        LessAsymmetric(k, last);
      } else {
        LessIrreflexive(k);
      }
    }
    forall k | k in s && !After(c0, k)
      ensures !Less(last, k)
    {
      BeforeCursorAfter(c0, k, last);
      LessAsymmetric(k, last);
    }
    forall k | k in s && After(c0, k) && k !in ids
      ensures Less(last, k)
    {
    }
  }

  /**
   * Records the query has not reached yet are still as they were when the
   * run began: a matching record after the cursor matches in the current
   * store too, with the same data, and the other way round.
   */
  lemma UnvisitedUnchanged(cols0: Collections, name: string, nowOf: map<Key, int>, cursor: Option<Key>,
                           k: Key, parse: string -> Option<int>)
    requires forall x :: x in nowOf ==> !After(cursor, x)
    requires After(cursor, k)
    ensures k in CollectionOf(Reconciled(cols0, name, nowOf, parse), name) <==> k in CollectionOf(cols0, name)
    ensures k in CollectionOf(cols0, name) ==>
      CollectionOf(Reconciled(cols0, name, nowOf, parse), name)[k] == CollectionOf(cols0, name)[k]
  {
  }

  /** Each page's records as the run first saw them, with the writes the page committed. */
  ghost predicate PagesFaithful(pages: seq<seq<DocSnap>>, pageCommits: seq<seq<seq<Write>>>,
                                coll0: map<Key, Doc>, name: string, readings: nat -> int, t0: nat,
                                parse: string -> Option<int>) {
    && |pageCommits| == |pages|
    && forall i :: 0 <= i < |pages| ==>
      && 0 < |pages[i]| <= PageSize
      && (forall j :: 0 <= j < |pages[i]| ==> pages[i][j].id in coll0 && pages[i][j].data == coll0[pages[i][j].id])
      && WellSizedCommits(pageCommits[i])
      && Flatten(pageCommits[i]) == PageWrites(name, pages[i], Reading(readings, t0 + i), parse)
  }

  lemma IdsAppend(a: seq<DocSnap>, b: seq<DocSnap>)
    ensures Ids(a + b) == Ids(a) + Ids(b)
  {
  }

  lemma ReconciledNothing(cols: Collections, name: string, parse: string -> Option<int>)
    ensures Reconciled(cols, name, map[], parse) == cols
  {
    if name in cols {
      assert Target(cols[name], map[], parse) == cols[name];
    }
  }

  /** Every record of page `i` was settled with reading `t0 + i` of the clock. */
  ghost predicate StampedByPage(nowOf: map<Key, int>, pages: seq<seq<DocSnap>>, readings: nat -> int, t0: nat) {
    forall i, j :: 0 <= i < |pages| && 0 <= j < |pages[i]| ==>
      pages[i][j].id in nowOf && nowOf[pages[i][j].id] == Reading(readings, t0 + i)
  }

  lemma StampedByPageSnoc(nowOf: map<Key, int>, pages: seq<seq<DocSnap>>, readings: nat -> int, t0: nat,
                          snap: seq<DocSnap>, now: int, tick: nat)
    requires StampedByPage(nowOf, pages, readings, t0)
    requires forall j :: 0 <= j < |snap| ==> snap[j].id !in nowOf
    requires tick == t0 + |pages| && now == Reading(readings, tick)
    ensures StampedByPage(Stamp(nowOf, Ids(snap), now), pages + [snap], readings, t0)
  {
    StampFacts(nowOf, Ids(snap), now);
    var pages': seq<seq<DocSnap>> := pages + [snap];
    forall i, j | 0 <= i < |pages'| && 0 <= j < |pages'[i]|
      ensures pages'[i][j].id in Stamp(nowOf, Ids(snap), now)
      ensures Stamp(nowOf, Ids(snap), now)[pages'[i][j].id] == Reading(readings, t0 + i)
    {
      if i < |pages| {
        assert pages'[i] == pages[i];
        assert pages[i][j].id !in Ids(snap);
      } else {
        assert pages'[i][j].id == Ids(snap)[j];
      }
    }
  }

  lemma PagesFaithfulSnoc(pages: seq<seq<DocSnap>>, pageCommits: seq<seq<seq<Write>>>,
                          coll0: map<Key, Doc>, name: string, readings: nat -> int, t0: nat,
                          parse: string -> Option<int>, snap: seq<DocSnap>, commits: seq<seq<Write>>,
                          now: int, tick: nat)
    requires PagesFaithful(pages, pageCommits, coll0, name, readings, t0, parse)
    requires 0 < |snap| <= PageSize
    requires forall j :: 0 <= j < |snap| ==> snap[j].id in coll0 && snap[j].data == coll0[snap[j].id]
    requires WellSizedCommits(commits)
    requires tick == t0 + |pages| && now == Reading(readings, tick)
    requires Flatten(commits) == PageWrites(name, snap, now, parse)
    ensures PagesFaithful(pages + [snap], pageCommits + [commits], coll0, name, readings, t0, parse)
  {
    var pages': seq<seq<DocSnap>> := pages + [snap];
    var pageCommits': seq<seq<seq<Write>>> := pageCommits + [commits];
    forall i | 0 <= i < |pages'|
      ensures 0 < |pages'[i]| <= PageSize
      ensures forall j :: 0 <= j < |pages'[i]| ==> pages'[i][j].id in coll0 && pages'[i][j].data == coll0[pages'[i][j].id]
      ensures WellSizedCommits(pageCommits'[i])
      ensures Flatten(pageCommits'[i]) == PageWrites(name, pages'[i], Reading(readings, t0 + i), parse)
    {
      if i < |pages| {
        assert pages'[i] == pages[i] && pageCommits'[i] == pageCommits[i];
      }
    }
  }

  /**
   * What a query over the partly reconciled store returns, read against
   * the store as the run found it: records after the cursor have not been
   * touched yet, so the page holds the first open records after the cursor
   * in the original collection, with their original data.
   */
  lemma ScanFromStart(cols0: Collections, name: string, nowOf: map<Key, int>, cursor: Option<Key>,
                      parse: string -> Option<int>, snap: seq<DocSnap>)
    requires nowOf.Keys == UpTo(OpenKeys(CollectionOf(cols0, name)), cursor)
    requires forall i :: 0 <= i < |snap| ==>
      var c := CollectionOf(Reconciled(cols0, name, nowOf, parse), name);
      snap[i].id in c && snap[i].data == c[snap[i].id] && MatchesOpen(snap[i].data) && After(cursor, snap[i].id)
    requires forall k ::
      var c := CollectionOf(Reconciled(cols0, name, nowOf, parse), name);
      (k in c && MatchesOpen(c[k]) && After(cursor, k) && k !in Ids(snap)) ==>
      |snap| == PageSize && forall i :: 0 <= i < |snap| ==> Less(snap[i].id, k)
    ensures |snap| > 0 ==> name in cols0
    ensures forall i :: 0 <= i < |snap| ==>
      name in cols0 && snap[i].id in cols0[name] && cols0[name][snap[i].id] == snap[i].data &&
      snap[i].id in OpenKeys(cols0[name]) && snap[i].id !in nowOf && After(cursor, snap[i].id)
    ensures forall k :: k in OpenKeys(CollectionOf(cols0, name)) && After(cursor, k) && k !in Ids(snap) ==>
      |snap| == PageSize && forall i :: 0 <= i < |snap| ==> Less(snap[i].id, k)
  {
    forall x | x in nowOf
      ensures !After(cursor, x)
    {
      assert x in UpTo(OpenKeys(CollectionOf(cols0, name)), cursor);
    }
    forall i | 0 <= i < |snap|
      ensures name in cols0 && snap[i].id in cols0[name] && cols0[name][snap[i].id] == snap[i].data
      ensures snap[i].id !in nowOf && snap[i].id in OpenKeys(cols0[name])
    {
      UnvisitedUnchanged(cols0, name, nowOf, cursor, snap[i].id, parse);
    }
    if |snap| > 0 {
      assert snap[0].id in cols0[name];
    }
    forall k | k in OpenKeys(CollectionOf(cols0, name)) && After(cursor, k)
      ensures var c := CollectionOf(Reconciled(cols0, name, nowOf, parse), name);
        k in c && MatchesOpen(c[k])
    {
      UnvisitedUnchanged(cols0, name, nowOf, cursor, k, parse);
    }
  }

  /**
   * Settling a page that holds the first open ids after the cursor moves
   * the cursor to the page's last id, adds exactly the page's ids to the
   * visited ones in ascending order, and leaves fewer open ids to visit;
   * when no open id after the old cursor is missing from the page, none
   * is left.
   */
  lemma VisitedSnoc(open0: set<Key>, nowOf: map<Key, int>, cursor: Option<Key>,
                    pages: seq<seq<DocSnap>>, snap: seq<DocSnap>, nowMs: int)
    requires nowOf.Keys == UpTo(open0, cursor)
    requires forall k :: k in nowOf <==> k in Ids(Flatten(pages))
    requires StrictlyAscending(Ids(Flatten(pages)))
    requires |snap| > 0 && StrictlyAscending(Ids(snap))
    requires forall i :: 0 <= i < |snap| ==> snap[i].id in open0 && After(cursor, snap[i].id)
    requires forall k :: k in open0 && After(cursor, k) && k !in Ids(snap) ==>
      forall i :: 0 <= i < |snap| ==> Less(snap[i].id, k)
    ensures var nowOf' := Stamp(nowOf, Ids(snap), nowMs);
      && nowOf'.Keys == UpTo(open0, Some(snap[|snap| - 1].id))
      && (forall k :: k in nowOf' <==> k in Ids(Flatten(pages + [snap])))
      && StrictlyAscending(Ids(Flatten(pages + [snap])))
      && open0 - nowOf'.Keys < open0 - nowOf.Keys
      && ((forall k :: k in open0 && After(cursor, k) ==> k in Ids(snap)) ==> nowOf'.Keys == open0)
  {
    var ids := Ids(snap);
    var nowOf' := Stamp(nowOf, ids, nowMs);
    StampFacts(nowOf, ids, nowMs);
    UpToAdvance(open0, cursor, ids);
    assert nowOf'.Keys == nowOf.Keys + (set k | k in ids);
    FlattenSnoc(pages, snap);
    IdsAppend(Flatten(pages), snap);
    forall x, y | x in Ids(Flatten(pages)) && y in ids
      ensures Less(x, y)
    {
      assert x in UpTo(open0, cursor);
      BeforeCursorAfter(cursor, x, y);
    }
    AscendingConcat(Ids(Flatten(pages)), ids);
    assert ids[0] in open0 - nowOf.Keys;
  }

  /**
   * The next page of the query, read against the store as the run found
   * it (see `ScanFromStart`).
   */
  method NextPage(db: Firestore, name: string, cursor: Option<Key>, parse: string -> Option<int>,
                  ghost cols0: Collections, ghost nowOf: map<Key, int>)
    returns (snap: seq<DocSnap>)
    requires db.collections == Reconciled(cols0, name, nowOf, parse)
    requires nowOf.Keys == UpTo(OpenKeys(CollectionOf(cols0, name)), cursor)
    ensures |snap| <= PageSize && StrictlyAscending(Ids(snap))
    ensures |snap| > 0 ==> name in cols0
    ensures forall i :: 0 <= i < |snap| ==>
      name in cols0 && snap[i].id in cols0[name] && cols0[name][snap[i].id] == snap[i].data &&
      snap[i].id in OpenKeys(cols0[name]) && snap[i].id !in nowOf && After(cursor, snap[i].id)
    ensures FromCollection(snap, cols0, name, nowOf, cursor)
    ensures forall k :: k in OpenKeys(CollectionOf(cols0, name)) && After(cursor, k) && k !in Ids(snap) ==>
      |snap| == PageSize && forall i :: 0 <= i < |snap| ==> Less(snap[i].id, k)
  {
    snap := db.Scan(name, cursor, PageSize);
    ScanFromStart(cols0, name, nowOf, cursor, parse, snap);
  }

  lemma UpToEverything(s: set<Key>, cursor: Option<Key>)
    requires forall k :: k in s ==> !After(cursor, k)
    ensures UpTo(s, cursor) == s
  {
  }

  /**
   * The state of a run over collection `name` after some pages: the store
   * holds the original collections with every visited record settled, the
   * visited records are exactly the open ones at or before the cursor, in
   * ascending id order across the pages, `ticks` counts the readings of
   * the clock, and the log holds the pages' commits in order.
   */
  ghost predicate Progress(cols: Collections, log: seq<seq<Write>>, cols0: Collections,
                           log0: seq<seq<Write>>, name: string, parse: string -> Option<int>,
                           readings: nat -> int, t0: nat, cursor: Option<Key>, ticks: nat,
                           nowOf: map<Key, int>, pages: seq<seq<DocSnap>>,
                           pageCommits: seq<seq<seq<Write>>>) {
    && cols == Reconciled(cols0, name, nowOf, parse)
    && nowOf.Keys == UpTo(OpenKeys(CollectionOf(cols0, name)), cursor)
    && (forall k :: k in nowOf <==> k in Ids(Flatten(pages)))
    && StrictlyAscending(Ids(Flatten(pages)))
    && ticks == t0 + |pages|
    && StampedByPage(nowOf, pages, readings, t0)
    && PagesFaithful(pages, pageCommits, CollectionOf(cols0, name), name, readings, t0, parse)
    && log == log0 + Flatten(pageCommits)
  }

  /**
   * One turn of the pagination loop: query the next page after the cursor;
   * stop at an empty page; otherwise read the clock once, settle the page,
   * move the cursor to its last record, and stop when the page is short.
   */
  method VisitPage(db: Firestore, name: string, parse: string -> Option<int>, readings: nat -> int,
                   t0: nat, cursor: Option<Key>, ticks: nat, ghost cols0: Collections,
                   ghost log0: seq<seq<Write>>, ghost nowOf: map<Key, int>,
                   ghost pages: seq<seq<DocSnap>>, ghost pageCommits: seq<seq<seq<Write>>>)
    returns (last: bool, cursor': Option<Key>, ticks': nat, ghost nowOf': map<Key, int>,
             ghost pages': seq<seq<DocSnap>>, ghost pageCommits': seq<seq<seq<Write>>>)
    requires Progress(db.collections, db.log, cols0, log0, name, parse, readings, t0,
                      cursor, ticks, nowOf, pages, pageCommits)
    modifies db
    ensures Progress(db.collections, db.log, cols0, log0, name, parse, readings, t0,
                     cursor', ticks', nowOf', pages', pageCommits')
    ensures pages' == pages || (|pages'| == |pages| + 1 && pages'[..|pages|] == pages)
    ensures last ==> nowOf'.Keys == OpenKeys(CollectionOf(cols0, name))
    ensures !last ==> |pages'| == |pages| + 1 && pages'[..|pages|] == pages && |pages'[|pages|]| == PageSize
    ensures !last ==> OpenKeys(CollectionOf(cols0, name)) - nowOf'.Keys < OpenKeys(CollectionOf(cols0, name)) - nowOf.Keys
  {
    ghost var open0 := OpenKeys(CollectionOf(cols0, name));
    var snap := NextPage(db, name, cursor, parse, cols0, nowOf);
    if |snap| == 0 {
      UpToEverything(open0, cursor);
      return true, cursor, ticks, nowOf, pages, pageCommits;
    }
    var nowMs := Reading(readings, ticks);
    ticks' := ticks + 1;
    ghost var commits;
    cursor', nowOf', commits := ProcessPage(db, name, snap, nowMs, parse, cursor, cols0, nowOf);
    VisitedSnoc(open0, nowOf, cursor, pages, snap, nowMs);
    StampedByPageSnoc(nowOf, pages, readings, t0, snap, nowMs, ticks);
    PagesFaithfulSnoc(pages, pageCommits, CollectionOf(cols0, name), name, readings, t0, parse,
                      snap, commits, nowMs, ticks);
    FlattenSnoc(pageCommits, commits);
    AppendAssoc(log0, Flatten(pageCommits), commits);
    pages', pageCommits' := pages + [snap], pageCommits + [commits];
    assert pages'[..|pages|] == pages;
    last := |snap| < PageSize;
    if last {
      forall k | k in open0 && After(cursor, k)
        ensures k in Ids(snap)
      {
      }
    }
  }

  /** Every page before the last of a run holds a full page of records. */
  lemma FullPagesKept(pages0: seq<seq<DocSnap>>, pages: seq<seq<DocSnap>>, last: bool)
    requires forall i :: 0 <= i < |pages0| ==> |pages0[i]| == PageSize
    requires pages == pages0 || (|pages| == |pages0| + 1 && pages[..|pages0|] == pages0)
    requires !last ==> |pages| == |pages0| + 1 && pages[..|pages0|] == pages0 && |pages[|pages0|]| == PageSize
    ensures !last ==> forall i :: 0 <= i < |pages| ==> |pages[i]| == PageSize
    ensures last ==> forall i :: 0 <= i < |pages| - 1 ==> |pages[i]| == PageSize
  {
    forall i | 0 <= i < |pages| && (!last || i < |pages| - 1)
      ensures |pages[i]| == PageSize
    {
      if i < |pages0| {
        assert pages[i] == pages[..|pages0|][i];
      }
    }
  }

  /**
   * `processCollection`: scan the open records of collection `name` page
   * by page in ascending id order, each page starting strictly after the
   * last record of the one before, and settle each record with the instant
   * read once for its page. The run stops at an empty page or a page
   * shorter than the page size. Every open record is visited exactly once,
   * every other record is left untouched, and each page's commits hold the
   * page's own merge-writes in batches of at most the batch limit. The
   * clock's readings are `readings(t0)`, `readings(t0 + 1)`, ...; `ticks`
   * is the index of the next unread one.
   */
  method ProcessCollection(db: Firestore, name: string, parse: string -> Option<int>,
                           readings: nat -> int, t0: nat)
    returns (ticks: nat, ghost nowOf: map<Key, int>, ghost pages: seq<seq<DocSnap>>,
             ghost pageCommits: seq<seq<seq<Write>>>)
    modifies db
    ensures db.collections == Reconciled(old(db.collections), name, nowOf, parse)
    ensures nowOf.Keys == OpenKeys(CollectionOf(old(db.collections), name))
    ensures forall k :: k in nowOf <==> k in Ids(Flatten(pages))
    ensures StrictlyAscending(Ids(Flatten(pages)))
    ensures forall i :: 0 <= i < |pages| - 1 ==> |pages[i]| == PageSize
    ensures ticks == t0 + |pages|
    ensures StampedByPage(nowOf, pages, readings, t0)
    ensures PagesFaithful(pages, pageCommits, CollectionOf(old(db.collections), name), name,
                          readings, t0, parse)
    ensures db.log == old(db.log) + Flatten(pageCommits)
  {
    ghost var cols0, log0 := db.collections, db.log;
    ghost var open0 := OpenKeys(CollectionOf(cols0, name));
    var cursor: Option<Key> := None;
    ticks, nowOf, pages, pageCommits := t0, map[], [], [];
    ReconciledNothing(cols0, name, parse);
    var last := false;
    while !last
      invariant Progress(db.collections, db.log, cols0, log0, name, parse, readings, t0,
                         cursor, ticks, nowOf, pages, pageCommits)
      invariant !last ==> forall i :: 0 <= i < |pages| ==> |pages[i]| == PageSize
      invariant last ==> forall i :: 0 <= i < |pages| - 1 ==> |pages[i]| == PageSize
      invariant last ==> nowOf.Keys == open0
      decreases !last, open0 - nowOf.Keys
    {
      ghost var pages0 := pages;
      last, cursor, ticks, nowOf, pages, pageCommits :=
        VisitPage(db, name, parse, readings, t0, cursor, ticks, cols0, log0, nowOf, pages, pageCommits);
      FullPagesKept(pages0, pages, last);
    }
  }

  /**
   * A page's merge-writes go to collection `name` and only to records of
   * the page, and no record gets two: their ids ascend as the page's do.
   */
  lemma {:induction false} PageWritesTargetPage(name: string, page: seq<DocSnap>, now: int,
                                                parse: string -> Option<int>)
    requires StrictlyAscending(Ids(page))
    ensures forall w :: w in PageWrites(name, page, now, parse) ==> w.collection == name && w.id in Ids(page)
    ensures StrictlyAscending(WriteIds(PageWrites(name, page, now, parse)))
    decreases |page|
  {
    if page != [] {
      var init, last := page[..|page| - 1], page[|page| - 1];
      assert Ids(page) == Ids(init) + [last.id];
      PageWritesTargetPage(name, init, now, parse);
      var ws := PageWrites(name, init, now, parse);
      var mine := StagedFor(name, last.id, Decide(last.data, now, parse), now);
      WriteIdsAppend(ws, mine);
      forall i | 0 <= i < |WriteIds(ws)|
        ensures Less(WriteIds(ws)[i], last.id)
      {
        assert ws[i] in ws;
        var j :| 0 <= j < |init| && Ids(init)[j] == ws[i].id;
        assert Ids(page)[j] == ws[i].id;
      }
      AscendingExtend(WriteIds(ws), WriteIds(mine), last.id);
    }
  }

  lemma AscendingSplit(xs: seq<Key>, ys: seq<Key>)
    requires StrictlyAscending(xs + ys)
    ensures StrictlyAscending(xs) && StrictlyAscending(ys)
    ensures forall i, j :: 0 <= i < |xs| && 0 <= j < |ys| ==> Less(xs[i], ys[j])
  {
    forall i, j | 0 <= i < j < |xs|
      ensures Less(xs[i], xs[j])
    {
      assert (xs + ys)[i] == xs[i] && (xs + ys)[j] == xs[j];
    }
    forall i, j | 0 <= i < j < |ys|
      ensures Less(ys[i], ys[j])
    {
      assert (xs + ys)[|xs| + i] == ys[i] && (xs + ys)[|xs| + j] == ys[j];
    }
    forall i, j | 0 <= i < |xs| && 0 <= j < |ys|
      ensures Less(xs[i], ys[j])
    {
      assert (xs + ys)[i] == xs[i] && (xs + ys)[|xs| + j] == ys[j];
    }
  }

  /**
   * Writes to the records of one stretch of ascending ids, followed by
   * writes to the records of a later stretch, ascend as a whole.
   */
  lemma WritesAppendAscend(name: string, before: seq<Write>, mine: seq<Write>, earlier: seq<Key>, later: seq<Key>)
    requires forall w :: w in before ==> w.collection == name && w.id in earlier
    requires forall w :: w in mine ==> w.collection == name && w.id in later
    requires StrictlyAscending(WriteIds(before)) && StrictlyAscending(WriteIds(mine))
    requires forall i, j :: 0 <= i < |earlier| && 0 <= j < |later| ==> Less(earlier[i], later[j])
    ensures forall w :: w in before + mine ==> w.collection == name && w.id in earlier + later
    ensures StrictlyAscending(WriteIds(before + mine))
  {
    WriteIdsAppend(before, mine);
    forall i, j | 0 <= i < |WriteIds(before)| && 0 <= j < |WriteIds(mine)|
      ensures Less(WriteIds(before)[i], WriteIds(mine)[j])
    {
      assert before[i] in before && mine[j] in mine;
      var x :| 0 <= x < |earlier| && earlier[x] == before[i].id;
      var y :| 0 <= y < |later| && later[y] == mine[j].id;
    }
    AscendingConcat(WriteIds(before), WriteIds(mine));
  }

  /**
   * One page and the commits it made: when the page's ids ascend, the
   * commits' writes go to collection `name` and to the page's records, in
   * ascending order of id.
   */
  ghost predicate CommitsTargetPage(name: string, page: seq<DocSnap>, commits: seq<seq<Write>>) {
    StrictlyAscending(Ids(page)) ==>
      && (forall w :: w in Flatten(commits) ==> w.collection == name && w.id in Ids(page))
      && StrictlyAscending(WriteIds(Flatten(commits)))
  }

  /** Pages of ascending ids, each writing only to its own records in order, write in order as a whole. */
  lemma {:induction false} CommitsAscend(name: string, pages: seq<seq<DocSnap>>, pageCommits: seq<seq<seq<Write>>>)
    requires |pageCommits| == |pages|
    requires forall i :: 0 <= i < |pages| ==> CommitsTargetPage(name, pages[i], pageCommits[i])
    requires StrictlyAscending(Ids(Flatten(pages)))
    ensures forall w :: w in Flatten(Flatten(pageCommits)) ==> w.collection == name && w.id in Ids(Flatten(pages))
    ensures StrictlyAscending(WriteIds(Flatten(Flatten(pageCommits))))
    decreases |pages|
  {
    if pages != [] {
      var n := |pages| - 1;
      var init, initCommits := pages[..n], pageCommits[..n];
      assert pages == init + [pages[n]] && pageCommits == initCommits + [pageCommits[n]];
      FlattenSnoc(init, pages[n]);
      IdsAppend(Flatten(init), pages[n]);
      FlattenSnoc(initCommits, pageCommits[n]);
      FlattenAppend(Flatten(initCommits), pageCommits[n]);
      var earlier, later := Ids(Flatten(init)), Ids(pages[n]);
      AscendingSplit(earlier, later);
      CommitsAscend(name, init, initCommits);
      assert CommitsTargetPage(name, pages[n], pageCommits[n]);
      WritesAppendAscend(name, Flatten(Flatten(initCommits)), Flatten(pageCommits[n]), earlier, later);
    }
  }

  /**
   * Across a whole run no record is written twice: every merge-write the
   * run commits goes to collection `name` and to a record the run
   * visited, and their ids ascend strictly in commit order.
   */
  lemma RunWritesAscend(pages: seq<seq<DocSnap>>, pageCommits: seq<seq<seq<Write>>>,
                                           coll0: map<Key, Doc>, name: string, readings: nat -> int,
                                           t0: nat, parse: string -> Option<int>)
    requires PagesFaithful(pages, pageCommits, coll0, name, readings, t0, parse)
    requires StrictlyAscending(Ids(Flatten(pages)))
    ensures forall w :: w in Flatten(Flatten(pageCommits)) ==> w.collection == name && w.id in Ids(Flatten(pages))
    ensures StrictlyAscending(WriteIds(Flatten(Flatten(pageCommits))))
  {
    forall i | 0 <= i < |pages|
      ensures CommitsTargetPage(name, pages[i], pageCommits[i])
    {
      if StrictlyAscending(Ids(pages[i])) {
        PageWritesTargetPage(name, pages[i], Reading(readings, t0 + i), parse);
      }
    }
    CommitsAscend(name, pages, pageCommits);
  }

  /**
   * What a run leaves in a collection it visited as `nowOf` says: a record
   * it did not visit is as it was; a visited record that was stale at its
   * page's instant is closed at that instant and tagged "auto"; any other
   * visited record keeps its `time_out`, is left alone when it already had
   * `last_sign_out`, and gets `last_sign_out` null otherwise. Every record
   * keeps its other fields.
   */
  lemma RunOutcome(c: map<Key, Doc>, nowOf: map<Key, int>, parse: string -> Option<int>, k: Key)
    requires k in c
    ensures k in Target(c, nowOf, parse)
    ensures k !in nowOf ==> Target(c, nowOf, parse)[k] == c[k]
    ensures k in nowOf && IsStale(c[k], nowOf[k], parse) ==>
      Field(Target(c, nowOf, parse)[k], "time_out") == TimestampOf(nowOf[k]) &&
      Field(Target(c, nowOf, parse)[k], "last_sign_out") == AutoTag
    ensures k in nowOf && !IsStale(c[k], nowOf[k], parse) ==>
      Field(Target(c, nowOf, parse)[k], "time_out") == Field(c[k], "time_out") &&
      ("last_sign_out" in c[k] ==> Target(c, nowOf, parse)[k] == c[k]) &&
      ("last_sign_out" !in c[k] ==> Field(Target(c, nowOf, parse)[k], "last_sign_out") == Null)
    ensures forall f :: f in c[k] && f != "time_out" && f != "last_sign_out" ==>
      f in Target(c, nowOf, parse)[k] && Target(c, nowOf, parse)[k][f] == c[k][f]
  {
    if k in nowOf {
      SettleKeepsOtherFields(c[k], nowOf[k], parse);
    }
  }

  /**
   * Once the visited records are exactly the open ones, a record the run
   * found closed (or without a null `time_out`) is never written, and
   * neither is any other collection.
   */
  lemma ClosedRecordsUntouched(cols: Collections, name: string, nowOf: map<Key, int>,
                               parse: string -> Option<int>)
    requires nowOf.Keys == OpenKeys(CollectionOf(cols, name))
    ensures forall other :: other != name && other in cols ==>
      other in Reconciled(cols, name, nowOf, parse) && Reconciled(cols, name, nowOf, parse)[other] == cols[other]
    ensures forall k :: k in CollectionOf(cols, name) && !MatchesOpen(CollectionOf(cols, name)[k]) ==>
      k in CollectionOf(Reconciled(cols, name, nowOf, parse), name) &&
      CollectionOf(Reconciled(cols, name, nowOf, parse), name)[k] == CollectionOf(cols, name)[k]
  {
    forall k | k in CollectionOf(cols, name) && !MatchesOpen(CollectionOf(cols, name)[k])
      ensures k in CollectionOf(Reconciled(cols, name, nowOf, parse), name)
      ensures CollectionOf(Reconciled(cols, name, nowOf, parse), name)[k] == CollectionOf(cols, name)[k]
    {
      assert k !in OpenKeys(CollectionOf(cols, name));
      RunOutcome(cols[name], nowOf, parse, k);
    }
  }

  /**
   * Deciding the records again at the instants the run used finds nothing
   * to write, so a second pass at those instants changes nothing.
   */
  lemma RerunIsNoOp(c: map<Key, Doc>, nowOf: map<Key, int>, parse: string -> Option<int>)
    ensures forall k :: k in c && k in nowOf ==> Decide(Target(c, nowOf, parse)[k], nowOf[k], parse) == NoWrite
    ensures Target(Target(c, nowOf, parse), nowOf, parse) == Target(c, nowOf, parse)
  {
    var t := Target(c, nowOf, parse);
    forall k | k in c && k in nowOf
      ensures Decide(t[k], nowOf[k], parse) == NoWrite
      ensures Settle(t[k], nowOf[k], parse) == t[k]
    {
      SettleIsIdempotent(c[k], nowOf[k], parse);
    }
    assert Target(t, nowOf, parse) == t;
  }

  /**
   * At any later instant, a record the run visited is never backfilled
   * again, and one the run closed no longer matches the query.
   */
  lemma VisitedRecordsStaySettled(c: map<Key, Doc>, nowOf: map<Key, int>, parse: string -> Option<int>,
                                  k: Key, later: int)
    requires k in c && k in nowOf
    ensures Decide(Target(c, nowOf, parse)[k], later, parse) != Backfill
    ensures IsStale(c[k], nowOf[k], parse) ==> k !in OpenKeys(Target(c, nowOf, parse))
  {
    RunOutcome(c, nowOf, parse, k);
  }

  /** The collections the daily job reconciles, in this order. */
  const Students: string := "students"
  const Tutors: string := "tutors"

  lemma ReconciledElsewhere(cols: Collections, name: string, other: string, nowOf: map<Key, int>,
                            parse: string -> Option<int>)
    requires name != other
    ensures CollectionOf(Reconciled(cols, name, nowOf, parse), other) == CollectionOf(cols, other)
  {
  }

  /**
   * `autoSignOutDaily`: reconcile every open student session, then every
   * open tutor session. The tutors' pages read the clock after all the
   * students' pages, and every student commit precedes every tutor commit.
   * `readings(0)`, `readings(1)`, ... are the instants the clock returns;
   * `ticks` counts the readings taken.
   */
  method AutoSignOutDaily(db: Firestore, parse: string -> Option<int>, readings: nat -> int)
    returns (ticks: nat,
             ghost studentNow: map<Key, int>, ghost studentPages: seq<seq<DocSnap>>,
             ghost studentCommits: seq<seq<seq<Write>>>,
             ghost tutorNow: map<Key, int>, ghost tutorPages: seq<seq<DocSnap>>,
             ghost tutorCommits: seq<seq<seq<Write>>>)
    modifies db
    ensures db.collections ==
      Reconciled(Reconciled(old(db.collections), Students, studentNow, parse), Tutors, tutorNow, parse)
    ensures studentNow.Keys == OpenKeys(CollectionOf(old(db.collections), Students))
    ensures tutorNow.Keys == OpenKeys(CollectionOf(old(db.collections), Tutors))
    ensures StampedByPage(studentNow, studentPages, readings, 0)
    ensures StampedByPage(tutorNow, tutorPages, readings, |studentPages|)
    ensures ticks == |studentPages| + |tutorPages|
    ensures PagesFaithful(studentPages, studentCommits, CollectionOf(old(db.collections), Students),
                          Students, readings, 0, parse)
    ensures PagesFaithful(tutorPages, tutorCommits, CollectionOf(old(db.collections), Tutors),
                          Tutors, readings, |studentPages|, parse)
    ensures db.log == old(db.log) + Flatten(studentCommits) + Flatten(tutorCommits)
  {
    var afterStudents: nat;
    afterStudents, studentNow, studentPages, studentCommits := ProcessCollection(db, Students, parse, readings, 0);
    ReconciledElsewhere(old(db.collections), Students, Tutors, studentNow, parse);
    ticks, tutorNow, tutorPages, tutorCommits := ProcessCollection(db, Tutors, parse, readings, afterStudents);
  }
}
