/**
 * The document store the job runs against, as an in-memory fake: named
 * collections of records, a keyset-paginated query for open records in
 * ascending id order, and atomic commits of merge-write batches. The wall
 * clock is a parameter: its successive readings, in epoch milliseconds.
 */
module SessionStore {
  import opened Wrappers
  import opened Timestamps
  import opened SessionRecords
  import opened DocumentKeys

  /** A staged merge-write: record `id` of collection `collection` gets `patch` merged in. */
  datatype Write = Write(collection: string, id: Key, patch: map<string, Value>)

  /** A document snapshot as a query returns it. */
  datatype DocSnap = DocSnap(id: Key, data: Doc)

  /** Every collection of the store by name. */
  type Collections = map<string, map<Key, Doc>>

  /** The records of a collection; a collection that was never written is empty. */
  function CollectionOf(cols: Collections, name: string): map<Key, Doc> {
    if name in cols then cols[name] else map[]
  }

  /**
   * The query filter `time_out == null`. The store matches a record whose
   * `time_out` field holds `null`; a record without the field does not match.
   */
  predicate MatchesOpen(d: Doc)
    ensures MatchesOpen(d) ==> IsNullish(Field(d, "time_out"))
    ensures "time_out" !in d ==> !MatchesOpen(d)
  {
    "time_out" in d && d["time_out"] == Null
  }

  /** The ids of a page, in page order. */
  function Ids(page: seq<DocSnap>): (ks: seq<Key>)
    ensures |ks| == |page|
    ensures forall i :: 0 <= i < |page| ==> ks[i] == page[i].id
  {
    seq(|page|, i requires 0 <= i < |page| => page[i].id)
  }

  /** The ids written by a sequence of merge-writes, in order. */
  function WriteIds(ws: seq<Write>): (ks: seq<Key>)
    ensures |ks| == |ws|
    ensures forall i :: 0 <= i < |ws| ==> ks[i] == ws[i].id
  {
    seq(|ws|, i requires 0 <= i < |ws| => ws[i].id)
  }

  /** One merge-write; a record that does not exist yet is created with the patch's fields. */
  function ApplyWrite(cols: Collections, w: Write): Collections {
    var c := CollectionOf(cols, w.collection);
    var d := if w.id in c then c[w.id] else map[];
    cols[w.collection := c[w.id := Merge(d, w.patch)]]
  }

  /** A batch of merge-writes applied in staging order. */
  function ApplyWrites(cols: Collections, ws: seq<Write>): Collections
    decreases |ws|
  {
    if ws == [] then cols
    else ApplyWrite(ApplyWrites(cols, ws[..|ws| - 1]), ws[|ws| - 1])
  }

  /**
   * Applying a batch keeps every collection, and leaves the ones no write
   * of the batch names as they were.
   */
  lemma {:induction false} ApplyWritesElsewhere(cols: Collections, ws: seq<Write>, name: string)
    requires name in cols
    ensures name in ApplyWrites(cols, ws)
    ensures (forall i :: 0 <= i < |ws| ==> ws[i].collection != name) ==> ApplyWrites(cols, ws)[name] == cols[name]
    decreases |ws|
  {
    if ws != [] {
      ApplyWritesElsewhere(cols, ws[..|ws| - 1], name);
    }
  }

  /** The least key of a non-empty set, found by one pass over it. */
  method MinKey(s: set<Key>) returns (m: Key)
    requires s != {}
    ensures m in s
    ensures forall k :: k in s && k != m ==> Less(m, k)
  {
    m :| m in s;
    var rest := s - {m};
    while rest != {}
      invariant m in s && rest <= s && m !in rest
      invariant forall k :: k in s && k !in rest && k != m ==> Less(m, k)
      decreases rest
    {
      var k :| k in rest;
      LessTotal(m, k);
      if Less(k, m) {
        forall j | j in s && j !in rest && j != k
          ensures Less(k, j)
        {
          if j != m {
            LessTransitive(k, m, j);
          }
        }
        m := k;
      }
      rest := rest - {k};
    }
  }

  /** The document store. */
  class Firestore {
    var collections: Collections
    /** Every batch committed so far, oldest first. */
    ghost var log: seq<seq<Write>>

    constructor (initial: Collections)
      ensures collections == initial && log == []
    {
      collections := initial;
      log := [];
    }

    /**
     * The query `where time_out == null, order by document id, start after
     * the cursor, limit`: the first `limit` matching records of collection
     * `name` whose ids follow `after`, in ascending id order, each with
     * its current data. Every matching record after the cursor that the
     * page leaves out comes after every record in the page, and then the
     * page is full.
     */
    method Scan(name: string, after: Option<Key>, limit: nat) returns (page: seq<DocSnap>)
      ensures |page| <= limit
      ensures StrictlyAscending(Ids(page))
      ensures forall i :: 0 <= i < |page| ==>
        page[i].id in CollectionOf(collections, name) &&
        page[i].data == CollectionOf(collections, name)[page[i].id] &&
        MatchesOpen(page[i].data) && After(after, page[i].id)
      ensures forall k ::
        (k in CollectionOf(collections, name) && MatchesOpen(CollectionOf(collections, name)[k]) &&
         After(after, k) && k !in Ids(page)) ==>
        |page| == limit && forall i :: 0 <= i < |page| ==> Less(page[i].id, k)
    {
      var coll := CollectionOf(collections, name);
      var candidates := set k | k in coll && MatchesOpen(coll[k]) && After(after, k);
      ghost var matching := candidates;
      page := [];
      while |page| < limit && candidates != {}
        invariant candidates <= matching && |page| <= limit
        invariant StrictlyAscending(Ids(page))
        invariant forall i :: 0 <= i < |page| ==>
          page[i].id in matching && page[i].id !in candidates && page[i].data == coll[page[i].id]
        invariant forall k :: k in matching && k !in candidates ==> k in Ids(page)
        invariant forall i, k :: 0 <= i < |page| && k in candidates ==> Less(page[i].id, k)
        decreases candidates
      {
        var m := MinKey(candidates);
        assert Ids(page + [DocSnap(m, coll[m])]) == Ids(page) + [m];
        page := page + [DocSnap(m, coll[m])];
        candidates := candidates - {m};
      }
    }

    /** `batch.commit()`: all staged writes take effect together, in staging order. */
    method Commit(batch: seq<Write>)
      modifies this
      ensures collections == ApplyWrites(old(collections), batch)
      ensures log == old(log) + [batch]
    {
      collections := ApplyWrites(collections, batch);
      log := log + [batch];
    }
  }

  /**
   * `Timestamp.now()` the `n`-th time the job reads it, when `readings`
   * lists what the clock returns. Kept as a function of its own so that
   * proofs about pages refer to one clock reading by name.
   */
  function Reading(readings: nat -> int, n: nat): int {
    readings(n)
  }
}
