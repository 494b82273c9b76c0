/**
 * One session record and the per-record decision of the auto-sign-out job:
 * force-close it, backfill its `last_sign_out` field, or leave it alone.
 */
module SessionRecords {
  import opened Wrappers
  import opened Timestamps

  /** A record's data: field name to stored value; a missing key is a missing field. */
  type Doc = map<string, Value>

  /** Eight hours in milliseconds: an open session at least this old is force-closed. */
  const EightHoursMs: int := 8 * 60 * 60 * 1000

  /** The tag a force-close writes into `last_sign_out`. */
  const AutoTag: Value := Str("auto")

  /** Property access `data.f`: `undefined` when the field is missing. */
  function Field(d: Doc, f: string): Value {
    if f in d then d[f] else Undefined
  }

  /** JavaScript's loose `v == null`: true of `null` and of `undefined`. */
  predicate IsNullish(v: Value) {
    v == Null || v == Undefined
  }

  /** What the job does to one record. */
  datatype Action = NoWrite | Backfill | ForceClose

  /**
   * The force-close condition: `time_in` normalizes to some instant `t`,
   * `time_out` is null or missing, and at least eight hours separate `t`
   * from `now` (exactly eight hours included).
   */
  predicate IsStale(d: Doc, now: int, parse: string -> Option<int>)
    ensures IsStale(d, now, parse) ==> "time_in" in d && IsNullish(Field(d, "time_out"))
  {
    var t := ToMillis(Field(d, "time_in"), parse);
    t.Some? && IsNullish(Field(d, "time_out")) && now - t.value >= EightHoursMs
  }

  /**
   * The per-record decision, in the order the job tests things: an
   * unnormalizable `time_in` can only lead to a backfill; otherwise a stale
   * open record is force-closed; otherwise a record without a
   * `last_sign_out` field gets it backfilled with `null`.
   * The contract is the decision table: force-close exactly the stale
   * records, backfill exactly the others that lack `last_sign_out`.
   */
  function Decide(d: Doc, now: int, parse: string -> Option<int>): (a: Action)
    ensures a == ForceClose <==> IsStale(d, now, parse)
    ensures a == Backfill <==> !IsStale(d, now, parse) && "last_sign_out" !in d
  {
    var timeIn := ToMillis(Field(d, "time_in"), parse);
    var hasLastSignOut := "last_sign_out" in d;
    if timeIn.None? then
      if !hasLastSignOut then Backfill else NoWrite
    else
      var shouldAutoSignOut := IsNullish(Field(d, "time_out")) && now - timeIn.value >= EightHoursMs;
      if shouldAutoSignOut then ForceClose
      else if !hasLastSignOut then Backfill
      else NoWrite
  }

  /** The fields a merge-write for action `a` names, with the values it gives them. */
  function Patch(a: Action, now: int): map<string, Value> {
    match a
    case NoWrite => map[]
    case Backfill => map["last_sign_out" := Null]
    case ForceClose => map["time_out" := TimestampOf(now), "last_sign_out" := AutoTag]
  }

  /**
   * The job writes two fields at most: no write is the empty patch, only a
   * force-close names `time_out`, and every write names `last_sign_out`.
   */
  lemma PatchFields(a: Action, now: int)
    ensures |Patch(a, now)| == 0 <==> a == NoWrite
    ensures Patch(a, now).Keys <= {"time_out", "last_sign_out"}
    ensures "time_out" in Patch(a, now) <==> a == ForceClose
    ensures a != NoWrite ==> "last_sign_out" in Patch(a, now)
  {
  }

  /** A merge-write: the named fields take the patch's values, every other field is kept. */
  function Merge(d: Doc, patch: map<string, Value>): (r: Doc)
    ensures r.Keys == d.Keys + patch.Keys
    ensures forall f :: f in patch ==> r[f] == patch[f]
    ensures forall f :: f in d && f !in patch ==> r[f] == d[f]
  {
    d + patch
  }

  /** A record after the job has decided it with `now` and applied the decision. */
  function Settle(d: Doc, now: int, parse: string -> Option<int>): Doc {
    Merge(d, Patch(Decide(d, now, parse), now))
  }

  /**
   * An unnormalizable `time_in` never leads to a force-close: the only
   * possible write is `last_sign_out := null`, made exactly when that field
   * is missing, and `time_out` is left as it was.
   */
  lemma UnreadableTimeInOnlyBackfills(d: Doc, now: int, parse: string -> Option<int>)
    requires ToMillis(Field(d, "time_in"), parse).None?
    ensures Decide(d, now, parse) != ForceClose
    ensures Decide(d, now, parse) == Backfill <==> "last_sign_out" !in d
    ensures Field(Settle(d, now, parse), "time_out") == Field(d, "time_out")
    ensures "last_sign_out" !in d ==> Field(Settle(d, now, parse), "last_sign_out") == Null
    ensures "last_sign_out" in d ==> Settle(d, now, parse) == d
  {
  }

  /**
   * An open record whose `time_in` is at least eight hours before `now` is
   * closed at `now` and tagged `"auto"`, whatever its `last_sign_out` was.
   */
  lemma StaleRecordIsClosed(d: Doc, now: int, t: int, parse: string -> Option<int>)
    requires ToMillis(Field(d, "time_in"), parse) == Some(t)
    requires IsNullish(Field(d, "time_out"))
    requires now - t >= EightHoursMs
    ensures Decide(d, now, parse) == ForceClose
    ensures Field(Settle(d, now, parse), "time_out") == TimestampOf(now)
    ensures Field(Settle(d, now, parse), "last_sign_out") == AutoTag
  {
  }

  /** The eight-hour boundary is inclusive: exactly eight hours closes, one millisecond less does not. */
  lemma EightHourBoundary(now: int, parse: string -> Option<int>)
    ensures Decide(map["time_in" := TimestampOf(now - EightHoursMs), "time_out" := Null], now, parse) == ForceClose
    ensures Decide(map["time_in" := TimestampOf(now - EightHoursMs + 1), "time_out" := Null], now, parse) == Backfill
  {
    ToMillisOfTimestamp(now - EightHoursMs, parse);
    ToMillisOfTimestamp(now - EightHoursMs + 1, parse);
  }

  /**
   * A record younger than eight hours is never closed: it gets
   * `last_sign_out := null` when that field is missing and no write otherwise.
   */
  lemma FreshRecordIsKept(d: Doc, now: int, t: int, parse: string -> Option<int>)
    requires ToMillis(Field(d, "time_in"), parse) == Some(t)
    requires now - t < EightHoursMs
    ensures Decide(d, now, parse) == (if "last_sign_out" in d then NoWrite else Backfill)
    ensures Field(Settle(d, now, parse), "time_out") == Field(d, "time_out")
  {
  }

  /**
   * A record whose `time_out` holds a value is never force-closed, and its
   * `time_out` is never written; on its own the decision would still
   * backfill a missing `last_sign_out`, which is why the job's query must
   * keep closed records out.
   */
  lemma ClosedRecordKeepsTimeOut(d: Doc, now: int, parse: string -> Option<int>)
    requires !IsNullish(Field(d, "time_out"))
    ensures Decide(d, now, parse) != ForceClose
    ensures Field(Settle(d, now, parse), "time_out") == Field(d, "time_out")
    ensures "last_sign_out" in d ==> Settle(d, now, parse) == d
  {
  }

  /** A record stale at `now` is stale at every later instant too. */
  lemma StaleStaysStale(d: Doc, now: int, later: int, parse: string -> Option<int>)
    requires IsStale(d, now, parse) && now <= later
    ensures IsStale(d, later, parse)
  {
  }

  /**
   * A merge-write touches `time_out` and `last_sign_out` only: every other
   * field, `time_in` and `email` among them, keeps its value, and no field
   * disappears.
   */
  lemma SettleKeepsOtherFields(d: Doc, now: int, parse: string -> Option<int>)
    ensures d.Keys <= Settle(d, now, parse).Keys
    ensures forall f :: f != "time_out" && f != "last_sign_out" ==>
      Field(Settle(d, now, parse), f) == Field(d, f)
  {
  }

  /**
   * Re-deciding a settled record with the same `now` asks for no further
   * write: this is what makes a re-run of the job a no-op.
   */
  lemma {:induction false} SettleIsIdempotent(d: Doc, now: int, parse: string -> Option<int>)
    ensures Decide(Settle(d, now, parse), now, parse) == NoWrite
    ensures Settle(Settle(d, now, parse), now, parse) == Settle(d, now, parse)
  {
    var s := Settle(d, now, parse);
    SettleKeepsOtherFields(d, now, parse);
    assert Field(s, "time_in") == Field(d, "time_in");
    match Decide(d, now, parse)
    case NoWrite =>
      assert s == d;
    case Backfill =>
      assert Field(s, "time_out") == Field(d, "time_out");
    case ForceClose =>
      assert Field(s, "time_out") == TimestampOf(now);
  }
}
