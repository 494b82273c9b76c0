/**
 * Document keys and the order the store sorts them in: document ids
 * compared character by character, a proper prefix coming first.
 */
module DocumentKeys {
  import opened Wrappers

  type Key = string

  /** Strict lexicographic order on document ids; a proper prefix comes first. */
  predicate Less(a: Key, b: Key)
    decreases |a|
  {
    if a == [] then b != []
    else if b == [] then false
    else if a[0] != b[0] then a[0] < b[0]
    else Less(a[1..], b[1..])
  }

  /** A proper prefix of an id comes before it. */
  lemma {:induction false} PrefixComesFirst(a: Key, b: Key)
    requires |a| < |b| && a == b[..|a|]
    ensures Less(a, b)
    decreases |a|
  {
    if a != [] {
      assert a[1..] == b[1..][..|a| - 1];
      PrefixComesFirst(a[1..], b[1..]);
    }
  }

  /** No key precedes itself. */
  lemma {:induction false} LessIrreflexive(a: Key)
    ensures !Less(a, a)
    decreases |a|
  {
    if a != [] {
      LessIrreflexive(a[1..]);
    }
  }

  /** The order is transitive. */
  lemma {:induction false} LessTransitive(a: Key, b: Key, c: Key)
    requires Less(a, b) && Less(b, c)
    ensures Less(a, c)
    decreases |a|
  {
    if a != [] && a[0] == b[0] && b[0] == c[0] {
      LessTransitive(a[1..], b[1..], c[1..]);
    }
  }

  /** Any two distinct keys are ordered one way or the other. */
  lemma {:induction false} LessTotal(a: Key, b: Key)
    ensures a == b || Less(a, b) || Less(b, a)
    decreases |a|
  {
    if a != [] && b != [] && a[0] == b[0] {
      LessTotal(a[1..], b[1..]);
      if a[1..] == b[1..] {
        assert a == [a[0]] + a[1..] && b == [b[0]] + b[1..];
      }
    }
  }

  /** The order is asymmetric. */
  lemma LessAsymmetric(a: Key, b: Key)
    requires Less(a, b)
    ensures !Less(b, a)
  {
    if Less(b, a) {
      LessTransitive(a, b, a);
      LessIrreflexive(a);
    }
  }

  /** `k` comes strictly after the cursor; no cursor means "from the start". */
  predicate After(cursor: Option<Key>, k: Key) {
    cursor.None? || Less(cursor.value, k)
  }

  /** Strictly ascending keys; in particular no key occurs twice. */
  predicate StrictlyAscending(ks: seq<Key>) {
    forall i, j :: 0 <= i < j < |ks| ==> Less(ks[i], ks[j])
  }

  /** Two ascending runs, the first wholly before the second, make one ascending run. */
  lemma AscendingConcat(xs: seq<Key>, ys: seq<Key>)
    requires StrictlyAscending(xs) && StrictlyAscending(ys)
    requires forall i, j :: 0 <= i < |xs| && 0 <= j < |ys| ==> Less(xs[i], ys[j])
    ensures StrictlyAscending(xs + ys)
  {
  }

  /** In an ascending run every key is distinct. */
  lemma AscendingIsDistinct(ks: seq<Key>, i: int, j: int)
    requires StrictlyAscending(ks)
    requires 0 <= i < |ks| && 0 <= j < |ks| && i != j
    ensures ks[i] != ks[j]
  {
    if i < j {
      LessIrreflexive(ks[i]);
    } else {
      LessIrreflexive(ks[j]);
    }
  }
}
