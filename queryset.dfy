/**
 * The queryset primitives the views use on a table held as a sequence of
 * rows in primary-key order: `filter`, `.first()` and `.exists()`.
 */
module QuerySet {
  import opened Wrappers

  /** The rows that satisfy `keep`, in table order. */
  function Filter<T>(s: seq<T>, keep: T -> bool): (r: seq<T>)
    ensures |r| <= |s|
    ensures forall i :: 0 <= i < |r| ==> r[i] in s && keep(r[i])
    ensures forall i :: 0 <= i < |s| && keep(s[i]) ==> s[i] in r
  {
    if s == [] then []
    else if keep(s[0]) then [s[0]] + Filter(s[1..], keep)
    else Filter(s[1..], keep)
  }

  /** The position of the first row satisfying `p` (`.filter(p).first()`). */
  function First<T>(s: seq<T>, p: T -> bool): (r: Option<nat>)
    ensures r.Some? ==> r.value < |s| && p(s[r.value])
    ensures r.Some? ==> forall k :: 0 <= k < r.value ==> !p(s[k])
    ensures r.None? <==> forall k :: 0 <= k < |s| ==> !p(s[k])
  {
    if s == [] then None
    else if p(s[0]) then Some(0)
    else
      var r := First(s[1..], p);
      if r.None? then None
      else
        assert forall k :: 1 <= k <= r.value ==> s[k] == s[1..][k - 1];
        Some(r.value + 1)
  }

  /**
   * Row keys strictly increase along the table and stay below the next key
   * to hand out: the shape of an auto-increment primary key.
   */
  ghost predicate KeysIncreasing<T>(s: seq<T>, key: T -> nat, next: nat)
  {
    (forall i, j :: 0 <= i < j < |s| ==> key(s[i]) < key(s[j]))
    && (forall i :: 0 <= i < |s| ==> key(s[i]) < next)
  }

  /** Filtering a table keeps its keys in order. */
  lemma {:induction false} FilterKeepsKeys<T>(s: seq<T>, keep: T -> bool, key: T -> nat, next: nat)
    requires KeysIncreasing(s, key, next)
    ensures KeysIncreasing(Filter(s, keep), key, next)
  {
    if s != [] {
      var tail := Filter(s[1..], keep);
      FilterKeepsKeys(s[1..], keep, key, next);
      if keep(s[0]) {
        var r := [s[0]] + tail;
        forall j | 0 < j < |r| ensures key(r[0]) < key(r[j]) {
          assert r[j] in tail;
          assert r[j] in s[1..];
        }
      }
    }
  }

  /** Appending a row whose key is the next one keeps the keys in order. */
  lemma AppendKeepsKeys<T>(s: seq<T>, row: T, key: T -> nat, next: nat, next': nat)
    requires KeysIncreasing(s, key, next)
    requires key(row) == next < next'
    ensures KeysIncreasing(s + [row], key, next')
  {
  }

  /** Replacing a row by one with the same key keeps the keys in order. */
  lemma ReplaceKeepsKeys<T>(s: seq<T>, i: nat, row: T, key: T -> nat, next: nat)
    requires KeysIncreasing(s, key, next)
    requires i < |s| && key(row) == key(s[i])
    ensures KeysIncreasing(s[i := row], key, next)
  {
  }

  /** Two rows with the same key are the same row. */
  lemma KeyIdentifiesRow<T>(s: seq<T>, key: T -> nat, next: nat, i: nat, j: nat)
    requires KeysIncreasing(s, key, next)
    requires i < |s| && j < |s| && key(s[i]) == key(s[j])
    ensures i == j
  {
  }

  /** Every two rows, taken in table order, stand in relation `ok`. */
  ghost predicate Pairwise<T>(s: seq<T>, ok: (T, T) -> bool)
  {
    forall i, j :: 0 <= i < j < |s| ==> ok(s[i], s[j])
  }

  /** Filtering a table keeps a relation that held between every two of its rows. */
  lemma {:induction false} FilterKeepsPairwise<T>(s: seq<T>, keep: T -> bool, ok: (T, T) -> bool)
    requires Pairwise(s, ok)
    ensures Pairwise(Filter(s, keep), ok)
  {
    if s != [] {
      var tail := Filter(s[1..], keep);
      FilterKeepsPairwise(s[1..], keep, ok);
      if keep(s[0]) {
        var r := [s[0]] + tail;
        forall j | 0 < j < |r| ensures ok(r[0], r[j]) {
          assert r[j] in tail;
          assert r[j] in s[1..];
        }
      }
    }
  }
}
