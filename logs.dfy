/**
 * The append-only tables (`transactions`, `price_history`) are sequences in
 * insertion order.  A `WHERE` clause is `Filter`; `ORDER BY created_at DESC
 * LIMIT n` is `NewestFirst`, which reads the log from its end.
 */
module Logs {

  /** The elements of `s` that satisfy `keep`, in log order. */
  function Filter<T>(s: seq<T>, keep: T -> bool): (r: seq<T>)
    ensures |r| <= |s|
    ensures forall i :: 0 <= i < |r| ==> r[i] in s && keep(r[i])
    ensures forall i :: 0 <= i < |s| && keep(s[i]) ==> s[i] in r
    decreases |s|
  {
    if s == [] then []
    else
      var rest := Filter(s[..|s| - 1], keep);
      if keep(s[|s| - 1]) then rest + [s[|s| - 1]] else rest
  }

  /** At most `limit` elements of `s`, the last appended first. */
  function NewestFirst<T>(s: seq<T>, limit: nat): (r: seq<T>)
    ensures |r| == if |s| < limit then |s| else limit
    ensures forall i :: 0 <= i < |r| ==> r[i] == s[|s| - 1 - i]
    decreases |s|
  {
    if s == [] || limit == 0 then []
    else [s[|s| - 1]] + NewestFirst(s[..|s| - 1], limit - 1)
  }

  /** Appending a row extends the filtered log by that row exactly when it is kept. */
  lemma FilterAppend<T>(s: seq<T>, x: T, keep: T -> bool)
    ensures Filter(s + [x], keep) == if keep(x) then Filter(s, keep) + [x] else Filter(s, keep)
  {
    assert (s + [x])[..|s|] == s;
  }

  /** The row appended last is listed first; the older rows follow, one fewer of them fits. */
  lemma {:induction false} NewestFirstAppend<T>(s: seq<T>, x: T, limit: nat)
    requires limit > 0
    ensures NewestFirst(s + [x], limit) == [x] + NewestFirst(s, limit - 1)
  {
    assert (s + [x])[..|s|] == s;
  }

  /** Every row of a newest-first listing of a filtered log is a row of the log that matches. */
  lemma NewestFirstOfFilter<T>(s: seq<T>, keep: T -> bool, limit: nat)
    ensures var r := NewestFirst(Filter(s, keep), limit);
      forall i :: 0 <= i < |r| ==> r[i] in s && keep(r[i])
  {
    var mine := Filter(s, keep);
    var r := NewestFirst(mine, limit);
    forall i | 0 <= i < |r| ensures r[i] in s && keep(r[i]) {
      assert r[i] == mine[|mine| - 1 - i];
    }
  }
}
