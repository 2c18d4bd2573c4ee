/** Values shared by every part of the pipeline: an optional value, a timed
    caption line, and the in-order selection of positions that a list
    comprehension with an `if` filter makes. */
module Base {

  datatype Option<T> = None | Some(value: T)

  /** A caption of a subtitle track. Times are integer milliseconds, as the
      subtitle library stores them; `text` may hold `\N` line-break markers. */
  datatype Line = Line(start: int, end: int, text: string)

  /** Strictly increasing positions. */
  ghost predicate Increasing(idx: seq<nat>)
  {
    forall k, l :: 0 <= k < l < |idx| ==> idx[k] < idx[l]
  }

  /** The positions `i < n` of `s` whose element satisfies `keep`, in order:
      the index list of `[x for x in s[:n] if keep(x)]`. */
  function Indices<T>(s: seq<T>, keep: T -> bool, n: nat): (idx: seq<nat>)
    requires n <= |s|
    ensures Increasing(idx)
    ensures forall k :: 0 <= k < |idx| ==> idx[k] < n && keep(s[idx[k]])
    ensures forall i :: 0 <= i < n && keep(s[i]) ==> i in idx
  {
    if n == 0 then []
    else
      var prev := Indices(s, keep, n - 1);
      if keep(s[n - 1]) then prev + [n - 1] else prev
  }

  /** No position is selected exactly when no element satisfies `keep`. */
  lemma IndicesEmpty<T>(s: seq<T>, keep: T -> bool, n: nat)
    requires n <= |s|
    ensures Indices(s, keep, n) == [] <==> forall i :: 0 <= i < n ==> !keep(s[i])
  {
    var idx := Indices(s, keep, n);
    if idx != [] {
      assert keep(s[idx[0]]);
    }
  }
}
