/** The season selection both launchers share: either every season from 1
    on, until a season fails or the safety limit of 50 is passed, or an
    explicit list. Whether a season's download or processing succeeds is
    the function `succeeds`. */
module Seasons {
  import opened Base
  import opened Strings

  /** Season 50 is the last one the automatic mode ever tries. */
  const MaxSeason: int := 50

  /** `None` (automatic mode) or the list of seasons to try. */
  datatype Selection = Every | Listed(seasons: seq<int>)

  /** The seasons automatic mode tries from `n` on: `n`, `n+1`, ... up to
      and including the first that fails, and never beyond 50. */
  function AutoRun(succeeds: int -> bool, n: int): seq<int>
    decreases MaxSeason + 1 - n
  {
    if n > MaxSeason then []
    else [n] + (if succeeds(n) then AutoRun(succeeds, n + 1) else [])
  }

  /** Automatic mode tries consecutive seasons from `n`; every season but the
      last succeeded, and the last either failed or is season 50. */
  lemma {:induction false} AutoRunSpec(succeeds: int -> bool, n: int)
    requires n <= MaxSeason
    ensures var t := AutoRun(succeeds, n);
            && 1 <= |t| <= MaxSeason + 1 - n
            && (forall i :: 0 <= i < |t| ==> t[i] == n + i)
            && (forall i :: 0 <= i < |t| - 1 ==> succeeds(t[i]))
            && (!succeeds(t[|t| - 1]) || t[|t| - 1] == MaxSeason)
    decreases MaxSeason + 1 - n
  {
    if succeeds(n) && n < MaxSeason {
      AutoRunSpec(succeeds, n + 1);
    }
  }

  /** Thread count when main.py's answer is not an integer. */
  const MainThreads: int := 8
  /** Thread count when subsync.py's answer is not an integer. */
  const SubsyncThreads: int := 4

  /** `int(answer)`, or `fallback` where the model of `int()` refuses the answer. */
  function ThreadCount(answer: string, fallback: int): int
  {
    match ParseInt(answer)
    case Some(n) => n
    case None => fallback
  }

  /** An answer that is a number gives that number; an answer the model of
      `int()` refuses gives the fallback: one without a single digit (the empty
      answer, a word), and one whose stripped text has a non-digit after
      its first character ("8a", "1.5"). */
  lemma ThreadCountSpec(answer: string, fallback: int, n: nat)
    ensures ThreadCount(ToDigits(n), fallback) == n
    ensures ParseInt(answer).None? ==> ThreadCount(answer, fallback) == fallback
    ensures (exists i :: 1 <= i < |Trim(answer)| && !IsDigit(Trim(answer)[i])) ==> ThreadCount(answer, fallback) == fallback
    ensures (forall i :: 0 <= i < |answer| ==> !IsDigit(answer[i])) ==> ThreadCount(answer, fallback) == fallback
  {
    ParseIntRoundTrip(n);
    ParseIntSpec(answer);
    if forall i :: 0 <= i < |answer| ==> !IsDigit(answer[i]) {
      var a := TrimStart(answer);
      TrimStartSuffix(answer);
      var t := TrimEnd(a);
      TrimEndPrefix(a);
      forall i | 0 <= i < |t| ensures !IsDigit(t[i]) {
        assert t[i] == a[i] == answer[|answer| - |a| + i];
      }
      if |t| > 1 {
        assert !IsDigit(t[1..][0]);
      }
    }
  }
}
