/** Episode tags taken from subtitle file names. Both launchers search the
    file name, ignoring case, for `S<digits>E<digits>` or
    `<digits><separator><digits>`, and fall back to the first ten
    characters. They differ only in the separators allowed in the second
    form: `[xXeE]` in subsync.py, `x` (either case) in src/subtitle.py.
    The two alternatives begin with a letter and with a digit respectively,
    so they can never both match at one position and their order in the
    pattern does not matter. The regular expression is replaced by a
    hand-written scanner, proved to find the leftmost, longest match. */
module Tags {
  import opened Base
  import opened Strings

  /** Separators of the digit-separator-digit form in subsync.py. */
  const SubsyncSeparators: set<char> := {'x', 'X', 'e', 'E'}
  /** Separators of the digit-separator-digit form in src/subtitle.py. */
  const SubtitleSeparators: set<char> := {'x', 'X'}
  /** Length of the fallback tag, `name[:10]`. */
  const FallbackLength: nat := 10

  predicate LetterSeparators(seps: set<char>)
  {
    forall c :: c in seps ==> !IsDigit(c)
  }

  /** `w` is wholly `\d+[seps]\d+`. */
  ghost predicate Numbered(w: string, seps: set<char>)
  {
    exists i :: 0 < i < |w| - 1 && AllDigits(w[..i]) && w[i] in seps && AllDigits(w[i + 1..])
  }

  /** `w` is wholly `S\d+E\d+`, ignoring case. */
  ghost predicate SeasonEpisode(w: string)
  {
    w != [] && w[0] in {'s', 'S'} && Numbered(w[1..], {'e', 'E'})
  }

  /** `s[p..e]` is a match of the tag pattern. */
  ghost predicate MatchesAt(s: string, p: int, e: int, seps: set<char>)
  {
    0 <= p <= e <= |s| && (Numbered(s[p..e], seps) || SeasonEpisode(s[p..e]))
  }

  /** What `re.search` reports: the match that starts first, and of those
      starting there the longest (the pattern's `\d+` are greedy). */
  ghost predicate LeftmostLongest(s: string, p: int, e: int, seps: set<char>)
  {
    && MatchesAt(s, p, e, seps)
    && (forall q, f :: q < p ==> !MatchesAt(s, q, f, seps))
    && (forall f :: e < f ==> !MatchesAt(s, p, f, seps))
  }

  /** End of the run of ASCII digits starting at `p`. */
  function DigitRunEnd(s: string, p: nat): (q: nat)
    requires p <= |s|
    ensures p <= q <= |s|
    ensures forall i :: p <= i < q ==> IsDigit(s[i])
    ensures q == |s| || !IsDigit(s[q])
    decreases |s| - p
  {
    if p < |s| && IsDigit(s[p]) then DigitRunEnd(s, p + 1) else p
  }

  /** End of the match of `\d+[seps]\d+` starting at `p`, if any. */
  function ScanNumbered(s: string, p: nat, seps: set<char>): (r: Option<nat>)
    requires p <= |s|
    ensures r.Some? ==> p < r.value <= |s|
  {
    var q := DigitRunEnd(s, p);
    if p < q < |s| && s[q] in seps then
      var e := DigitRunEnd(s, q + 1);
      if q + 1 < e then Some(e) else None
    else None
  }

  /** End of the match of the whole pattern starting at `p`, if any. */
  function ScanAt(s: string, p: nat, seps: set<char>): (r: Option<nat>)
    requires p <= |s|
    ensures r.Some? ==> p < r.value <= |s|
  {
    if p < |s| && IsDigit(s[p]) then ScanNumbered(s, p, seps)
    else if p < |s| && s[p] in {'s', 'S'} then ScanNumbered(s, p + 1, {'e', 'E'})
    else None
  }

  /** The first match at or after `p`, as (start, end). */
  function Search(s: string, seps: set<char>, p: nat): (r: Option<(nat, nat)>)
    requires p <= |s|
    ensures r.Some? ==> p <= r.value.0 < r.value.1 <= |s|
    decreases |s| - p
  {
    if p == |s| then None
    else match ScanAt(s, p, seps)
      case Some(e) => Some((p, e))
      case None => Search(s, seps, p + 1)
  }

  lemma ScanNumberedSound(s: string, p: nat, seps: set<char>)
    requires p <= |s|
    ensures ScanNumbered(s, p, seps).Some? ==>
              var e := ScanNumbered(s, p, seps).value;
              p < e <= |s| && Numbered(s[p..e], seps)
  {
    if ScanNumbered(s, p, seps).Some? {
      var q := DigitRunEnd(s, p);
      var e := ScanNumbered(s, p, seps).value;
      var w := s[p..e];
      assert w[..q - p] == s[p..q] && w[q - p + 1..] == s[q + 1..e];
      assert AllDigits(w[..q - p]) && w[q - p] in seps && AllDigits(w[q - p + 1..]);
    }
  }

  /** Any match of `\d+[seps]\d+` at `p` is found, and ends no later than
      the one the scanner reports. */
  lemma ScanNumberedComplete(s: string, p: nat, f: nat, seps: set<char>)
    requires LetterSeparators(seps)
    requires p <= f <= |s| && Numbered(s[p..f], seps)
    ensures ScanNumbered(s, p, seps).Some? && f <= ScanNumbered(s, p, seps).value
  {
    var w := s[p..f];
    var i :| 0 < i < |w| - 1 && AllDigits(w[..i]) && w[i] in seps && AllDigits(w[i + 1..]);
    assert forall k :: p <= k < p + i ==> IsDigit(s[k]) by {
      forall k | p <= k < p + i ensures IsDigit(s[k]) {
        assert s[k] == w[..i][k - p];
      }
    }
    assert s[p + i] == w[i];
    var q := DigitRunEnd(s, p);
    assert q == p + i;
    assert forall k :: p + i + 1 <= k < f ==> IsDigit(s[k]) by {
      forall k | p + i + 1 <= k < f ensures IsDigit(s[k]) {
        assert s[k] == w[i + 1..][k - p - i - 1];
      }
    }
    var e := DigitRunEnd(s, q + 1);
    assert f <= e;
  }

  lemma ScanAtSound(s: string, p: nat, seps: set<char>)
    requires p <= |s|
    ensures ScanAt(s, p, seps).Some? ==> MatchesAt(s, p, ScanAt(s, p, seps).value, seps)
  {
    if p < |s| && IsDigit(s[p]) {
      ScanNumberedSound(s, p, seps);
    } else if p < |s| && s[p] in {'s', 'S'} {
      ScanNumberedSound(s, p + 1, {'e', 'E'});
      if ScanAt(s, p, seps).Some? {
        var e := ScanAt(s, p, seps).value;
        assert s[p..e][1..] == s[p + 1..e];
      }
    }
  }

  /** Every match at `p` is found by the scanner, which returns the longest. */
  lemma ScanAtComplete(s: string, p: nat, f: nat, seps: set<char>)
    requires LetterSeparators(seps)
    requires MatchesAt(s, p, f, seps)
    ensures ScanAt(s, p, seps).Some? && f <= ScanAt(s, p, seps).value
  {
    var w := s[p..f];
    if Numbered(w, seps) {
      var i :| 0 < i < |w| - 1 && AllDigits(w[..i]) && w[i] in seps && AllDigits(w[i + 1..]);
      assert s[p] == w[..i][0];
      ScanNumberedComplete(s, p, f, seps);
    } else {
      assert w[1..] == s[p + 1..f];
      ScanNumberedComplete(s, p + 1, f, {'e', 'E'});
    }
  }

  /** The scanner at `p` finds the longest match starting there, or
      reports none when there is none. */
  lemma ScanAtExact(s: string, p: nat, seps: set<char>)
    requires LetterSeparators(seps)
    requires p <= |s|
    ensures ScanAt(s, p, seps).None? ==> forall f :: !MatchesAt(s, p, f, seps)
    ensures ScanAt(s, p, seps).Some? ==>
              && MatchesAt(s, p, ScanAt(s, p, seps).value, seps)
              && forall f :: ScanAt(s, p, seps).value < f ==> !MatchesAt(s, p, f, seps)
  {
    ScanAtSound(s, p, seps);
    forall f | MatchesAt(s, p, f, seps) ensures ScanAt(s, p, seps).Some? && f <= ScanAt(s, p, seps).value {
      ScanAtComplete(s, p, f, seps);
    }
  }

  /** No match starts at the end of the name or beyond. */
  lemma NoMatchAtEnd(s: string, q: int, f: int, seps: set<char>)
    requires LetterSeparators(seps)
    requires |s| <= q
    ensures !MatchesAt(s, q, f, seps)
  {
    if MatchesAt(s, q, f, seps) {
      ScanAtComplete(s, q, f, seps);
    }
  }

  /** No match starts at `p0` or later. */
  ghost predicate NoMatchFrom(s: string, p0: int, seps: set<char>)
  {
    forall q, f :: p0 <= q ==> !MatchesAt(s, q, f, seps)
  }

  /** `s[p..e]` is the first match starting at `p0` or later, and the
      longest starting at `p`. */
  ghost predicate FirstMatchFrom(s: string, p0: int, p: int, e: int, seps: set<char>)
  {
    && p0 <= p
    && MatchesAt(s, p, e, seps)
    && (forall q, f :: p0 <= q < p ==> !MatchesAt(s, q, f, seps))
    && (forall f :: e < f ==> !MatchesAt(s, p, f, seps))
  }

  /** The search reports exactly the leftmost, longest match at or after
      `p0`, or nothing when there is no match there. */
  lemma {:induction false} SearchSpec(s: string, seps: set<char>, p0: nat)
    requires LetterSeparators(seps)
    requires p0 <= |s|
    ensures Search(s, seps, p0).None? ==> NoMatchFrom(s, p0, seps)
    ensures Search(s, seps, p0).Some? ==>
              FirstMatchFrom(s, p0, Search(s, seps, p0).value.0, Search(s, seps, p0).value.1, seps)
    decreases |s| - p0
  {
    if p0 == |s| {
      forall q, f | p0 <= q ensures !MatchesAt(s, q, f, seps) {
        NoMatchAtEnd(s, q, f, seps);
      }
    } else {
      ScanAtExact(s, p0, seps);
      if ScanAt(s, p0, seps).None? {
        SearchSpec(s, seps, p0 + 1);
        var r := Search(s, seps, p0 + 1);
        assert Search(s, seps, p0) == r;
        if r.None? {
          forall q, f | p0 <= q ensures !MatchesAt(s, q, f, seps) {
            if q > p0 {
              assert NoMatchFrom(s, p0 + 1, seps);
            }
          }
        } else {
          var (p, e) := r.value;
          assert FirstMatchFrom(s, p0 + 1, p, e, seps);
          forall q, f | p0 <= q < p ensures !MatchesAt(s, q, f, seps) {
          }
        }
      }
    }
  }

  /** The episode tag: the upper-cased match, or the first ten characters. */
  function Tag(name: string, seps: set<char>): string
  {
    match Search(name, seps, 0)
    case Some((p, e)) => Upper(name[p..e])
    case None => name[..if |name| < FallbackLength then |name| else FallbackLength]
  }

  /** The tag is the upper-cased leftmost, longest match of the pattern when
      the name has one, and the name's first ten characters otherwise. */
  lemma TagSpec(name: string, seps: set<char>)
    requires LetterSeparators(seps)
    ensures (forall q, f :: !MatchesAt(name, q, f, seps)) ==>
              Tag(name, seps) == name[..if |name| < FallbackLength then |name| else FallbackLength]
    ensures (exists q, f :: MatchesAt(name, q, f, seps)) ==>
              exists p, e :: LeftmostLongest(name, p, e, seps) && Tag(name, seps) == Upper(name[p..e])
    ensures forall p, e :: LeftmostLongest(name, p, e, seps) ==> Tag(name, seps) == Upper(name[p..e])
  {
    SearchSpec(name, seps, 0);
    if Search(name, seps, 0).Some? {
      var (p, e) := Search(name, seps, 0).value;
      assert FirstMatchFrom(name, 0, p, e, seps);
      assert LeftmostLongest(name, p, e, seps);
      forall p', e' | LeftmostLongest(name, p', e', seps) ensures p' == p && e' == e {
      }
    }
  }
}
