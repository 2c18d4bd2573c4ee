/** The season logic of main.py: the season answer selects automatic mode
    or an explicit list, and the `while True` loop decides which seasons'
    packs are downloaded and which are processed. Whether a season's
    download succeeds is the function `downloads`. */
module Cli {
  import opened Base
  import opened Strings
  import opened Seasons

  /** `s_in.lower() in ['1-n', 'all', 'n']`; the answer is not stripped. */
  predicate IsAuto(answer: string)
  {
    var l := Lower(answer);
    l == "1-n" || l == "all" || l == "n"
  }

  /** `[int(x) for x in parts if x.strip().isdigit()]`. */
  function Numbers(parts: seq<string>): seq<int>
  {
    if parts == [] then []
    else
      var t := Trim(parts[0]);
      (if AllDigits(t) then [DigitsValue(t) as int] else []) + Numbers(parts[1..])
  }

  /** The season answer of main.py. */
  function SeasonInput(answer: string): Selection
  {
    if IsAuto(answer) then Every else Listed(Numbers(Split(answer, ',')))
  }

  /** Parts whose stripped form is all digits give their value, in order
      and with repetitions; every other part is dropped. */
  lemma {:induction false} NumbersSpec(parts: seq<string>)
    ensures (forall k :: 0 <= k < |parts| ==> !AllDigits(Trim(parts[k]))) ==> Numbers(parts) == []
    ensures (forall k :: 0 <= k < |parts| ==> AllDigits(Trim(parts[k]))) ==>
              && |Numbers(parts)| == |parts|
              && forall k :: 0 <= k < |parts| ==> Numbers(parts)[k] == DigitsValue(Trim(parts[k]))
    ensures |Numbers(parts)| <= |parts|
  {
    if parts != [] {
      NumbersSpec(parts[1..]);
      if forall k :: 0 <= k < |parts| ==> AllDigits(Trim(parts[k])) {
        assert forall k :: 0 <= k < |parts| - 1 ==> AllDigits(Trim(parts[1..][k])) by {
          forall k | 0 <= k < |parts| - 1 ensures AllDigits(Trim(parts[1..][k])) {
            assert parts[1..][k] == parts[k + 1];
          }
        }
        forall k | 0 < k < |parts| ensures Numbers(parts)[k] == DigitsValue(Trim(parts[k])) {
          assert parts[1..][k - 1] == parts[k];
        }
      }
    }
  }

  /** Appending a part appends its value when it strips to digits, and
      nothing otherwise: each part is read on its own, whatever the parts
      around it are. */
  lemma {:induction false} NumbersAppend(parts: seq<string>, p: string)
    ensures Numbers(parts + [p]) ==
              Numbers(parts) + (if AllDigits(Trim(p)) then [DigitsValue(Trim(p)) as int] else [])
  {
    var tail := if AllDigits(Trim(p)) then [DigitsValue(Trim(p)) as int] else [];
    if parts == [] {
      assert [] + [p] == [p];
      assert Numbers([p]) == tail + Numbers([]);
    } else {
      var t := Trim(parts[0]);
      var head := if AllDigits(t) then [DigitsValue(t) as int] else [];
      assert (parts + [p])[0] == parts[0];
      assert (parts + [p])[1..] == parts[1..] + [p];
      NumbersAppend(parts[1..], p);
      assert Numbers(parts + [p]) == head + (Numbers(parts[1..]) + tail);
      assert head + (Numbers(parts[1..]) + tail) == (head + Numbers(parts[1..])) + tail;
    }
  }

  /** `str(n)` for each season. */
  function Written(ns: seq<nat>): seq<string>
  {
    seq(|ns|, i requires 0 <= i < |ns| => ToDigits(ns[i]))
  }

  /** A written season strips to itself and reads back as its number. */
  lemma WrittenPart(n: nat)
    ensures var w := ToDigits(n);
            ',' !in w && Trim(w) == w && AllDigits(Trim(w)) && DigitsValue(Trim(w)) == n
  {
    var w := ToDigits(n);
    assert TrimStart(w) == w;
    assert TrimEnd(w) == w;
    DigitsRoundTrip(n);
    assert forall i :: 0 <= i < |w| ==> w[i] != ',';
  }

  /** Joining digit strings with commas yields only digits and commas. */
  lemma {:induction false} JoinDigits(ws: seq<string>)
    requires forall k :: 0 <= k < |ws| ==> AllDigits(ws[k])
    ensures forall i :: 0 <= i < |Join(ws, ",")| ==> IsDigit(Join(ws, ",")[i]) || Join(ws, ",")[i] == ','
  {
    if |ws| > 1 {
      JoinDigits(ws[1..]);
      var rest := Join(ws[1..], ",");
      assert Join(ws, ",") == ws[0] + "," + rest;
      forall i | 0 <= i < |Join(ws, ",")| ensures IsDigit(Join(ws, ",")[i]) || Join(ws, ",")[i] == ',' {
        if i > |ws[0]| {
          assert Join(ws, ",")[i] == rest[i - |ws[0]| - 1];
        }
      }
    }
  }

  /** Automatic mode ignores case: two answers that agree letter by letter
      up to case select it alike. It does not ignore surrounding blanks: an
      answer selecting it neither starts nor ends with whitespace. */
  lemma IsAutoCase(s: string, t: string)
    requires |s| == |t| && forall i :: 0 <= i < |s| ==> LowerChar(s[i]) == LowerChar(t[i])
    ensures IsAuto(s) <==> IsAuto(t)
    ensures IsAuto(s) ==> |s| > 0 && !IsSpace(s[0]) && !IsSpace(s[|s| - 1])
  {
    assert Lower(s) == Lower(t);
    if IsAuto(s) {
      assert Lower(s)[0] == LowerChar(s[0]);
      assert Lower(s)[|s| - 1] == LowerChar(s[|s| - 1]);
    }
  }

  /** Examples: automatic mode ignores case but not surrounding blanks. */
  lemma IsAutoSpec()
    ensures IsAuto("ALL") && IsAuto("1-N") && IsAuto("n")
    ensures !IsAuto(" all") && !IsAuto("all ") && !IsAuto("1-5")
  {
    assert Lower("ALL") == "all";
    assert Lower("1-N") == "1-n";
    assert Lower("n") == "n";
    assert Lower(" all")[0] == ' ';
    assert Lower("all ")[3] == ' ';
    assert Lower("1-5")[2] == '5';
  }

  /** An answer of digits and commas never selects automatic mode. */
  lemma NotAuto(answer: string)
    requires forall i :: 0 <= i < |answer| ==> IsDigit(answer[i]) || answer[i] == ','
    ensures !IsAuto(answer)
  {
    var l := Lower(answer);
    assert forall i :: 0 <= i < |l| ==> l[i] == answer[i];
    if |l| > 0 {
      assert l[|l| - 1] == answer[|l| - 1];
    }
  }

  /** A list of seasons written as comma-separated numbers reads back as
      itself, in order and with repetitions. */
  lemma SeasonInputRoundTrip(ns: seq<nat>)
    ensures SeasonInput(Join(Written(ns), ",")) == Listed(ns)
  {
    var ws := Written(ns);
    if ns == [] {
      assert Join(ws, ",") == "" && Split("", ',') == [""];
      assert Lower("") == "";
      return;
    }
    var answer := Join(ws, ",");
    forall k | 0 <= k < |ws|
      ensures ',' !in ws[k] && AllDigits(ws[k]) && AllDigits(Trim(ws[k])) && DigitsValue(Trim(ws[k])) == ns[k]
    {
      WrittenPart(ns[k]);
    }
    JoinDigits(ws);
    NotAuto(answer);
    SplitJoin(ws, ',');
    NumbersSpec(ws);
  }

  /** The seasons of the list up to, not including, the first above 50. */
  function UpTo50(s: seq<int>): (r: seq<int>)
    ensures |r| <= |s|
  {
    if s == [] || s[0] > MaxSeason then [] else [s[0]] + UpTo50(s[1..])
  }

  /** `UpTo50` keeps the longest prefix of seasons not above 50. */
  lemma {:induction false} UpTo50Spec(s: seq<int>)
    ensures var r := UpTo50(s);
            && r == s[..|r|]
            && (forall i :: 0 <= i < |r| ==> r[i] <= MaxSeason)
            && (|r| < |s| ==> s[|r|] > MaxSeason)
  {
    if s != [] && s[0] <= MaxSeason {
      UpTo50Spec(s[1..]);
    }
  }

  /** The seasons of `s` whose download succeeds, in order. */
  function Filter(s: seq<int>, downloads: int -> bool): seq<int>
  {
    if s == [] then []
    else Filter(s[..|s| - 1], downloads) + if downloads(s[|s| - 1]) then [s[|s| - 1]] else []
  }

  /** A tried season is processed after the earlier ones exactly when its
      download succeeds. */
  lemma FilterStep(s: seq<int>, x: int, downloads: int -> bool)
    ensures downloads(x) ==> Filter(s + [x], downloads) == Filter(s, downloads) + [x]
    ensures !downloads(x) ==> Filter(s + [x], downloads) == Filter(s, downloads)
  {
    assert (s + [x])[..|s|] == s;
  }

  /** `Filter` keeps exactly the seasons whose download succeeds. */
  lemma {:induction false} FilterSpec(s: seq<int>, downloads: int -> bool)
    ensures forall x :: x in Filter(s, downloads) <==> x in s && downloads(x)
  {
    if s != [] {
      FilterSpec(s[..|s| - 1], downloads);
      assert s == s[..|s| - 1] + [s[|s| - 1]];
    }
  }

  /** Seasons 1, 2, ... tried in turn, each but the last downloaded, the
      last failed or season 50: that is what automatic mode tries. */
  lemma AutoRunExact(downloads: int -> bool, t: seq<int>)
    requires 1 <= |t| <= MaxSeason
    requires forall k :: 0 <= k < |t| ==> t[k] == k + 1
    requires forall k :: 0 <= k < |t| - 1 ==> downloads(t[k])
    requires !downloads(|t|) || |t| == MaxSeason
    ensures AutoRun(downloads, 1) == t
  {
    AutoRunSpec(downloads, 1);
    SameRun(downloads, AutoRun(downloads, 1), t);
  }

  /** Two runs of consecutive seasons from 1, each stopping at its first
      failure or at season 50, are the same run. */
  lemma SameRun(downloads: int -> bool, r: seq<int>, t: seq<int>)
    requires 1 <= |r| <= MaxSeason && 1 <= |t| <= MaxSeason
    requires forall k :: 0 <= k < |r| ==> r[k] == 1 + k
    requires forall k :: 0 <= k < |t| ==> t[k] == k + 1
    requires forall k :: 0 <= k < |r| - 1 ==> downloads(r[k])
    requires forall k :: 0 <= k < |t| - 1 ==> downloads(t[k])
    requires !downloads(r[|r| - 1]) || r[|r| - 1] == MaxSeason
    requires !downloads(|t|) || |t| == MaxSeason
    ensures r == t
  {
    forall s | 1 <= s < |r| ensures downloads(s) {
      assert r[s - 1] == s;
    }
    forall s | 1 <= s < |t| ensures downloads(s) {
      assert t[s - 1] == s;
    }
    assert r[|r| - 1] == |r|;
  }

  /** A list's first seasons, all at most 50, up to its end or to a
      season above 50: that is what `UpTo50` keeps. */
  lemma UpTo50Exact(s: seq<int>, t: seq<int>)
    requires |t| <= |s|
    requires forall k :: 0 <= k < |t| ==> t[k] == s[k] && s[k] <= MaxSeason
    requires |t| == |s| || s[|t|] > MaxSeason
    ensures UpTo50(s) == t
  {
    UpTo50Spec(s);
    assert s[..|t|] == t;
  }

  /** Automatic mode after `tried`: seasons 1, 2, ... in turn, each but
      the last downloaded; while going the last one was downloaded too, and
      once stopped it failed or was season 50. */
  ghost predicate AutoSoFar(tried: seq<int>, going: bool, downloads: int -> bool)
  {
    && |tried| <= MaxSeason
    && (forall k :: 0 <= k < |tried| ==> tried[k] == k + 1)
    && (forall k :: 0 <= k < |tried| - 1 ==> downloads(tried[k]))
    && (going && |tried| > 0 ==> downloads(|tried|))
    && (!going ==> 1 <= |tried| && (!downloads(|tried|) || |tried| == MaxSeason))
  }

  /** List mode after `tried`: the list's first seasons, none above 50;
      once stopped, the list ended or its next season is above 50. */
  ghost predicate ListSoFar(tried: seq<int>, going: bool, seasons: seq<int>)
  {
    && |tried| <= |seasons|
    && (forall k :: 0 <= k < |tried| ==> tried[k] == seasons[k] && seasons[k] <= MaxSeason)
    && (!going ==> |tried| == |seasons| || seasons[|tried|] > MaxSeason)
  }

  /** Automatic mode tries the next season, or stops after season 50. */
  lemma AutoNext(tried: seq<int>, downloads: int -> bool)
    requires AutoSoFar(tried, true, downloads)
    ensures |tried| + 1 > MaxSeason ==> AutoSoFar(tried, false, downloads)
    ensures |tried| + 1 <= MaxSeason ==>
              AutoSoFar(tried + [|tried| + 1], downloads(|tried| + 1), downloads)
  {
  }

  /** List mode tries the next season, or stops at the end of the list or
      at a season above 50. */
  lemma ListNext(tried: seq<int>, seasons: seq<int>)
    requires ListSoFar(tried, true, seasons)
    ensures |tried| >= |seasons| || seasons[|tried|] > MaxSeason ==> ListSoFar(tried, false, seasons)
    ensures |tried| < |seasons| && seasons[|tried|] <= MaxSeason ==>
              ListSoFar(tried + [seasons[|tried|]], true, seasons) &&
              (|tried| + 1 >= |seasons| ==> ListSoFar(tried + [seasons[|tried|]], false, seasons))
  {
  }

  /** The season loop of `main`: the seasons whose download is tried, in
      order, and those processed. Automatic mode tries 1, 2, ... and stops
      at the first failed download or after season 50; list mode tries the
      list in order, skipping failures, and a season above 50 ends the whole
      loop. */
  method RunSeasons(sel: Selection, downloads: int -> bool) returns (tried: seq<int>, processed: seq<int>)
    ensures sel.Every? ==> tried == AutoRun(downloads, 1)
    ensures sel.Listed? ==> tried == UpTo50(sel.seasons)
    ensures processed == Filter(tried, downloads)
  {
    tried, processed := [], [];
    var idx: nat := 0;
    // `going` turns false where the loop of `main` breaks
    var going := true;
    while going
      invariant |tried| == idx
      invariant processed == Filter(tried, downloads)
      invariant sel.Every? ==> AutoSoFar(tried, going, downloads)
      invariant sel.Listed? ==> ListSoFar(tried, going, sel.seasons)
      decreases going, if sel.Every? then MaxSeason - idx else |sel.seasons| - idx
    {
      if sel.Every? {
        AutoNext(tried, downloads);
      } else {
        ListNext(tried, sel.seasons);
      }
      if sel.Listed? && idx >= |sel.seasons| {
        going := false;
      } else {
        var sNum := if sel.Every? then idx + 1 else sel.seasons[idx];
        if sNum > MaxSeason {
          going := false;
        } else {
          FilterStep(tried, sNum, downloads);
          idx := idx + 1;
          tried := tried + [sNum];
          var success := downloads(sNum);
          if !success {
            // automatic mode stops at the first failure, list mode skips it
            going := sel.Listed?;
          } else {
            processed := processed + [sNum];
            if sel.Listed? && sel.seasons != [] && idx >= |sel.seasons| {
              going := false;
            }
          }
        }
      }
    }
    if sel.Every? {
      AutoRunExact(downloads, tried);
    } else {
      UpTo50Exact(sel.seasons, tried);
    }
  }
}
