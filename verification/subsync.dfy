/** The single-file pipeline of subsync.py: its season parser, its
    single-line translator with cache, the merge loop that pairs every
    English caption with the overlapping Spanish captions (or a
    translation) and suppresses repeated translations, the names of its
    output files, and its season loop. */
module SubSync {
  import opened Base
  import opened Strings
  import Tags
  import opened Seasons
  import opened Captions

  // ---------------------------------------------------------------------
  // parse_seasons
  // ---------------------------------------------------------------------

  /** `range(a, b + 1)`. */
  function Range(a: int, b: int): (r: seq<int>)
    ensures |r| == (if a <= b then b - a + 1 else 0)
    ensures forall i :: 0 <= i < |r| ==> r[i] == a + i
    decreases b - a + 1
  {
    if a > b then [] else [a] + Range(a + 1, b)
  }

  /** The seasons one comma-separated part stands for: `a-b` is the range
      from `a` to `b`, anything else a single number; `None` where the model
      of `int()` refuses or the unpacking into two ends raises. */
  function PartSeasons(part: string): Option<seq<int>>
  {
    if '-' in part then
      var ends := Split(part, '-');
      if |ends| == 2 && ParseInt(ends[0]).Some? && ParseInt(ends[1]).Some? then
        Some(Range(ParseInt(ends[0]).value, ParseInt(ends[1]).value))
      else None
    else
      match ParseInt(part)
      case Some(n) => Some([n])
      case None => None
  }

  /** The seasons of the first `n` parts, in order, or `None` once one of
      them fails; `parse` reads one part. */
  function Gather(parts: seq<string>, n: nat, parse: string -> Option<seq<int>>): Option<seq<int>>
    requires n <= |parts|
  {
    if n == 0 then Some([])
    else
      match Gather(parts, n - 1, parse)
      case None => None
      case Some(prev) =>
        match parse(parts[n - 1])
        case None => None
        case Some(more) => Some(prev + more)
  }

  /** One unparsable part spoils the whole list. */
  lemma {:induction false} GatherFail(parts: seq<string>, n: nat, parse: string -> Option<seq<int>>)
    requires n <= |parts|
    ensures Gather(parts, n, parse).None? <==> exists i :: 0 <= i < n && parse(parts[i]).None?
  {
    if n > 0 {
      GatherFail(parts, n - 1, parse);
      if Gather(parts, n - 1, parse).Some? && parse(parts[n - 1]).None? {
        assert 0 <= n - 1 < n && parse(parts[n - 1]).None?;
      }
    }
  }

  /** What `str(a) + "-" + str(b)` stands for is the range from `a` to `b`. */
  lemma RangePart(a: nat, b: nat)
    ensures PartSeasons(ToDigits(a) + "-" + ToDigits(b)) == Some(Range(a, b))
  {
    var part := ToDigits(a) + "-" + ToDigits(b);
    assert part[|ToDigits(a)|] == '-';
    assert '-' !in ToDigits(a) && '-' !in ToDigits(b);
    SplitAfterPrefix(ToDigits(a), ToDigits(b), '-');
    SplitNoSeparator(ToDigits(b), '-');
    ParseIntRoundTrip(a);
    ParseIntRoundTrip(b);
  }

  /** What `str(n)` stands for is the season `n` alone. */
  lemma SinglePart(n: nat)
    ensures PartSeasons(ToDigits(n)) == Some([n])
  {
    assert '-' !in ToDigits(n);
    ParseIntRoundTrip(n);
  }

  predicate Strict(s: seq<int>)
  {
    forall i, j :: 0 <= i < j < |s| ==> s[i] < s[j]
  }

  /** A value below every element of a strictly increasing list can lead it. */
  lemma StrictCons(x: int, s: seq<int>)
    requires Strict(s)
    requires forall y :: y in s ==> x < y
    ensures Strict([x] + s)
  {
    forall i, j | 0 <= i < j < |s| + 1 ensures ([x] + s)[i] < ([x] + s)[j] {
      assert ([x] + s)[j] == s[j - 1] && s[j - 1] in s;
      if i > 0 {
        assert ([x] + s)[i] == s[i - 1];
      }
    }
  }

  /** Insertion into a strictly increasing list without duplicates. */
  function Insert(x: int, s: seq<int>): (r: seq<int>)
    requires Strict(s)
    ensures Strict(r)
    ensures forall y :: y in r <==> y == x || y in s
  {
    if s == [] then [x]
    else if x < s[0] then
      assert forall y :: y in s ==> x < y by {
        forall y | y in s ensures x < y {
          var k :| 0 <= k < |s| && s[k] == y;
          assert k == 0 || s[0] < s[k];
        }
      }
      StrictCons(x, s);
      [x] + s
    else if x == s[0] then s
    else
      var rest := Insert(x, s[1..]);
      assert forall y :: y in s[1..] ==> s[0] < y by {
        forall y | y in s[1..] ensures s[0] < y {
          var k :| 0 <= k < |s[1..]| && s[1..][k] == y;
          assert s[1..][k] == s[k + 1];
        }
      }
      StrictCons(s[0], rest);
      [s[0]] + rest
  }

  /** `sorted(list(set(xs)))`: the values of `xs`, each once, ascending. */
  function SortUnique(xs: seq<int>): (r: seq<int>)
    ensures Strict(r)
    ensures forall y :: y in r <==> y in xs
  {
    if xs == [] then []
    else
      var r := Insert(xs[|xs| - 1], SortUnique(xs[..|xs| - 1]));
      assert forall y :: y in xs <==> y == xs[|xs| - 1] || y in xs[..|xs| - 1] by {
        assert xs == xs[..|xs| - 1] + [xs[|xs| - 1]];
      }
      r
  }

  /** The words that select every season. */
  predicate IsAll(s: string)
  {
    s == "all" || s == "todas" || s == "1-n"
  }

  /** The list `parse_seasons` returns for the comma-separated `parts`:
      empty once a part fails, otherwise the seasons named, ascending and
      each once. */
  ghost predicate Chosen(parts: seq<string>, seasons: seq<int>)
  {
    match Gather(parts, |parts|, PartSeasons)
    case None => seasons == []
    case Some(xs) => Strict(seasons) && forall y :: y in seasons <==> y in xs
  }

  /** One more part: a part that fails spoils the whole list, and one that
      parses extends the seasons so far. */
  lemma PartStep(parts: seq<string>, i: nat, prev: seq<int>)
    requires i < |parts| && Gather(parts, i, PartSeasons) == Some(prev)
    ensures PartSeasons(parts[i]).None? ==> Chosen(parts, [])
    ensures PartSeasons(parts[i]).Some? ==> Gather(parts, i + 1, PartSeasons) == Some(prev + PartSeasons(parts[i]).value)
  {
    GatherFail(parts, |parts|, PartSeasons);
  }

  /** `parse_seasons(input_str)`: `Every` for the words that select all
      seasons, the empty list when any part does not parse, and otherwise
      the seasons named, ascending and each once. */
  method ParseSeasons(input: string) returns (sel: Selection)
    ensures sel.Every? <==> IsAll(Trim(Lower(input)))
    ensures sel.Listed? ==> Chosen(Split(Trim(Lower(input)), ','), sel.seasons)
  {
    var s := Trim(Lower(input));
    if IsAll(s) {
      return Every;
    }
    var seasons: seq<int> := [];
    var parts := Split(s, ',');
    for i := 0 to |parts|
      invariant Gather(parts, i, PartSeasons) == Some(seasons)
    {
      var part := parts[i];
      PartStep(parts, i, seasons);
      if '-' in part {
        var ends := Split(part, '-');
        if |ends| != 2 {
          return Listed([]);
        }
        var start := ParseInt(ends[0]);
        var end := ParseInt(ends[1]);
        if start.None? || end.None? {
          return Listed([]);
        }
        seasons := seasons + Range(start.value, end.value);
      } else {
        var n := ParseInt(part);
        if n.None? {
          return Listed([]);
        }
        seasons := seasons + [n.value];
      }
    }
    sel := Listed(SortUnique(seasons));
  }

  // ---------------------------------------------------------------------
  // translate_text
  // ---------------------------------------------------------------------

  /** The answer of one lookup, the cache after it, and whether the
      translator was called. */
  datatype Lookup = Lookup(result: string, cache: map<string, string>, called: bool)

  /** `translate_text(text)`: empty text gives the empty string, a cached
      text its cached translation; otherwise the translator is called, and
      its answer is cached and returned, or on failure the empty string is
      returned. `translate` answers `None` where the call raises. */
  function LookupText(cache: map<string, string>, text: string, translate: string -> Option<string>): Lookup
  {
    if text == "" then Lookup("", cache, false)
    else if text in cache then Lookup(cache[text], cache, false)
    else
      match translate(text)
      case Some(t) => Lookup(t, cache[text := t], true)
      case None => Lookup("", cache, true)
  }

  /** The translator is called exactly for a non-empty text not yet cached;
      the cache only gains the looked-up text, and only when the call
      succeeded; after a success or a hit the same lookup is a hit with the
      same answer. Empty text and a failed call give the empty string, a
      hit the cached translation, and a successful call its answer, which
      is cached. */
  lemma LookupSpec(cache: map<string, string>, text: string, translate: string -> Option<string>)
    ensures var l := LookupText(cache, text, translate);
            && (text == "" ==> l.result == "" && l.cache == cache)
            && (text != "" && text in cache ==> l.result == cache[text] && l.cache == cache)
            && (text != "" && text !in cache && translate(text).None? ==> l.result == "" && l.cache == cache)
            && (text != "" && text !in cache && translate(text).Some? ==>
                  l.result == translate(text).value && l.cache == cache[text := translate(text).value])
    ensures var l := LookupText(cache, text, translate);
            && (l.called <==> text != "" && text !in cache)
            && (forall k :: k in cache ==> k in l.cache && l.cache[k] == cache[k])
            && (forall k :: k in l.cache && k !in cache ==> k == text && l.called && translate(text).Some?)
            && (text in l.cache ==>
                  var again := LookupText(l.cache, text, translate);
                  again.result == l.result && !again.called && again.cache == l.cache)
  {
  }

  /** The translator's cache, `TRANSLATION_CACHE` of subsync.py. */
  class TextTranslator {
    var cache: map<string, string>

    constructor (loaded: map<string, string>)
      ensures cache == loaded
    {
      cache := loaded;
    }

    /** `translate_text(text)`. */
    method TranslateText(text: string, translate: string -> Option<string>) returns (r: string)
      modifies this
      ensures var l := LookupText(old(cache), text, translate);
              r == l.result && cache == l.cache
    {
      if text == "" {
        return "";
      }
      if text in cache {
        return cache[text];
      }
      match translate(text) {
        case Some(t) =>
          cache := cache[text := t];
          r := t;
        case None =>
          r := "";
      }
    }
  }

  // ---------------------------------------------------------------------
  // The merge loop of process_single_episode
  // ---------------------------------------------------------------------

  /** A Spanish caption is paired with an English one when their time
      intervals overlap. */
  predicate Overlaps(f: Line, src: Line)
  {
    f.start < src.end && f.end > src.start
  }

  /** The cleaned texts of the Spanish captions overlapping `src`, in track
      order: the list `ms`. */
  function Fragments(src: Line, foreign: seq<Line>): seq<string>
  {
    var idx := Indices(foreign, (f: Line) => Overlaps(f, src), |foreign|);
    seq(|idx|, k requires 0 <= k < |idx| => Clean(foreign[idx[k]].text))
  }

  /** Every fragment is the cleaned text of an overlapping caption, every
      overlapping caption contributes its cleaned text, and fragments
      keep the track's order. */
  lemma FragmentsSpec(src: Line, foreign: seq<Line>)
    ensures var ms := Fragments(src, foreign);
            var idx := Indices(foreign, (f: Line) => Overlaps(f, src), |foreign|);
            && |ms| == |idx|
            && (forall k :: 0 <= k < |idx| ==> Overlaps(foreign[idx[k]], src) && ms[k] == Clean(foreign[idx[k]].text))
            && (forall k, l :: 0 <= k < l < |idx| ==> idx[k] < idx[l])
            && (forall i :: 0 <= i < |foreign| && Overlaps(foreign[i], src) ==> Clean(foreign[i].text) in ms)
  {
    var idx := Indices(foreign, (f: Line) => Overlaps(f, src), |foreign|);
    var ms := Fragments(src, foreign);
    forall i | 0 <= i < |foreign| && Overlaps(foreign[i], src) ensures Clean(foreign[i].text) in ms {
      assert ((f: Line) => Overlaps(f, src))(foreign[i]);
      var k :| 0 <= k < |idx| && idx[k] == i;
      assert ms[k] == Clean(foreign[i].text);
    }
  }

  /** `list(dict.fromkeys(s))`: the values of `s`, each once, in the order
      of their first occurrence. */
  function Dedupe(s: seq<string>): seq<string>
  {
    if s == [] then []
    else
      var prev := Dedupe(s[..|s| - 1]);
      if s[|s| - 1] in prev then prev else prev + [s[|s| - 1]]
  }

  /** The position of the first occurrence of `x` in `s`. */
  function FirstIndex(s: seq<string>, x: string): (i: nat)
    requires x in s
    ensures i < |s| && s[i] == x && forall j :: 0 <= j < i ==> s[j] != x
  {
    if x in s[..|s| - 1] then FirstIndex(s[..|s| - 1], x) else |s| - 1
  }

  /** Deduplication keeps every value, repeats none, and keeps the order of
      first occurrences. */
  lemma {:induction false} DedupeSpec(s: seq<string>)
    ensures var r := Dedupe(s);
            && (forall x :: x in r <==> x in s)
            && (forall i, j :: 0 <= i < j < |r| ==> r[i] != r[j])
            && (forall i, j :: 0 <= i < j < |r| ==> FirstIndex(s, r[i]) < FirstIndex(s, r[j]))
  {
    if s != [] {
      var init := s[..|s| - 1];
      var x := s[|s| - 1];
      DedupeSpec(init);
      var prev := Dedupe(init);
      assert s == init + [x];
      forall y | y in init ensures FirstIndex(s, y) == FirstIndex(init, y) < |init| {
      }
      if x !in prev {
        assert x !in init;
        assert FirstIndex(s, x) == |s| - 1;
        var r := prev + [x];
        forall i, j | 0 <= i < j < |r| ensures r[i] != r[j] {
          if j == |prev| {
            assert r[i] == prev[i] && prev[i] in prev;
          }
        }
      }
    }
  }

  /** `match_txt` from the Spanish track: the distinct overlapping
      fragments joined by single spaces. */
  function OverlapText(src: Line, foreign: seq<Line>): string
  {
    Join(Dedupe(Fragments(src, foreign)), " ")
  }

  /** `match_txt` is empty when no Spanish caption overlaps, and not empty
      once an overlapping caption has a non-blank cleaned text. */
  lemma OverlapTextSpec(src: Line, foreign: seq<Line>)
    ensures (forall i :: 0 <= i < |foreign| ==> !Overlaps(foreign[i], src)) ==> OverlapText(src, foreign) == ""
    ensures (exists i :: 0 <= i < |foreign| && Overlaps(foreign[i], src) && Clean(foreign[i].text) != "") ==>
              OverlapText(src, foreign) != ""
  {
    var ms := Fragments(src, foreign);
    FragmentsSpec(src, foreign);
    DedupeSpec(ms);
    var ds := Dedupe(ms);
    JoinLength(ds, " ");
    if exists i :: 0 <= i < |foreign| && Overlaps(foreign[i], src) && Clean(foreign[i].text) != "" {
      var i :| 0 <= i < |foreign| && Overlaps(foreign[i], src) && Clean(foreign[i].text) != "";
      assert Clean(foreign[i].text) in ds;
    }
  }

  /** Without a Spanish track there is nothing to pair with. */
  lemma NoForeignNoOverlap(src: Line)
    ensures OverlapText(src, []) == ""
  {
    assert Fragments(src, []) == [];
  }

  /** What the merge loop uses of one English caption: its text, its
      cleaned text `txt`, and the overlapping Spanish text `match_txt`
      (empty when there is none or no Spanish track). */
  datatype Cue = Cue(text: string, txt: string, overlap: string)

  /** The cues of an English track against a Spanish one. */
  function Cues(track: seq<Line>, foreign: seq<Line>): seq<Cue>
  {
    seq(|track|, i requires 0 <= i < |track| => CueOf(track[i], foreign))
  }

  /** The merge loop's state after some captions: their new texts, the
      cache, `last_match_txt`, the translations shown so far, and the
      number of translator calls. */
  datatype Merged = Merged(texts: seq<string>, cache: map<string, string>, last: string,
                           shown: seq<string>, calls: nat)

  /** The candidate of a non-blank caption: the overlapping Spanish text,
      or else the translation of its cleaned text. */
  function Candidate(cache: map<string, string>, c: Cue, translate: string -> Option<string>): Lookup
  {
    if c.overlap != "" then Lookup(c.overlap, cache, false) else LookupText(cache, c.txt, translate)
  }

  /** The cache only grows while candidates are found, and the translator
      is called only when there is no overlapping text. */
  lemma CandidateSpec(cache: map<string, string>, c: Cue, translate: string -> Option<string>)
    ensures var l := Candidate(cache, c, translate);
            && (forall k :: k in cache ==> k in l.cache && l.cache[k] == cache[k])
            && (c.overlap != "" ==> !l.called && l.cache == cache)
            && (l.called ==> c.overlap == "" && c.txt != "" && c.txt !in cache)
  {
    LookupSpec(cache, c.txt, translate);
  }

  /** The anti-echo rule for a non-blank caption with cleaned text `txt`
      and candidate `l`. */
  function Emit(m: Merged, txt: string, l: Lookup): (r: Merged)
    ensures |r.texts| == |m.texts| + 1 && r.cache == l.cache
    // no candidate: the cleaned text alone
    ensures l.result == "" ==> r.texts == m.texts + [txt] && r.last == m.last && r.shown == m.shown
    // the candidate repeats a long last translation: the yellow text alone
    ensures l.result != "" && l.result == m.last && |l.result| > 5 ==>
              r.texts == m.texts + [Yellow(txt)] && r.last == m.last && r.shown == m.shown
    // otherwise the candidate is shown beneath and becomes the last one
    ensures l.result != "" && !(l.result == m.last && |l.result| > 5) ==>
              r.texts == m.texts + [Dual(txt, l.result)] && r.last == l.result && r.shown == m.shown + [l.result]
  {
    var cand := l.result;
    var m1 := m.(cache := l.cache, calls := m.calls + if l.called then 1 else 0);
    if cand == "" then m1.(texts := m.texts + [txt])
    else if cand == m.last && |cand| > 5 then m1.(texts := m.texts + [Yellow(txt)])
    else m1.(texts := m.texts + [Dual(txt, cand)], last := cand, shown := m.shown + [cand])
  }

  /** One iteration of the merge loop, for the caption of cue `c`. */
  function MergeLine(m: Merged, c: Cue, translate: string -> Option<string>): (r: Merged)
    ensures |r.texts| == |m.texts| + 1 && r.texts == m.texts + [r.texts[|m.texts|]]
  {
    if c.txt == "" then m.(texts := m.texts + [c.text])
    else Emit(m, c.txt, Candidate(m.cache, c, translate))
  }

  /** The translation a caption shows beneath its cleaned text `txt`: what
      follows the yellow line and the break, when it is a dual caption. */
  function Bottom(t: string, txt: string): (r: seq<string>)
    ensures |r| <= 1
  {
    var head := Yellow(txt) + Break;
    if txt != "" && |head| <= |t| && t[..|head|] == head then [t[|head|..]] else []
  }

  /** Of the three texts a non-blank caption can get, only the dual one
      shows a translation, and it shows the candidate. */
  lemma BottomShown(txt: string, s: string)
    requires txt != ""
    ensures Bottom(Dual(txt, s), txt) == [s]
    ensures Bottom(Yellow(txt), txt) == [] && Bottom(txt, txt) == []
  {
    var head := Yellow(txt) + Break;
    assert Dual(txt, s) == head + s;
    assert (head + s)[..|head|] == head && (head + s)[|head|..] == s;
  }

  /** The translations shown by the captions `texts` of cues `cues`, in
      order. */
  ghost function Bottoms(texts: seq<string>, cues: seq<Cue>): seq<string>
    requires |texts| == |cues|
  {
    if texts == [] then []
    else Bottoms(texts[..|texts| - 1], cues[..|cues| - 1]) + Bottom(texts[|texts| - 1], cues[|cues| - 1].txt)
  }

  /** What a caption may show after the merge: its own text when it is blank
      after cleaning; otherwise its cleaned text alone, in yellow, or in
      yellow above a non-empty translation. */
  ghost predicate Shows(t: string, c: Cue)
  {
    if c.txt == "" then t == c.text
    else t == c.txt || t == Yellow(c.txt) || exists s :: s != "" && t == Dual(c.txt, s)
  }

  /** The anti-echo invariant: `last` is the last translation shown, no
      shown translation is empty, and two consecutive shown translations
      are never the same text longer than five characters. */
  predicate NoEcho(m: Merged)
  {
    && m.last == (if m.shown == [] then "" else m.shown[|m.shown| - 1])
    && (forall j :: 0 <= j < |m.shown| ==> m.shown[j] != "")
    && (forall j :: 0 <= j < |m.shown| - 1 && m.shown[j + 1] == m.shown[j] ==> |m.shown[j]| <= 5)
  }

  /** One caption follows the anti-echo rule: a caption blank after
      cleaning keeps its text; otherwise with candidate `l`, no candidate
      leaves the cleaned text alone, a candidate equal to the last shown
      translation and longer than five characters leaves it alone in
      yellow, and any other candidate is shown beneath it and becomes the
      last one. */
  lemma MergeLineRule(m: Merged, c: Cue, translate: string -> Option<string>)
    ensures var r := MergeLine(m, c, translate);
            var l := Candidate(m.cache, c, translate);
            var t := r.texts[|m.texts|];
            && (c.txt == "" ==> t == c.text && r.last == m.last && r.cache == m.cache)
            && (c.txt != "" && l.result == "" ==> t == c.txt && r.last == m.last)
            && (c.txt != "" && l.result != "" && l.result == m.last && |l.result| > 5 ==>
                  t == Yellow(c.txt) && r.last == m.last)
            && (c.txt != "" && l.result != "" && !(l.result == m.last && |l.result| > 5) ==>
                  t == Dual(c.txt, l.result) && r.last == l.result)
  {
  }

  /** One caption keeps the anti-echo invariant, keeps the texts before it,
      adds a text its cue allows, and grows the shown log by exactly the
      translation that text displays. */
  lemma MergeLineSpec(m: Merged, c: Cue, translate: string -> Option<string>)
    requires NoEcho(m)
    ensures var r := MergeLine(m, c, translate);
            && NoEcho(r)
            && r.texts[..|m.texts|] == m.texts
            && Shows(r.texts[|m.texts|], c)
            && r.shown == m.shown + Bottom(r.texts[|m.texts|], c.txt)
  {
    var r := MergeLine(m, c, translate);
    assert r.texts[..|m.texts|] == m.texts;
    if c.txt == "" {
      assert r.shown == m.shown && r.last == m.last;
    } else {
      var l := Candidate(m.cache, c, translate);
      BottomShown(c.txt, l.result);
      if l.result == "" || (l.result == m.last && |l.result| > 5) {
        assert r.shown == m.shown && r.last == m.last;
      } else {
        assert r.texts[|m.texts|] == Dual(c.txt, l.result);
        NoEchoPush(m, r, l.result);
      }
    }
  }

  /** Showing a non-empty translation that does not repeat a long last one
      keeps the anti-echo invariant. */
  lemma NoEchoPush(m: Merged, r: Merged, s: string)
    requires NoEcho(m) && s != "" && !(s == m.last && |s| > 5)
    requires r.shown == m.shown + [s] && r.last == s
    ensures NoEcho(r)
  {
    forall j | 0 <= j < |r.shown| - 1 && r.shown[j + 1] == r.shown[j] ensures |r.shown[j]| <= 5 {
      if j == |m.shown| - 1 {
        assert r.shown[j] == m.last;
      }
    }
  }

  /** The merge loop over the cues of a whole track, from an empty
      `last_match_txt`. */
  function MergeAll(cues: seq<Cue>, cache: map<string, string>, translate: string -> Option<string>): (m: Merged)
    ensures |m.texts| == |cues|
  {
    if cues == [] then Merged([], cache, "", [], 0)
    else MergeLine(MergeAll(cues[..|cues| - 1], cache, translate), cues[|cues| - 1], translate)
  }

  /** Each caption's text is one its cue allows. */
  ghost predicate AllShown(texts: seq<string>, cues: seq<Cue>)
  {
    |texts| == |cues| && forall i :: 0 <= i < |cues| ==> Shows(texts[i], cues[i])
  }

  /** Texts that extend those of all but the last cue by one the last cue
      allows are allowed by all the cues. */
  lemma AllShownStep(texts: seq<string>, cues: seq<Cue>, next: seq<string>)
    requires cues != [] && AllShown(texts, cues[..|cues| - 1])
    requires |next| == |cues| && next[..|texts|] == texts && Shows(next[|texts|], cues[|cues| - 1])
    ensures AllShown(next, cues)
  {
    forall i | 0 <= i < |texts| ensures next[i] == texts[i] && cues[i] == cues[..|cues| - 1][i] {
      assert next[i] == next[..|texts|][i];
    }
  }

  /** Anti-echo over a whole track: the shown log is exactly the
      translations the captions display beneath their English text, in
      order; `last_match_txt` is always the last of them, and no
      translation longer than five characters is displayed by two dual
      captions in a row; each caption shows what its cue allows. */
  lemma {:induction false} MergeAllSpec(cues: seq<Cue>, cache: map<string, string>,
                                        translate: string -> Option<string>)
    ensures var m := MergeAll(cues, cache, translate);
            && NoEcho(m)
            && AllShown(m.texts, cues)
            && m.shown == Bottoms(m.texts, cues)
  {
    if cues != [] {
      var init := cues[..|cues| - 1];
      var c := cues[|cues| - 1];
      MergeAllSpec(init, cache, translate);
      var m := MergeAll(init, cache, translate);
      MergeLineSpec(m, c, translate);
      var next := MergeLine(m, c, translate).texts;
      AllShownStep(m.texts, cues, next);
      assert next[..|next| - 1] == m.texts;
    }
  }

  /** The cache keeps every entry it had, and gains only texts whose
      translation the translator was asked for. */
  lemma {:induction false} MergeAllCache(cues: seq<Cue>, cache: map<string, string>,
                                         translate: string -> Option<string>)
    ensures var m := MergeAll(cues, cache, translate);
            && (forall k :: k in cache ==> k in m.cache && m.cache[k] == cache[k])
            && (forall k :: k in m.cache && k !in cache ==> exists i :: 0 <= i < |cues| && cues[i].txt == k)
  {
    if cues != [] {
      var init := cues[..|cues| - 1];
      MergeAllCache(init, cache, translate);
      var m := MergeAll(init, cache, translate);
      var c := cues[|cues| - 1];
      if c.txt != "" {
        CandidateSpec(m.cache, c, translate);
        LookupSpec(m.cache, c.txt, translate);
      }
      var r := MergeAll(cues, cache, translate);
      forall k | k in r.cache && k !in cache ensures exists i :: 0 <= i < |cues| && cues[i].txt == k {
        if k in m.cache {
          var i :| 0 <= i < |init| && init[i].txt == k;
          assert cues[i] == init[i];
        } else {
          assert cues[|cues| - 1].txt == k;
        }
      }
    }
  }

  /** When every non-blank caption has overlapping Spanish text, the
      translator is never called and the cache is left as it was. */
  lemma {:induction false} FullOverlapNoLookup(cues: seq<Cue>, cache: map<string, string>,
                                               translate: string -> Option<string>)
    requires forall i :: 0 <= i < |cues| && cues[i].txt != "" ==> cues[i].overlap != ""
    ensures MergeAll(cues, cache, translate).calls == 0
    ensures MergeAll(cues, cache, translate).cache == cache
  {
    if cues != [] {
      FullOverlapNoLookup(cues[..|cues| - 1], cache, translate);
    }
  }

  /** The cue of caption `line` against the Spanish track. */
  function CueOf(line: Line, foreign: seq<Line>): Cue
  {
    Cue(line.text, Clean(line.text), OverlapText(line, foreign))
  }

  /** The body of the merge loop for one caption: its new text and the new
      `last_match_txt`, as `MergeLine` describes from any state `m` that
      agrees with `last` and the translator's cache. */
  method MergeCaption(line: Line, foreign: seq<Line>, last: string, tr: TextTranslator,
                      translate: string -> Option<string>, ghost m: Merged)
    returns (text: string, newLast: string)
    requires m.last == last && m.cache == tr.cache
    modifies tr
    ensures var r := MergeLine(m, CueOf(line, foreign), translate);
            && text == r.texts[|m.texts|] && newLast == r.last && tr.cache == r.cache
  {
    var txt := Clean(line.text);
    text, newLast := line.text, last;
    if txt != "" {
      var matchTxt := "";
      if foreign != [] {
        matchTxt := OverlapText(line, foreign);
      } else {
        NoForeignNoOverlap(line);
      }
      if matchTxt == "" {
        matchTxt := tr.TranslateText(txt, translate);
      }
      if matchTxt != "" {
        if matchTxt == last && |matchTxt| > 5 {
          text := Yellow(txt);
        } else {
          text := Dual(txt, matchTxt);
          newLast := matchTxt;
        }
      } else {
        text := txt;
      }
    }
  }

  /** The captions `lines` with the first `|texts|` texts replaced. */
  function Retext(lines: seq<Line>, texts: seq<string>): (r: seq<Line>)
    requires |texts| <= |lines|
  {
    seq(|lines|, j requires 0 <= j < |lines| => if j < |texts| then lines[j].(text := texts[j]) else lines[j])
  }

  lemma RetextStep(lines: seq<Line>, texts: seq<string>, t: string)
    requires |texts| < |lines|
    ensures Retext(lines, texts + [t]) == Retext(lines, texts)[|texts| := lines[|texts|].(text := t)]
  {
  }

  /** The merge loop of `process_single_episode`, rewriting the English
      track in place; `foreign` is the synchronised Spanish track, empty
      when there is none. */
  method MergeEpisode(track: array<Line>, foreign: seq<Line>, tr: TextTranslator,
                      translate: string -> Option<string>)
    modifies track, tr
    ensures var m := MergeAll(Cues(old(track[..]), foreign), old(tr.cache), translate);
            && (forall i :: 0 <= i < track.Length ==> track[i] == old(track[i]).(text := m.texts[i]))
            && tr.cache == m.cache
  {
    ghost var lines := track[..];
    ghost var cues := Cues(lines, foreign);
    var last := "";
    ghost var m := Merged([], tr.cache, "", [], 0);
    assert Retext(lines, []) == lines;
    for i := 0 to track.Length
      invariant m == MergeAll(cues[..i], old(tr.cache), translate)
      invariant |m.texts| == i && last == m.last && tr.cache == m.cache
      invariant track[..] == Retext(lines, m.texts)
    {
      assert cues[..i + 1][..i] == cues[..i];
      var line := track[i];
      assert line == lines[i];
      assert cues[i] == CueOf(line, foreign);
      var text;
      text, last := MergeCaption(line, foreign, last, tr, translate, m);
      RetextStep(lines, m.texts, text);
      track[i] := line.(text := text);
      m := MergeLine(m, cues[i], translate);
    }
    assert cues[..track.Length] == cues;
    forall i | 0 <= i < track.Length ensures track[i] == old(track[i]).(text := m.texts[i]) {
      assert track[i] == track[..][i];
    }
  }

  // ---------------------------------------------------------------------
  // Names and the season loop
  // ---------------------------------------------------------------------

  /** `clean_name.replace(" ", "_")`. */
  function ReplaceSpaces(s: string): (r: string)
    ensures |r| == |s|
    ensures forall i :: 0 <= i < |r| ==> r[i] != ' '
    ensures forall i :: 0 <= i < |s| && s[i] != ' ' ==> r[i] == s[i]
    ensures forall i :: 0 <= i < |s| && s[i] == ' ' ==> r[i] == '_'
  {
    seq(|s|, i requires 0 <= i < |s| => if s[i] == ' ' then '_' else s[i])
  }

  /** The episode tag of subsync.py, separators `[xXeE]`. */
  function EpisodeTag(fileName: string): string
  {
    Tags.Tag(fileName, Tags.SubsyncSeparators)
  }

  /** `f"{series_folder}_{tag}_Dual.srt"` with `series_folder` the show's
      name with spaces turned into underscores. */
  function OutputName(cleanName: string, fileName: string): string
  {
    ReplaceSpaces(cleanName) + "_" + EpisodeTag(fileName) + "_Dual.srt"
  }

  /** The output name is the space-free series folder, the episode tag (the
      upper-cased leftmost, longest match in the file name, or with no
      match the file name's first ten characters), and the fixed suffix. */
  lemma OutputNameSpec(cleanName: string, fileName: string, p: int, e: int)
    ensures var out := OutputName(cleanName, fileName);
            && (Tags.LeftmostLongest(fileName, p, e, Tags.SubsyncSeparators) ==>
                  out == ReplaceSpaces(cleanName) + "_" + Upper(fileName[p..e]) + "_Dual.srt")
            && ((forall q, f :: !Tags.MatchesAt(fileName, q, f, Tags.SubsyncSeparators)) ==>
                  out == ReplaceSpaces(cleanName) + "_" +
                         fileName[..if |fileName| < Tags.FallbackLength then |fileName| else Tags.FallbackLength] + "_Dual.srt")
            && forall i :: 0 <= i < |cleanName| ==> out[i] != ' '
  {
    Tags.TagSpec(fileName, Tags.SubsyncSeparators);
  }

  /** What the season loop still tries: automatic mode goes on from
      `current`, list mode takes what is left of the list. */
  function Upcoming(infinite: bool, current: int, seasons: seq<int>, succeeds: int -> bool): seq<int>
  {
    if infinite then AutoRun(succeeds, current) else seasons
  }

  /** One pass of the season loop: the next season joins those tried, and
      the rest follows unless automatic mode met a failure or passed 50. */
  lemma UpcomingStep(all: seq<int>, tried: seq<int>, infinite: bool, current: int, seasons: seq<int>,
                     succeeds: int -> bool)
    requires all == tried + Upcoming(infinite, current, seasons, succeeds)
    requires infinite ==> current <= MaxSeason
    requires !infinite ==> seasons != []
    ensures !infinite ==> all == (tried + [seasons[0]]) + Upcoming(infinite, current, seasons[1..], succeeds)
    ensures infinite && succeeds(current) ==>
              all == (tried + [current]) + Upcoming(infinite, current + 1, seasons, succeeds)
    ensures infinite && !succeeds(current) ==> all == tried + [current]
    ensures infinite && current == MaxSeason ==> Upcoming(infinite, current + 1, seasons, succeeds) == []
  {
    if !infinite {
      assert seasons == [seasons[0]] + seasons[1..];
    }
  }

  /** The season loop of `main`: the seasons tried, in order. A listed
      season is tried whatever happened to the one before; automatic mode
      stops at the first failure or after season 50. */
  method RunSeasons(sel: Selection, succeeds: int -> bool) returns (tried: seq<int>)
    ensures sel.Listed? ==> tried == sel.seasons
    ensures sel.Every? ==> tried == AutoRun(succeeds, 1)
  {
    tried := [];
    var current := 1;
    var infinite := sel.Every?;
    var seasons := if sel.Listed? then sel.seasons else [];
    ghost var all := Upcoming(infinite, current, seasons, succeeds);
    while true
      invariant infinite <==> sel.Every?
      invariant infinite ==> 1 <= current <= MaxSeason
      invariant all == tried + Upcoming(infinite, current, seasons, succeeds)
      decreases (if infinite then MaxSeason + 1 - current else 0), |seasons|
    {
      var season;
      if !infinite {
        if seasons == [] {
          break;
        }
        UpcomingStep(all, tried, infinite, current, seasons, succeeds);
        season := seasons[0];
        seasons := seasons[1..];
      } else {
        UpcomingStep(all, tried, infinite, current, seasons, succeeds);
        season := current;
      }
      var success := succeeds(season);
      tried := tried + [season];
      if infinite && !success {
        break;
      }
      if infinite {
        current := current + 1;
        if current > MaxSeason {
          break;
        }
      }
    }
  }
}
