/** The batched pipeline of src/subtitle.py (`process_episode`): the
    captions are cleaned, cut into consecutive batches of 50 for the batch
    translator, the batch results are concatenated, and every non-blank
    caption becomes the yellow English line above its translation. There is
    no repeat suppression on this path. */
module Subtitle {
  import opened Base
  import opened Strings
  import opened Captions
  import Tags
  import opened Api

  const BatchSize: nat := 50
  /** Shown where a caption has no translation. */
  const Missing: string := "[Falta]"

  /** `clean_lines`: every caption with its markers replaced and stripped. */
  function CleanLines(track: seq<Line>): seq<string>
  {
    seq(|track|, i requires 0 <= i < |track| => Clean(track[i].text))
  }

  /** One cleaned line per caption, already stripped and free of
      line-break markers. */
  lemma CleanLinesSpec(track: seq<Line>)
    ensures var c := CleanLines(track);
            && |c| == |track|
            && forall i :: 0 <= i < |c| ==>
                 c[i] == Clean(track[i].text) && Trim(c[i]) == c[i] && forall j :: !BreakAt(c[i], j)
  {
    forall i | 0 <= i < |track|
      ensures Trim(Clean(track[i].text)) == Clean(track[i].text) && forall j :: !BreakAt(Clean(track[i].text), j)
    {
      TrimIdempotent(ReplaceBreaks(track[i].text));
      CleanNoBreak(track[i].text);
    }
  }

  /** End of the batch starting at `i`: `clean_lines[i : i + 50]` stops at
      the end of the list. */
  function BatchEnd(n: nat, i: nat): nat
  {
    if i + BatchSize < n then i + BatchSize else n
  }

  /** The batches from offset `i` on. */
  function BatchesFrom(clean: seq<string>, i: nat): seq<seq<string>>
    decreases |clean| - i
  {
    if i >= |clean| then [] else [clean[i..BatchEnd(|clean|, i)]] + BatchesFrom(clean, i + BatchSize)
  }

  function Concat(bs: seq<seq<string>>): seq<string>
  {
    if bs == [] then [] else bs[0] + Concat(bs[1..])
  }

  /** The batches are consecutive slices whose concatenation is the whole
      list; each holds between 1 and 50 lines, and every batch but the last
      exactly 50. */
  lemma {:induction false} BatchesCover(clean: seq<string>, i: nat)
    requires i <= |clean|
    ensures var bs := BatchesFrom(clean, i);
            && Concat(bs) == clean[i..]
            && (forall b :: 0 <= b < |bs| ==> 1 <= |bs[b]| <= BatchSize)
            && (forall b :: 0 <= b < |bs| - 1 ==> |bs[b]| == BatchSize)
    decreases |clean| - i
  {
    if i < |clean| {
      var e := BatchEnd(|clean|, i);
      var bs := BatchesFrom(clean, i);
      if e < |clean| {
        BatchesCover(clean, e);
        assert clean[i..] == clean[i..e] + clean[e..];
      } else {
        assert BatchesFrom(clean, i + BatchSize) == [];
      }
      assert bs[1..] == BatchesFrom(clean, i + BatchSize);
    }
  }

  /** The new translations and the cache after one batch. */
  datatype Progress = Progress(translations: seq<string>, cache: map<string, string>)

  /** The translations the batch translator settles on for the texts it
      fetches for the batch at offset `j`: the accepted response or the
      fallback. */
  type Answers = (seq<string>, nat) -> seq<string>

  /** One translation per fetched text. */
  ghost predicate LengthPreserving(answers: Answers)
  {
    forall texts, j :: |answers(texts, j)| == |texts|
  }

  /** The answers of the batch translator when the batch at offset `j`
      meets the oracle script `scripts(j)`. */
  function Scripted(scripts: nat -> seq<Outcome>, matches: (string, string) -> nat,
                    emergency: string -> Option<string>): (answers: Answers)
    ensures LengthPreserving(answers)
  {
    var answers := (texts: seq<string>, j: nat) =>
      if texts == [] then [] else Translations(texts, scripts(j), matches, emergency);
    assert forall texts, j :: |answers(texts, j)| == |texts| by {
      forall texts, j ensures |answers(texts, j)| == |texts| {
        if texts != [] {
          assert |Translations(texts, scripts(j), matches, emergency)| == |texts|;
        }
      }
    }
    answers
  }

  /** What `translate_batch_native(batch)` returns and leaves in the cache
      for the batch at offset `j`. */
  function Translated(batch: seq<string>, cache: map<string, string>, answers: Answers, j: nat): Progress
    requires LengthPreserving(answers)
  {
    var texts := FetchTexts(batch, FetchIndices(batch, cache));
    var tr := answers(texts, j);
    Progress(BatchResults(batch, cache, tr), WriteBack(cache, texts, tr, |texts|))
  }

  /** `results` answers `lines` one for one: a line blank after stripping
      gets the empty string, and a line whose stripped text is in `cache`
      gets its cached translation. */
  ghost predicate Answered(lines: seq<string>, results: seq<string>, cache: map<string, string>)
  {
    && |results| == |lines|
    && (forall k :: 0 <= k < |lines| && Trim(lines[k]) == "" ==> results[k] == "")
    && (forall k :: 0 <= k < |lines| && Trim(lines[k]) != "" && Trim(lines[k]) in cache ==>
          results[k] == cache[Trim(lines[k])])
  }

  /** `big` keeps every entry of `small`. */
  ghost predicate Extends(big: map<string, string>, small: map<string, string>)
  {
    forall key :: key in small ==> key in big && big[key] == small[key]
  }

  /** Answers for consecutive runs of lines, the second against a cache that
      extends the first's, together answer the whole run. */
  lemma AnsweredConcat(a: seq<string>, ra: seq<string>, b: seq<string>, rb: seq<string>,
                       cache: map<string, string>, later: map<string, string>)
    requires Answered(a, ra, cache) && Answered(b, rb, later) && Extends(later, cache)
    ensures Answered(a + b, ra + rb, cache)
  {
    forall k | |a| <= k < |a| + |b|
      ensures (a + b)[k] == b[k - |a|] && (ra + rb)[k] == rb[k - |a|]
    {
    }
  }

  /** One result per line of the batch: blank lines get the empty string
      and cached lines their cached translation; the cache keeps its
      entries and stays free of error-marked translations. */
  lemma TranslatedSpec(batch: seq<string>, cache: map<string, string>, answers: Answers, j: nat)
    requires LengthPreserving(answers)
    ensures var p := Translated(batch, cache, answers, j);
            && Answered(batch, p.translations, cache)
            && Extends(p.cache, cache)
            && (ErrorFree(cache) ==> ErrorFree(p.cache))
    ensures var p := Translated(batch, cache, answers, j);
            var idx := FetchIndices(batch, cache);
            var texts := FetchTexts(batch, idx);
            forall f :: 0 <= f < |idx| ==> p.translations[idx[f]] == answers(texts, j)[f]
  {
    var texts := FetchTexts(batch, FetchIndices(batch, cache));
    var tr := answers(texts, j);
    BatchResultsSpec(batch, cache, tr);
    CacheGrows(batch, cache, tr);
  }

  /** What one call of the batch translator returns and leaves in the
      cache, for a batch, the cache before the call, and the batch's offset. */
  type Step = (seq<string>, map<string, string>, nat) -> Progress

  /** A step answers its batch against the cache it started from, keeps
      every cache entry, and keeps an error-free cache error-free. */
  ghost predicate Sound(step: Step)
  {
    forall batch, cache, j ::
      && Answered(batch, step(batch, cache, j).translations, cache)
      && Extends(step(batch, cache, j).cache, cache)
      && (ErrorFree(cache) ==> ErrorFree(step(batch, cache, j).cache))
  }

  /** `translate_batch_native` as a step. */
  function Batched(answers: Answers): (step: Step)
    requires LengthPreserving(answers)
    ensures Sound(step)
  {
    var step := (batch: seq<string>, cache: map<string, string>, j: nat) => Translated(batch, cache, answers, j);
    assert Sound(step) by {
      forall batch, cache, j
        ensures && Answered(batch, step(batch, cache, j).translations, cache)
                && Extends(step(batch, cache, j).cache, cache)
                && (ErrorFree(cache) ==> ErrorFree(step(batch, cache, j).cache))
      {
        TranslatedSpec(batch, cache, answers, j);
      }
    }
    step
  }

  /** The batch loop from offset `i` on: the concatenated batch results and
      the final cache. */
  function RunFrom(clean: seq<string>, cache: map<string, string>, step: Step, i: nat): Progress
    decreases |clean| - i
  {
    if i >= |clean| then Progress([], cache)
    else
      var p := step(clean[i..BatchEnd(|clean|, i)], cache, i);
      var rest := RunFrom(clean, p.cache, step, i + BatchSize);
      Progress(p.translations + rest.translations, rest.cache)
  }

  /** Entry `k` of the results belongs to line `i + k`: a blank line gets
      the empty string, and a line whose text was cached before the loop
      gets its cached translation. */
  lemma {:induction false} RunFromLines(clean: seq<string>, cache: map<string, string>, step: Step, i: nat)
    requires Sound(step)
    requires i <= |clean|
    ensures Answered(clean[i..], RunFrom(clean, cache, step, i).translations, cache)
    decreases |clean| - i
  {
    if i < |clean| {
      var e := BatchEnd(|clean|, i);
      var batch := clean[i..e];
      var p := step(batch, cache, i);
      var rest := RunFrom(clean, p.cache, step, i + BatchSize);
      if e < |clean| {
        RunFromLines(clean, p.cache, step, e);
      } else {
        assert rest.translations == [] && clean[e..] == [];
      }
      AnsweredConcat(batch, p.translations, clean[e..], rest.translations, cache, p.cache);
      assert batch + clean[e..] == clean[i..];
    }
  }

  /** The loop over the first `m` batches from offset `i` makes the calls
      the loop over the whole list makes there, so the whole run is that
      shorter run followed by the run from the next batch on, against the
      cache the shorter run left. */
  lemma {:induction false} RunFromSplit(clean: seq<string>, cache: map<string, string>, step: Step,
                                        i: nat, b: nat, m: nat)
    requires b == i + BatchSize * m && b <= |clean|
    ensures var p := RunFrom(clean[..b], cache, step, i);
            var q := RunFrom(clean, p.cache, step, b);
            RunFrom(clean, cache, step, i) == Progress(p.translations + q.translations, q.cache)
    decreases m
  {
    if m == 0 {
      RunFromEmptyPrefix(clean, cache, step, i);
    } else {
      var e := i + BatchSize;
      var s := step(clean[i..e], cache, i);
      RunFromHead(clean, cache, step, i, b);
      RunFromSplit(clean, s.cache, step, e, b, m - 1);
      var p' := RunFrom(clean[..b], s.cache, step, e);
      ProgressAssoc(RunFrom(clean, cache, step, i), s, RunFrom(clean, s.cache, step, e),
                    RunFrom(clean[..b], cache, step, i), p', RunFrom(clean, p'.cache, step, b));
    }
  }

  /** Regrouping the results of three consecutive runs. */
  lemma ProgressAssoc(all: Progress, s: Progress, r: Progress, p: Progress, p': Progress, q: Progress)
    requires all == Progress(s.translations + r.translations, r.cache)
    requires r == Progress(p'.translations + q.translations, q.cache)
    requires p == Progress(s.translations + p'.translations, p'.cache)
    ensures all == Progress(p.translations + q.translations, q.cache)
  {
    assert (s.translations + p'.translations) + q.translations == s.translations + (p'.translations + q.translations);
  }

  /** Before the loop's first batch nothing has been done. */
  lemma RunFromEmptyPrefix(clean: seq<string>, cache: map<string, string>, step: Step, i: nat)
    requires i <= |clean|
    ensures var p := RunFrom(clean[..i], cache, step, i);
            var q := RunFrom(clean, p.cache, step, i);
            RunFrom(clean, cache, step, i) == Progress(p.translations + q.translations, q.cache)
  {
    var q := RunFrom(clean, cache, step, i);
    assert [] + q.translations == q.translations;
  }

  /** A full batch at offset `i` is the first call of the loop over any
      prefix that holds it, as of the loop over the whole list. */
  lemma RunFromHead(clean: seq<string>, cache: map<string, string>, step: Step, i: nat, b: nat)
    requires i + BatchSize <= b <= |clean|
    ensures var s := step(clean[i..i + BatchSize], cache, i);
            var p := RunFrom(clean[..b], s.cache, step, i + BatchSize);
            var r := RunFrom(clean, s.cache, step, i + BatchSize);
            && RunFrom(clean[..b], cache, step, i) == Progress(s.translations + p.translations, p.cache)
            && RunFrom(clean, cache, step, i) == Progress(s.translations + r.translations, r.cache)
  {
    assert clean[..b][i..i + BatchSize] == clean[i..i + BatchSize];
  }

  /** Entry `k` of the loop's results, for line `k` of batch number `m`,
      is entry `k - b` of the result of the one call for that batch, the
      batch at offset `b`, made against the cache the earlier batches left. */
  lemma BatchEntry(clean: seq<string>, cache: map<string, string>, step: Step, m: nat, k: nat)
    requires Sound(step)
    requires BatchSize * m <= k < BatchSize * m + BatchSize && k < |clean|
    ensures var b := BatchSize * m;
            var e := BatchEnd(|clean|, b);
            var all := RunFrom(clean, cache, step, 0).translations;
            var here := step(clean[b..e], RunFrom(clean[..b], cache, step, 0).cache, b).translations;
            && k < e && k < |all| && k - b < |here| && all[k] == here[k - b]
  {
    var b := BatchSize * m;
    var e := BatchEnd(|clean|, b);
    RunFromSplit(clean, cache, step, 0, b, m);
    var p := RunFrom(clean[..b], cache, step, 0);
    RunFromLines(clean[..b], cache, step, 0);
    var s := step(clean[b..e], p.cache, b);
    var q := RunFrom(clean, p.cache, step, b);
    var all := RunFrom(clean, cache, step, 0).translations;
    assert |p.translations| == b && |s.translations| == e - b;
    assert all == p.translations + q.translations;
    assert q.translations[..e - b] == s.translations;
    assert all[k] == q.translations[k - b] == s.translations[k - b];
  }

  /** The batch loop keeps every cache entry it had, and a cache free of
      error-marked translations stays free of them. */
  lemma {:induction false} RunFromCache(clean: seq<string>, cache: map<string, string>, step: Step, i: nat)
    requires Sound(step)
    ensures var c := RunFrom(clean, cache, step, i).cache;
            Extends(c, cache) && (ErrorFree(cache) ==> ErrorFree(c))
    decreases |clean| - i
  {
    if i < |clean| {
      var p := step(clean[i..BatchEnd(|clean|, i)], cache, i);
      RunFromCache(clean, p.cache, step, i + BatchSize);
    }
  }

  /** One call of the batch translator, for the batch at offset `i`, when
      its oracle follows the script `scripts(i)`. */
  method TranslateOne(batch: seq<string>, tr: BatchTranslator, scripts: nat -> seq<Outcome>,
                      matches: (string, string) -> nat, emergency: string -> Option<string>, i: nat)
    returns (results: seq<string>)
    modifies tr
    ensures Progress(results, tr.cache) == Batched(Scripted(scripts, matches, emergency))(batch, old(tr.cache), i)
  {
    var sent;
    results, sent := tr.TranslateBatch(batch, scripts(i), matches, emergency);
  }

  /** The batch loop of `process_episode`: `all_translations`. The batch at
      offset `j` meets the oracle script `scripts(j)`. */
  method TranslateAll(clean: seq<string>, tr: BatchTranslator, scripts: nat -> seq<Outcome>,
                      matches: (string, string) -> nat, emergency: string -> Option<string>)
    returns (all: seq<string>)
    modifies tr
    ensures var p := RunFrom(clean, old(tr.cache), Batched(Scripted(scripts, matches, emergency)), 0);
            all == p.translations && tr.cache == p.cache
  {
    ghost var step := Batched(Scripted(scripts, matches, emergency));
    all := [];
    var i := 0;
    while i < |clean|
      invariant RunFrom(clean, old(tr.cache), step, 0) ==
                  var rest := RunFrom(clean, tr.cache, step, i);
                  Progress(all + rest.translations, rest.cache)
      decreases |clean| - i
    {
      var batch := clean[i..BatchEnd(|clean|, i)];
      var results := TranslateOne(batch, tr, scripts, matches, emergency, i);
      ghost var rest := RunFrom(clean, tr.cache, step, i + BatchSize);
      assert all + (results + rest.translations) == (all + results) + rest.translations;
      all := all + results;
      i := i + BatchSize;
    }
  }

  /** `spanish`: entry `i` of the translations, or the marker when there is
      none. */
  function Spanish(all: seq<string>, i: nat): string
  {
    if i < |all| then all[i] else Missing
  }

  /** Every caption has its translation: the marker is never shown. */
  lemma NothingMissing(clean: seq<string>, cache: map<string, string>, step: Step)
    requires Sound(step)
    ensures var all := RunFrom(clean, cache, step, 0).translations;
            && |all| == |clean|
            && forall i :: 0 <= i < |clean| ==> Spanish(all, i) == all[i]
  {
    RunFromLines(clean, cache, step, 0);
    assert clean[0..] == clean;
  }

  /** The assembly loop of `process_episode`: a caption blank after
      cleaning keeps its text, and every other becomes its cleaned text in
      yellow above entry `i` of the translations, or the marker when there
      is no entry `i`. */
  method Assemble(track: array<Line>, clean: seq<string>, all: seq<string>)
    requires |clean| == track.Length
    modifies track
    ensures forall i :: 0 <= i < track.Length ==>
              track[i] == if clean[i] == "" then old(track[i])
                          else old(track[i]).(text := Dual(clean[i], Spanish(all, i)))
  {
    for i := 0 to track.Length
      invariant forall j :: 0 <= j < i ==>
                  track[j] == if clean[j] == "" then old(track[j])
                              else old(track[j]).(text := Dual(clean[j], Spanish(all, j)))
      invariant forall j :: i <= j < track.Length ==> track[j] == old(track[j])
    {
      var original := clean[i];
      if original == "" {
        continue;
      }
      var spanish := if i < |all| then all[i] else Missing;
      track[i] := track[i].(text := Dual(original, spanish));
    }
  }

  /** `process_episode` on a loaded track: the batch loop, then the
      assembly loop over the cleaned captions. */
  method ProcessEpisode(track: array<Line>, tr: BatchTranslator, scripts: nat -> seq<Outcome>,
                        matches: (string, string) -> nat, emergency: string -> Option<string>)
    modifies track, tr
    ensures var clean := CleanLines(old(track[..]));
            var p := RunFrom(clean, old(tr.cache), Batched(Scripted(scripts, matches, emergency)), 0);
            && tr.cache == p.cache
            && forall i :: 0 <= i < track.Length ==>
                 track[i] == if clean[i] == "" then old(track[i])
                             else old(track[i]).(text := Dual(clean[i], Spanish(p.translations, i)))
  {
    var clean := CleanLines(track[..]);
    var all := TranslateAll(clean, tr, scripts, matches, emergency);
    Assemble(track, clean, all);
  }

  /** The episode tag of src/subtitle.py, separators `[xX]`. */
  function EpisodeTag(fileName: string): string
  {
    Tags.Tag(fileName, Tags.SubtitleSeparators)
  }

  /** `f"{series_name}_{tag}_Dual.srt"`. */
  function OutputName(seriesName: string, fileName: string): string
  {
    seriesName + "_" + EpisodeTag(fileName) + "_Dual.srt"
  }

  /** The output name is the series name, the upper-cased leftmost, longest
      match of the tag pattern in the file name, and the fixed suffix; with
      no match, the file name's first ten characters take the tag's place. */
  lemma OutputNameSpec(seriesName: string, fileName: string, p: int, e: int)
    ensures Tags.LeftmostLongest(fileName, p, e, Tags.SubtitleSeparators) ==>
              OutputName(seriesName, fileName) == seriesName + "_" + Upper(fileName[p..e]) + "_Dual.srt"
    ensures (forall q, f :: !Tags.MatchesAt(fileName, q, f, Tags.SubtitleSeparators)) ==>
              OutputName(seriesName, fileName) ==
                seriesName + "_" + fileName[..if |fileName| < Tags.FallbackLength then |fileName| else Tags.FallbackLength] + "_Dual.srt"
  {
    Tags.TagSpec(fileName, Tags.SubtitleSeparators);
  }
}
