/** The batch translator of src/api.py: one oracle request for every line
    that is neither blank nor already cached, at most three attempts,
    rejection of responses of the wrong length or that merely echo the
    source ("lazy"), a fallback once every attempt failed, and write-back of
    the new translations into the shared cache.

    The oracle is a script: attempt `k` receives `script[k]`, and an attempt
    beyond the script's end receives `Fault`. The similarity ratio of the
    laziness test, `2*M/T` for `M` matching characters out of `T` in both
    snippets, is abstracted as the match-count function `matches`; the
    per-line emergency call is the function `emergency`, whose `None` stands
    for a call that raised. */
module Api {
  import opened Base
  import opened Strings

  const MaxAttempts: nat := 3
  /** A failed batch is retried line by line only below this many lines. */
  const EmergencyLimit: nat := 5
  /** Only this many lines of each side enter the laziness test. */
  const SnippetLines: nat := 3
  const ErrorSentinel: string := "[ERROR API]"
  /** Translations holding this are never cached. */
  const ErrorMark: string := "[ERROR"

  /** A translation the cache may receive: one without the error mark. */
  predicate Cacheable(t: string)
  {
    !Contains(t, ErrorMark)
  }

  /** No cached translation carries the error mark. */
  ghost predicate ErrorFree(cache: map<string, string>)
  {
    forall key :: key in cache ==> Cacheable(cache[key])
  }
  /** Appended to the prompt after a lazy response. */
  const Correction: string := "\n\nCRITICAL ERROR: You returned English text. YOU MUST TRANSLATE TO SPANISH."

  /** What one call of the oracle gives: the parsed `translations` list, a
      rate-limit (HTTP 429) error, or any other failure. */
  datatype Outcome = Ok(candidates: seq<string>) | RateLimit | Fault

  /** The outcomes of attempts `k`, `k+1`, ...: the prompts sent, and the
      response accepted, if any. */
  datatype Run = Run(sent: seq<string>, accepted: Option<seq<string>>)

  function Reply(script: seq<Outcome>, k: nat): Outcome
  {
    if k < |script| then script[k] else Fault
  }

  /** A line goes to the oracle when it is not blank and not cached. */
  predicate NeedsFetch(line: string, cache: map<string, string>)
  {
    Trim(line) != "" && Trim(line) !in cache
  }

  /** The positions below `n` of the lines to fetch, in order: the filtered
      index list of `Base.Indices` with `NeedsFetch` as the filter. */
  function Pending(lines: seq<string>, cache: map<string, string>, n: nat): (idx: seq<nat>)
    requires n <= |lines|
    ensures Increasing(idx)
    ensures forall k :: 0 <= k < |idx| ==> idx[k] < n && NeedsFetch(lines[idx[k]], cache)
    ensures forall i :: 0 <= i < n && NeedsFetch(lines[i], cache) ==> i in idx
  {
    Indices(lines, l => NeedsFetch(l, cache), n)
  }

  /** Nothing is pending exactly when no line needs fetching. */
  lemma PendingEmpty(lines: seq<string>, cache: map<string, string>, n: nat)
    requires n <= |lines|
    ensures Pending(lines, cache, n) == [] <==> forall i :: 0 <= i < n ==> !NeedsFetch(lines[i], cache)
  {
    var idx := Pending(lines, cache, n);
    if idx != [] {
      assert NeedsFetch(lines[idx[0]], cache);
    }
  }

  /** `indices_to_fetch` after the partition loop. */
  function FetchIndices(lines: seq<string>, cache: map<string, string>): seq<nat>
  {
    Pending(lines, cache, |lines|)
  }

  /** `texts_to_fetch`: the stripped lines at the fetched positions. */
  function FetchTexts(lines: seq<string>, idx: seq<nat>): seq<string>
    requires forall k :: 0 <= k < |idx| ==> idx[k] < |lines|
  {
    seq(|idx|, k requires 0 <= k < |idx| => Trim(lines[idx[k]]))
  }

  /** The answer for a line that is not fetched: blank, or the cached value. */
  function Resolved(line: string, cache: map<string, string>): string
    requires !NeedsFetch(line, cache)
  {
    if Trim(line) == "" then "" else cache[Trim(line)]
  }

  /** A line's slot before the fetch: empty for a fetched line. */
  function Answer(line: string, cache: map<string, string>): string
  {
    if NeedsFetch(line, cache) then "" else Resolved(line, cache)
  }

  /** The first three lines joined by spaces and lower-cased. */
  function Snippet(xs: seq<string>): string
  {
    Lower(Join(xs[..if |xs| < SnippetLines then |xs| else SnippetLines], " "))
  }

  /** `SequenceMatcher(None, a, b).ratio() > 0.8`, with `ratio` = 2*M/T
      (and 1.0 when T = 0), in integers. */
  predicate IsLazy(texts: seq<string>, candidates: seq<string>, matches: (string, string) -> nat)
  {
    |candidates| > 0 &&
    var a := Snippet(texts);
    var b := Snippet(candidates);
    var total := |a| + |b|;
    total == 0 || 5 * matches(a, b) > 2 * total
  }

  /** A response that passes both checks. */
  predicate Acceptable(texts: seq<string>, o: Outcome, matches: (string, string) -> nat)
  {
    o.Ok? && |o.candidates| == |texts| && !IsLazy(texts, o.candidates, matches)
  }

  /** A response of the right length rejected as lazy. */
  predicate LazyReply(texts: seq<string>, o: Outcome, matches: (string, string) -> nat)
  {
    o.Ok? && |o.candidates| == |texts| && IsLazy(texts, o.candidates, matches)
  }

  /** The retry loop from attempt `k` on, with `prompt` as the prompt. */
  function Attempts(texts: seq<string>, script: seq<Outcome>, matches: (string, string) -> nat,
                    k: nat, prompt: string): Run
    decreases MaxAttempts - k
  {
    if k >= MaxAttempts then Run([], None)
    else
      var o := Reply(script, k);
      if Acceptable(texts, o, matches) then Run([prompt], Some(o.candidates))
      else
        var next := if LazyReply(texts, o, matches) then prompt + Correction else prompt;
        var rest := Attempts(texts, script, matches, k + 1, next);
        Run([prompt] + rest.sent, rest.accepted)
  }

  /** The prompt's fixed instructions are not modelled; it carries the lines. */
  function BasePrompt(texts: seq<string>): string
  {
    "INPUT LIST:\n" + Join(texts, "\n")
  }

  /** `translate_single_emergency`: the stripped reply, or the line itself
      when the call raised. */
  function EmergencyReply(text: string, reply: Option<string>): string
  {
    match reply
    case Some(t) => Trim(t)
    case None => text
  }

  /** What the fetched slots receive when no attempt was accepted. */
  function Fallback(texts: seq<string>, emergency: string -> Option<string>): seq<string>
  {
    if |texts| < EmergencyLimit then
      seq(|texts|, k requires 0 <= k < |texts| => EmergencyReply(texts[k], emergency(texts[k])))
    else seq(|texts|, _ => ErrorSentinel)
  }

  /** Without an accepted response a batch of fewer than five lines is
      answered line by line, each line by its emergency reply or, when that
      call raised, by itself; a larger batch gets the error sentinel on
      every line, so none of its lines is cached. */
  lemma FallbackSpec(texts: seq<string>, emergency: string -> Option<string>)
    ensures var r := Fallback(texts, emergency);
            && |r| == |texts|
            && (|texts| < EmergencyLimit ==>
                  forall k :: 0 <= k < |texts| ==>
                    (emergency(texts[k]).None? ==> r[k] == texts[k]) &&
                    (emergency(texts[k]).Some? ==> r[k] == Trim(emergency(texts[k]).value)))
            && (|texts| >= EmergencyLimit ==> forall k :: 0 <= k < |r| ==> r[k] == ErrorSentinel && !Cacheable(r[k]))
  {
    assert ErrorSentinel[..|ErrorMark|] == ErrorMark;
  }

  /** The laziness test catches an echo: a response whose snippet is the
      request's own, when matching a text against itself counts all of its
      characters; and it passes a response sharing no character with a
      non-empty request snippet. An empty response is never lazy. */
  lemma IsLazySpec(texts: seq<string>, candidates: seq<string>, matches: (string, string) -> nat)
    ensures candidates == [] ==> !IsLazy(texts, candidates, matches)
    ensures (candidates != [] && Snippet(candidates) == Snippet(texts) &&
             matches(Snippet(texts), Snippet(texts)) == |Snippet(texts)|) ==>
              IsLazy(texts, candidates, matches)
    ensures |Snippet(texts)| > 0 && matches(Snippet(texts), Snippet(candidates)) == 0 ==>
              !IsLazy(texts, candidates, matches)
  {
  }

  /** `translations` after the retry loop and the fallback. */
  function Translations(texts: seq<string>, script: seq<Outcome>, matches: (string, string) -> nat,
                        emergency: string -> Option<string>): (tr: seq<string>)
    ensures |tr| == |texts|
  {
    AttemptsSpec(texts, script, matches, 0, BasePrompt(texts));
    match Attempts(texts, script, matches, 0, BasePrompt(texts)).accepted
    case Some(c) => c
    case None => Fallback(texts, emergency)
  }

  /** The cache after writing back the first `n` fetched translations. */
  function WriteBack(cache: map<string, string>, texts: seq<string>, tr: seq<string>, n: nat): map<string, string>
    requires |texts| == |tr| && n <= |texts|
  {
    if n == 0 then cache
    else
      var c := WriteBack(cache, texts, tr, n - 1);
      if !Cacheable(tr[n - 1]) then c else c[texts[n - 1] := tr[n - 1]]
  }

  /** At most three attempts are made and at least one; the accepted
      response, if any, comes from the last attempt, has the request's
      length and is not lazy, and every earlier response was rejected;
      without acceptance all three attempts were made. */
  lemma {:induction false} AttemptsSpec(texts: seq<string>, script: seq<Outcome>,
                                        matches: (string, string) -> nat, k: nat, prompt: string)
    requires k <= MaxAttempts
    ensures var r := Attempts(texts, script, matches, k, prompt);
      && (k < MaxAttempts ==> 1 <= |r.sent|)
      && |r.sent| <= MaxAttempts - k
      && (r.accepted.Some? ==>
            && Reply(script, k + |r.sent| - 1) == Ok(r.accepted.value)
            && Acceptable(texts, Reply(script, k + |r.sent| - 1), matches)
            && |r.accepted.value| == |texts|)
      && (r.accepted.None? ==> |r.sent| == MaxAttempts - k)
      && (forall a :: k <= a < k + |r.sent| - 1 ==> !Acceptable(texts, Reply(script, a), matches))
      && (r.accepted.None? ==> forall a :: k <= a < k + |r.sent| ==> !Acceptable(texts, Reply(script, a), matches))
    decreases MaxAttempts - k
  {
    if k < MaxAttempts && !Acceptable(texts, Reply(script, k), matches) {
      var o := Reply(script, k);
      var next := if LazyReply(texts, o, matches) then prompt + Correction else prompt;
      AttemptsSpec(texts, script, matches, k + 1, next);
    }
  }

  /** What attempt `k` adds to the prompt for the next one: the correction
      after a lazy response, nothing otherwise. */
  function Extra(texts: seq<string>, script: seq<Outcome>, matches: (string, string) -> nat, k: nat): string
  {
    if LazyReply(texts, Reply(script, k), matches) then Correction else ""
  }

  /** Each prompt from the second on is the one before plus what the
      attempt before added, attempts being numbered from `k`. */
  ghost predicate Chain(sent: seq<string>, texts: seq<string>, script: seq<Outcome>,
                        matches: (string, string) -> nat, k: nat)
    decreases |sent|
  {
    |sent| <= 1 ||
    (sent[1] == sent[0] + Extra(texts, script, matches, k) && Chain(sent[1..], texts, script, matches, k + 1))
  }

  /** A chain of prompts, read position by position. */
  lemma {:induction false} ChainAt(sent: seq<string>, texts: seq<string>, script: seq<Outcome>,
                                   matches: (string, string) -> nat, k: nat)
    requires Chain(sent, texts, script, matches, k)
    ensures forall j :: 0 <= j < |sent| - 1 ==> sent[j + 1] == sent[j] + Extra(texts, script, matches, k + j)
    decreases |sent|
  {
    if |sent| > 1 {
      var tail := sent[1..];
      ChainAt(tail, texts, script, matches, k + 1);
      forall j | 1 <= j < |sent| - 1
        ensures sent[j + 1] == sent[j] + Extra(texts, script, matches, k + j)
      {
        assert sent[j + 1] == tail[j] && sent[j] == tail[j - 1];
        assert tail[(j - 1) + 1] == tail[j - 1] + Extra(texts, script, matches, (k + 1) + (j - 1));
      }
    }
  }

  /** The prompts the retry loop sends from attempt `k` on form a chain
      that starts with `prompt`. */
  lemma {:induction false} AttemptsChain(texts: seq<string>, script: seq<Outcome>,
                                         matches: (string, string) -> nat, k: nat, prompt: string)
    ensures var r := Attempts(texts, script, matches, k, prompt);
      && (|r.sent| > 0 ==> r.sent[0] == prompt)
      && Chain(r.sent, texts, script, matches, k)
    decreases MaxAttempts - k
  {
    if k < MaxAttempts && !Acceptable(texts, Reply(script, k), matches) {
      var next := if LazyReply(texts, Reply(script, k), matches) then prompt + Correction else prompt;
      assert next == prompt + Extra(texts, script, matches, k) by {
        if !LazyReply(texts, Reply(script, k), matches) {
          assert prompt + "" == prompt;
        }
      }
      AttemptsChain(texts, script, matches, k + 1, next);
      var rest := Attempts(texts, script, matches, k + 1, next).sent;
      assert ([prompt] + rest)[1..] == rest;
    }
  }

  /** The first prompt is the given one, and each later one is the one
      before with the correction appended exactly when the response before
      was lazy. */
  lemma AttemptsPrompts(texts: seq<string>, script: seq<Outcome>,
                        matches: (string, string) -> nat, k: nat, prompt: string)
    ensures var r := Attempts(texts, script, matches, k, prompt);
      && (|r.sent| > 0 ==> r.sent[0] == prompt)
      && (forall j :: 0 <= j < |r.sent| - 1 ==> r.sent[j + 1] == r.sent[j] + Extra(texts, script, matches, k + j))
  {
    AttemptsChain(texts, script, matches, k, prompt);
    ChainAt(Attempts(texts, script, matches, k, prompt).sent, texts, script, matches, k);
  }

  /** The fetched slots receive the first acceptable response among the
      three attempts; when there is none, every slot gets the error
      sentinel, or, for fewer than five lines, its emergency reply. */
  lemma TranslationsSpec(texts: seq<string>, script: seq<Outcome>, matches: (string, string) -> nat,
                         emergency: string -> Option<string>)
    ensures var tr := Translations(texts, script, matches, emergency);
      && |tr| == |texts|
      && (forall j :: (0 <= j < MaxAttempts && Acceptable(texts, Reply(script, j), matches) &&
                       forall i :: 0 <= i < j ==> !Acceptable(texts, Reply(script, i), matches)) ==>
            tr == Reply(script, j).candidates)
      && ((forall j :: 0 <= j < MaxAttempts ==> !Acceptable(texts, Reply(script, j), matches)) ==>
            && (|texts| >= EmergencyLimit ==> forall k :: 0 <= k < |tr| ==> tr[k] == ErrorSentinel)
            && (|texts| < EmergencyLimit ==>
                  forall k :: 0 <= k < |tr| ==> tr[k] == EmergencyReply(texts[k], emergency(texts[k]))))
  {
    AttemptsSpec(texts, script, matches, 0, BasePrompt(texts));
  }

  /** Write-back never touches a key that is not among the fetched texts,
      stores every fetched text whose translation is not error-marked, and
      stores nothing but such translations. */
  lemma {:induction false} WriteBackSpec(cache: map<string, string>, texts: seq<string>, tr: seq<string>, n: nat)
    requires |texts| == |tr| && n <= |texts|
    ensures var c := WriteBack(cache, texts, tr, n);
      && (forall key :: key in cache && (forall k :: 0 <= k < n ==> texts[k] != key) ==>
            key in c && c[key] == cache[key])
      && (forall k :: 0 <= k < n && Cacheable(tr[k]) ==> texts[k] in c)
      && (forall key :: key in c ==>
            key in cache || exists k :: 0 <= k < n && texts[k] == key && c[key] == tr[k] && Cacheable(tr[k]))
      && (forall key :: key in c && key !in cache ==> Cacheable(c[key]))
  {
    if n > 0 {
      WriteBackSpec(cache, texts, tr, n - 1);
      var prev := WriteBack(cache, texts, tr, n - 1);
      var c := WriteBack(cache, texts, tr, n);
      forall key | key in c ensures key in cache ||
          exists k :: 0 <= k < n && texts[k] == key && c[key] == tr[k] && Cacheable(tr[k])
      {
        if key != texts[n - 1] || !Cacheable(tr[n - 1]) {
          assert key in prev && c[key] == prev[key];
        }
      }
      forall key | key in c && key !in cache ensures Cacheable(c[key]) {
        if key != texts[n - 1] || !Cacheable(tr[n - 1]) {
          assert key in prev && c[key] == prev[key];
        }
      }
    }
  }

  /** A text fetched more than once keeps the translation of its last
      fetch that is free of error marks: the last write wins. */
  lemma {:induction false} WriteBackLast(cache: map<string, string>, texts: seq<string>, tr: seq<string>,
                                         n: nat, k: nat)
    requires |texts| == |tr| && k < n <= |texts| && Cacheable(tr[k])
    requires forall j :: k < j < n && texts[j] == texts[k] ==> !Cacheable(tr[j])
    ensures var c := WriteBack(cache, texts, tr, n);
            texts[k] in c && c[texts[k]] == tr[k]
  {
    if k < n - 1 {
      WriteBackLast(cache, texts, tr, n - 1, k);
    }
  }

  /** Cache idempotence: after a batch whose translations are all free of
      error marks, the same lines need no fetching at all, so translating
      them again makes no oracle call. */
  lemma RepeatNeedsNoFetch(lines: seq<string>, cache: map<string, string>, tr: seq<string>)
    requires var idx := FetchIndices(lines, cache); |tr| == |idx|
    requires forall k :: 0 <= k < |tr| ==> Cacheable(tr[k])
    ensures var idx := FetchIndices(lines, cache);
            var texts := FetchTexts(lines, idx);
            FetchIndices(lines, WriteBack(cache, texts, tr, |texts|)) == []
  {
    var idx := FetchIndices(lines, cache);
    var texts := FetchTexts(lines, idx);
    var c := WriteBack(cache, texts, tr, |texts|);
    WriteBackSpec(cache, texts, tr, |texts|);
    forall i | 0 <= i < |lines| ensures !NeedsFetch(lines[i], c) {
      if NeedsFetch(lines[i], cache) {
        assert i in idx;
        var k :| 0 <= k < |idx| && idx[k] == i;
        assert texts[k] == Trim(lines[i]);
      } else if Trim(lines[i]) != "" {
        forall k | 0 <= k < |texts| ensures texts[k] != Trim(lines[i]) {
          assert NeedsFetch(lines[idx[k]], cache);
        }
      }
    }
    PendingEmpty(lines, c, |lines|);
  }

  /** The slots with the first `n` translations written at their positions. */
  function Filled(slots: seq<string>, idx: seq<nat>, tr: seq<string>, n: nat): seq<string>
    requires n <= |idx| == |tr|
    requires forall k :: 0 <= k < |idx| ==> idx[k] < |slots|
    ensures |Filled(slots, idx, tr, n)| == |slots|
  {
    if n == 0 then slots else Filled(slots, idx, tr, n - 1)[idx[n - 1] := tr[n - 1]]
  }

  /** Writing at distinct positions: each written slot holds its own
      translation and every other slot is left as it was. */
  lemma {:induction false} FilledSpec(slots: seq<string>, idx: seq<nat>, tr: seq<string>, n: nat)
    requires n <= |idx| == |tr|
    requires forall k :: 0 <= k < |idx| ==> idx[k] < |slots|
    requires Increasing(idx)
    ensures var r := Filled(slots, idx, tr, n);
            && (forall k :: 0 <= k < n ==> r[idx[k]] == tr[k])
            && (forall j :: 0 <= j < |slots| && (forall k :: 0 <= k < n ==> idx[k] != j) ==> r[j] == slots[j])
  {
    if n > 0 {
      FilledSpec(slots, idx, tr, n - 1);
    }
  }

  /** What `translate_batch_native` returns, given the translations of the
      fetched lines. */
  function BatchResults(lines: seq<string>, cache: map<string, string>, tr: seq<string>): seq<string>
    requires |tr| == |FetchIndices(lines, cache)|
  {
    Filled(Slots(lines, cache, |lines|), FetchIndices(lines, cache), tr, |tr|)
  }

  /** One result per line: blank lines give the empty string, cached lines
      their cached translation, and the fetched lines their translations,
      in order. */
  lemma BatchResultsSpec(lines: seq<string>, cache: map<string, string>, tr: seq<string>)
    requires |tr| == |FetchIndices(lines, cache)|
    ensures var r := BatchResults(lines, cache, tr);
            var idx := FetchIndices(lines, cache);
            && |r| == |lines|
            && (forall i :: 0 <= i < |lines| && Trim(lines[i]) == "" ==> r[i] == "")
            && (forall i :: 0 <= i < |lines| && Trim(lines[i]) != "" && Trim(lines[i]) in cache ==>
                  r[i] == cache[Trim(lines[i])])
            && (forall k :: 0 <= k < |idx| ==> r[idx[k]] == tr[k])
  {
    var idx := FetchIndices(lines, cache);
    var r := BatchResults(lines, cache, tr);
    FilledSpec(Slots(lines, cache, |lines|), idx, tr, |tr|);
    forall i | 0 <= i < |lines| && !NeedsFetch(lines[i], cache)
      ensures r[i] == Answer(lines[i], cache)
    {
      forall k | 0 <= k < |tr| ensures idx[k] != i {
        assert NeedsFetch(lines[idx[k]], cache);
      }
    }
  }

  /** The batch only adds to the cache: every entry present before keeps
      its value, and a cache free of error-marked entries stays free of
      them. */
  lemma CacheGrows(lines: seq<string>, cache: map<string, string>, tr: seq<string>)
    requires |tr| == |FetchIndices(lines, cache)|
    ensures var texts := FetchTexts(lines, FetchIndices(lines, cache));
            var c := WriteBack(cache, texts, tr, |texts|);
            && (forall key :: key in cache ==> key in c && c[key] == cache[key])
            && (ErrorFree(cache) ==> ErrorFree(c))
  {
    var idx := FetchIndices(lines, cache);
    var texts := FetchTexts(lines, idx);
    WriteBackSpec(cache, texts, tr, |texts|);
    forall key, k | key in cache && 0 <= k < |texts| ensures texts[k] != key {
      assert NeedsFetch(lines[idx[k]], cache);
    }
  }

  /** One attempt of the retry loop: the prompt joins those sent; an
      acceptable response ends the run, any other leads to the next attempt,
      with the correction appended after a lazy response. */
  lemma AttemptStep(run: Run, sent: seq<string>, texts: seq<string>, script: seq<Outcome>,
                    matches: (string, string) -> nat, k: nat, prompt: string)
    requires k < MaxAttempts
    requires var rest := Attempts(texts, script, matches, k, prompt);
             run == Run(sent + rest.sent, rest.accepted)
    ensures var o := Reply(script, k);
            Acceptable(texts, o, matches) ==> run == Run(sent + [prompt], Some(o.candidates))
    ensures var o := Reply(script, k);
            var next := if LazyReply(texts, o, matches) then prompt + Correction else prompt;
            var rest := Attempts(texts, script, matches, k + 1, next);
            !Acceptable(texts, o, matches) ==> run == Run((sent + [prompt]) + rest.sent, rest.accepted)
  {
    var o := Reply(script, k);
    var next := if LazyReply(texts, o, matches) then prompt + Correction else prompt;
    var rest := Attempts(texts, script, matches, k + 1, next);
    assert sent + ([prompt] + rest.sent) == (sent + [prompt]) + rest.sent;
  }

  /** The retry loop of `translate_batch_native`: the prompts it sends, and
      the accepted response, or nothing when no attempt was accepted. */
  method Retry(texts: seq<string>, script: seq<Outcome>, matches: (string, string) -> nat)
    returns (translations: seq<string>, sent: seq<string>)
    requires texts != []
    ensures var run := Attempts(texts, script, matches, 0, BasePrompt(texts));
            && sent == run.sent
            && translations == (if run.accepted.Some? then run.accepted.value else [])
  {
    var prompt := BasePrompt(texts);
    translations := [];
    sent := [];
    var attempt := 0;
    ghost var run := Attempts(texts, script, matches, 0, prompt);
    while attempt < MaxAttempts && translations == []
      invariant 0 <= attempt <= MaxAttempts
      invariant translations == [] ==>
                  var rest := Attempts(texts, script, matches, attempt, prompt);
                  run == Run(sent + rest.sent, rest.accepted)
      invariant translations != [] ==> run == Run(sent, Some(translations))
    {
      var reply := Reply(script, attempt);
      AttemptStep(run, sent, texts, script, matches, attempt, prompt);
      sent := sent + [prompt];
      attempt := attempt + 1;
      match reply {
        case Ok(candidates) =>
          if |candidates| == |texts| {
            if IsLazy(texts, candidates, matches) {
              prompt := prompt + Correction;
            } else {
              translations := candidates;
            }
          }
        case RateLimit =>
        case Fault =>
      }
    }
  }

  /** The retry loop and the fallback of `translate_batch_native`
      (everything between building the prompt and the write-back), for a
      non-empty request. */
  method RequestTranslations(texts: seq<string>, script: seq<Outcome>, matches: (string, string) -> nat,
                             emergency: string -> Option<string>)
    returns (translations: seq<string>, sent: seq<string>)
    requires texts != []
    ensures translations == Translations(texts, script, matches, emergency)
    ensures sent == Attempts(texts, script, matches, 0, BasePrompt(texts)).sent
  {
    AttemptsSpec(texts, script, matches, 0, BasePrompt(texts));
    translations, sent := Retry(texts, script, matches);
    if translations == [] {
      translations := Fallback(texts, emergency);
    }
  }

  /** The slots after the partition loop has seen the first `n` lines. */
  function Slots(lines: seq<string>, cache: map<string, string>, n: nat): seq<string>
    requires n <= |lines|
  {
    seq(|lines|, j requires 0 <= j < |lines| => if j < n then Answer(lines[j], cache) else "")
  }

  /** Line `i` is listed for fetching exactly when it needs it. */
  lemma PendingStep(lines: seq<string>, cache: map<string, string>, i: nat)
    requires i < |lines|
    ensures Pending(lines, cache, i + 1) ==
              if NeedsFetch(lines[i], cache) then Pending(lines, cache, i) + [i] else Pending(lines, cache, i)
  {
  }

  /** Line `i` fills its slot unless it is fetched; a blank line's slot was
      already empty. */
  lemma SlotsStep(lines: seq<string>, cache: map<string, string>, i: nat)
    requires i < |lines|
    ensures Trim(lines[i]) == "" ==> Slots(lines, cache, i + 1) == Slots(lines, cache, i)
    ensures Trim(lines[i]) != "" && Trim(lines[i]) in cache ==>
              Slots(lines, cache, i + 1) == Slots(lines, cache, i)[i := cache[Trim(lines[i])]]
    ensures NeedsFetch(lines[i], cache) ==> Slots(lines, cache, i + 1) == Slots(lines, cache, i)
  {
    var a := Slots(lines, cache, i);
    var b := Slots(lines, cache, i + 1);
    assert forall j :: 0 <= j < |lines| && j != i ==> a[j] == b[j];
  }

  /** Listing one more position lists its stripped line at the end. */
  lemma FetchTextsAppend(lines: seq<string>, idx: seq<nat>, i: nat)
    requires i < |lines|
    requires forall k :: 0 <= k < |idx| ==> idx[k] < |lines|
    ensures FetchTexts(lines, idx + [i]) == FetchTexts(lines, idx) + [Trim(lines[i])]
  {
    var a := FetchTexts(lines, idx + [i]);
    var b := FetchTexts(lines, idx) + [Trim(lines[i])];
    assert forall k :: 0 <= k < |idx| ==> a[k] == b[k];
  }

  /** One step of the partition loop: what line `i` adds. */
  lemma PartitionStep(lines: seq<string>, cache: map<string, string>, i: nat)
    requires i < |lines|
    ensures var t := Trim(lines[i]);
            var idx := Pending(lines, cache, i);
            && (t == "" ==>
                  Pending(lines, cache, i + 1) == idx && Slots(lines, cache, i + 1) == Slots(lines, cache, i))
            && (t != "" && t in cache ==>
                  && Pending(lines, cache, i + 1) == idx
                  && Slots(lines, cache, i + 1) == Slots(lines, cache, i)[i := cache[t]])
            && (t != "" && t !in cache ==>
                  && Pending(lines, cache, i + 1) == idx + [i]
                  && FetchTexts(lines, idx + [i]) == FetchTexts(lines, idx) + [t]
                  && Slots(lines, cache, i + 1) == Slots(lines, cache, i))
  {
    PendingStep(lines, cache, i);
    SlotsStep(lines, cache, i);
    FetchTextsAppend(lines, Pending(lines, cache, i), i);
  }

  /** The partition loop of `translate_batch_native`: blank lines stay
      blank, cached lines are answered from the cache, the rest are listed
      for fetching. */
  method Partition(lines: seq<string>, cache: map<string, string>)
    returns (results: seq<string>, idx: seq<nat>, texts: seq<string>)
    ensures idx == FetchIndices(lines, cache)
    ensures texts == FetchTexts(lines, idx)
    ensures results == Slots(lines, cache, |lines|)
  {
    idx := [];
    texts := [];
    results := seq(|lines|, _ => "");
    assert results == Slots(lines, cache, 0);
    for i := 0 to |lines|
      invariant idx == Pending(lines, cache, i)
      invariant texts == FetchTexts(lines, idx)
      invariant results == Slots(lines, cache, i)
    {
      PartitionStep(lines, cache, i);
      var t := Trim(lines[i]);
      if t != "" {
        if t in cache {
          results := results[i := cache[t]];
        } else {
          idx := idx + [i];
          texts := texts + [t];
        }
      }
    }
  }

  /** The shared translation cache, `TRANSLATION_CACHE`. */
  class BatchTranslator {
    var cache: map<string, string>

    constructor (loaded: map<string, string>)
      ensures cache == loaded
    {
      cache := loaded;
    }

    /** The write-back loop of `translate_batch_native`: each fetched
        translation goes to its line's slot, and into the cache unless it
        carries the error marker. */
    method Store(slots: seq<string>, idx: seq<nat>, texts: seq<string>, translations: seq<string>)
      returns (results: seq<string>)
      requires |idx| == |texts| == |translations|
      requires forall k :: 0 <= k < |idx| ==> idx[k] < |slots|
      modifies this
      ensures results == Filled(slots, idx, translations, |idx|)
      ensures cache == WriteBack(old(cache), texts, translations, |texts|)
    {
      results := slots;
      for k := 0 to |idx|
        invariant results == Filled(slots, idx, translations, k)
        invariant cache == WriteBack(old(cache), texts, translations, k)
      {
        results := results[idx[k] := translations[k]];
        if Cacheable(translations[k]) {
          cache := cache[texts[k] := translations[k]];
        }
      }
    }

    /** `translate_batch_native(lines)`. `sent` lists the prompts sent to
        the oracle, one per attempt; no attempt is made when every line is
        blank or cached. */
    method TranslateBatch(lines: seq<string>, script: seq<Outcome>, matches: (string, string) -> nat,
                          emergency: string -> Option<string>)
      returns (results: seq<string>, sent: seq<string>)
      modifies this
      ensures var idx := FetchIndices(lines, old(cache));
              var texts := FetchTexts(lines, idx);
              var tr := if texts == [] then [] else Translations(texts, script, matches, emergency);
              && results == BatchResults(lines, old(cache), tr)
              && cache == WriteBack(old(cache), texts, tr, |texts|)
              && sent == (if texts == [] then [] else Attempts(texts, script, matches, 0, BasePrompt(texts)).sent)
    {
      var idx, texts;
      results, idx, texts := Partition(lines, cache);
      sent := [];
      if texts == [] {
        return;
      }
      var translations;
      translations, sent := RequestTranslations(texts, script, matches, emergency);
      results := Store(results, idx, texts, translations);
    }
  }
}
