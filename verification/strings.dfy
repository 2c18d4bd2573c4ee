/** The string operations the pipeline uses: Python's `strip`, `lower`,
    `upper`, `replace("\\N", " ")`, `split`, `join`, `in` on substrings,
    and `int()` on season and thread inputs. Characters outside ASCII are
    left alone by the case and digit operations. */
module Strings {
  import opened Base

  /** The ASCII characters `str.strip()` removes: tab to carriage return
      and the four separators before the space. */
  predicate IsSpace(c: char)
  {
    9 <= c as int <= 13 || 28 <= c as int <= 32
  }

  predicate IsDigit(c: char)
  {
    48 <= c as int <= 57
  }

  /** `s.lstrip()`. */
  function TrimStart(s: string): (r: string)
    ensures |r| <= |s|
  {
    if s != [] && IsSpace(s[0]) then TrimStart(s[1..]) else s
  }

  /** `s.rstrip()`. */
  function TrimEnd(s: string): (r: string)
    ensures |r| <= |s|
  {
    if s != [] && IsSpace(s[|s| - 1]) then TrimEnd(s[..|s| - 1]) else s
  }

  /** `lstrip` removes the longest prefix made of whitespace only. */
  lemma {:induction false} TrimStartSuffix(s: string)
    ensures var r := TrimStart(s);
            && r == s[|s| - |r|..]
            && (r == [] || !IsSpace(r[0]))
            && forall i :: 0 <= i < |s| - |r| ==> IsSpace(s[i])
  {
    if s != [] && IsSpace(s[0]) {
      TrimStartSuffix(s[1..]);
    }
  }

  /** `rstrip` removes the longest suffix made of whitespace only. */
  lemma {:induction false} TrimEndPrefix(s: string)
    ensures var r := TrimEnd(s);
            && r == s[..|r|]
            && (r == [] || !IsSpace(r[|r| - 1]))
            && forall i :: |r| <= i < |s| ==> IsSpace(s[i])
  {
    if s != [] && IsSpace(s[|s| - 1]) {
      TrimEndPrefix(s[..|s| - 1]);
    }
  }

  /** `s.strip()`. */
  function Trim(s: string): string
  {
    TrimEnd(TrimStart(s))
  }

  /** Stripping twice is stripping once, so re-stripping an already cleaned
      line changes nothing. */
  lemma TrimIdempotent(s: string)
    ensures Trim(Trim(s)) == Trim(s)
  {
    var a := TrimStart(s);
    var t := TrimEnd(a);
    TrimStartSuffix(s);
    TrimEndPrefix(a);
    if t != [] {
      assert t[0] == a[0];
      assert TrimStart(t) == t;
      TrimEndPrefix(t);
    }
  }

  /** A string strips to nothing exactly when it is all whitespace. */
  lemma TrimEmptyIff(s: string)
    ensures Trim(s) == "" <==> forall i :: 0 <= i < |s| ==> IsSpace(s[i])
  {
    var a := TrimStart(s);
    TrimStartSuffix(s);
    TrimEndPrefix(a);
    if Trim(s) != "" {
      assert !IsSpace(a[0]) && a[0] == s[|s| - |a|];
    }
  }

  /** `strip()` keeps the slice of `s` that starts at the first and ends at
      the last character that is not whitespace: everything removed on
      either side is whitespace, and the result neither starts nor ends
      with whitespace. */
  lemma TrimSpec(s: string)
    ensures var t := Trim(s);
            var a := |s| - |TrimStart(s)|;
            && a + |t| <= |s| && t == s[a..a + |t|]
            && (forall i :: 0 <= i < a ==> IsSpace(s[i]))
            && (forall i :: a + |t| <= i < |s| ==> IsSpace(s[i]))
            && (t == [] || (!IsSpace(t[0]) && !IsSpace(t[|t| - 1])))
  {
    var u := TrimStart(s);
    var t := Trim(s);
    var a := |s| - |u|;
    TrimStartSuffix(s);
    TrimEndPrefix(u);
    assert t == u[..|t|] && u == s[a..];
    assert t == s[a..a + |t|];
    forall i | a + |t| <= i < |s| ensures IsSpace(s[i]) {
      assert s[i] == u[i - a];
    }
    if t != [] {
      assert t[0] == u[0];
    }
  }

  /** True when `s` holds the two-character marker `\N` at position `i`. */
  predicate BreakAt(s: string, i: int)
  {
    0 <= i && i + 1 < |s| && s[i] == '\\' && s[i + 1] == 'N'
  }

  /** `s.replace("\\N", " ")`: left-to-right, non-overlapping. */
  function ReplaceBreaks(s: string): string
    decreases |s|
  {
    if s == [] then []
    else if BreakAt(s, 0) then " " + ReplaceBreaks(s[2..])
    else [s[0]] + ReplaceBreaks(s[1..])
  }

  /** No marker survives the replacement, the text does not grow, and a
      text without markers is left as it is. */
  lemma {:induction false} ReplaceBreaksSpec(s: string)
    ensures var r := ReplaceBreaks(s);
            && |r| <= |s|
            && (forall i :: !BreakAt(r, i))
            && (r != [] && r[0] == '\\' ==> s != [] && s[0] == '\\' && !BreakAt(s, 0))
            && ((forall i :: !BreakAt(s, i)) ==> r == s)
    decreases |s|
  {
    if s == [] {
    } else if BreakAt(s, 0) {
      var rest := ReplaceBreaks(s[2..]);
      ReplaceBreaksSpec(s[2..]);
      var r := " " + rest;
      assert forall i :: 1 <= i ==> (BreakAt(r, i) <==> BreakAt(rest, i - 1));
    } else {
      var rest := ReplaceBreaks(s[1..]);
      ReplaceBreaksSpec(s[1..]);
      assert forall i :: BreakAt(s[1..], i) ==> BreakAt(s, i + 1);
      var r := [s[0]] + rest;
      assert forall i :: 1 <= i ==> (BreakAt(r, i) <==> BreakAt(rest, i - 1));
    }
  }

  /** A caption cleaned for translation: `text.replace("\\N", " ").strip()`. */
  function Clean(text: string): string
  {
    Trim(ReplaceBreaks(text))
  }

  function LowerChar(c: char): char
  {
    if 'A' <= c <= 'Z' then (c as int + 32) as char else c
  }

  function UpperChar(c: char): char
  {
    if 'a' <= c <= 'z' then (c as int - 32) as char else c
  }

  /** `s.lower()` on ASCII letters. */
  function Lower(s: string): string
  {
    seq(|s|, i requires 0 <= i < |s| => LowerChar(s[i]))
  }

  /** `s.upper()` on ASCII letters. */
  function Upper(s: string): string
  {
    seq(|s|, i requires 0 <= i < |s| => UpperChar(s[i]))
  }

  /** `sep.join(parts)`. */
  function Join(parts: seq<string>, sep: string): string
  {
    if |parts| == 0 then ""
    else if |parts| == 1 then parts[0]
    else parts[0] + sep + Join(parts[1..], sep)
  }

  /** The joined text is at least as long as each of its parts. */
  lemma {:induction false} JoinLength(parts: seq<string>, sep: string)
    ensures forall k :: 0 <= k < |parts| ==> |parts[k]| <= |Join(parts, sep)|
  {
    if |parts| > 1 {
      JoinLength(parts[1..], sep);
      forall k | 1 <= k < |parts| ensures |parts[k]| <= |Join(parts, sep)| {
        assert parts[k] == parts[1..][k - 1];
      }
    }
  }

  /** `s.split(c)`: always at least one part, none holding `c`. */
  function Split(s: string, c: char): (parts: seq<string>)
    ensures |parts| >= 1
    ensures forall k :: 0 <= k < |parts| ==> c !in parts[k]
  {
    if s == [] then [""]
    else
      var rest := Split(s[1..], c);
      if s[0] == c then [""] + rest
      else [[s[0]] + rest[0]] + rest[1..]
  }

  /** Joining the parts of a split with the separator gives the string back. */
  lemma {:induction false} JoinSplit(s: string, c: char)
    ensures Join(Split(s, c), [c]) == s
  {
    if s != [] {
      var rest := Split(s[1..], c);
      JoinSplit(s[1..], c);
      if s[0] == c {
        assert Join([""] + rest, [c]) == "" + [c] + Join(rest, [c]);
      } else if |rest| > 1 {
        assert ([[s[0]] + rest[0]] + rest[1..])[1..] == rest[1..];
        assert Join(rest, [c]) == rest[0] + [c] + Join(rest[1..], [c]);
      }
    }
  }

  /** Splitting a string with no separator in it yields the string alone. */
  lemma {:induction false} SplitNoSeparator(s: string, c: char)
    requires c !in s
    ensures Split(s, c) == [s]
  {
    if s != [] {
      SplitNoSeparator(s[1..], c);
      assert s[0] != c;
      assert [s[0]] + s[1..] == s;
    }
  }

  /** A separator after a separator-free prefix ends the first part. */
  lemma {:induction false} SplitAfterPrefix(a: string, b: string, c: char)
    requires c !in a
    ensures Split(a + [c] + b, c) == [a] + Split(b, c)
  {
    if a == [] {
      assert (a + [c] + b)[1..] == b;
    } else {
      assert (a + [c] + b)[1..] == a[1..] + [c] + b;
      SplitAfterPrefix(a[1..], b, c);
      assert (a + [c] + b)[0] == a[0] != c;
      assert [a[0]] + a[1..] == a;
    }
  }

  /** Splitting what was joined gives back the parts, when none holds the
      separator. */
  lemma {:induction false} SplitJoin(parts: seq<string>, c: char)
    requires |parts| >= 1
    requires forall k :: 0 <= k < |parts| ==> c !in parts[k]
    ensures Split(Join(parts, [c]), c) == parts
  {
    if |parts| == 1 {
      SplitNoSeparator(parts[0], c);
    } else {
      SplitJoin(parts[1..], c);
      SplitAfterPrefix(parts[0], Join(parts[1..], [c]), c);
    }
  }

  /** `pat in s` for strings. */
  predicate Contains(s: string, pat: string)
    decreases |s|
  {
    (|pat| <= |s| && s[..|pat|] == pat) || (s != [] && Contains(s[1..], pat))
  }

  predicate AllDigits(s: string)
  {
    |s| > 0 && forall i :: 0 <= i < |s| ==> IsDigit(s[i])
  }

  function DigitValue(c: char): nat
    requires IsDigit(c)
  {
    c as int - 48
  }

  /** The decimal value of a run of ASCII digits. */
  function DigitsValue(s: string): nat
    requires forall i :: 0 <= i < |s| ==> IsDigit(s[i])
  {
    if s == [] then 0
    else DigitsValue(s[..|s| - 1]) * 10 + DigitValue(s[|s| - 1])
  }

  /** The decimal digits of `n`, as `str(n)` writes them. */
  function ToDigits(n: nat): (s: string)
    ensures AllDigits(s)
  {
    if n < 10 then [(48 + n) as char]
    else ToDigits(n / 10) + [(48 + n % 10) as char]
  }

  lemma {:induction false} DigitsRoundTrip(n: nat)
    ensures DigitsValue(ToDigits(n)) == n
  {
    if n >= 10 {
      DigitsRoundTrip(n / 10);
      var s := ToDigits(n);
      assert s[..|s| - 1] == ToDigits(n / 10);
    }
  }

  /** Python's `int(s)` on ASCII input without digit grouping: surrounding
      whitespace, an optional sign, then at least one digit. Every other
      text is refused with `None`, where `int()` raises; this includes the
      underscore-grouped digits `int()` accepts ("1_0"). */
  function ParseInt(s: string): Option<int>
  {
    var t := Trim(s);
    if t != [] && (t[0] == '+' || t[0] == '-') then
      if AllDigits(t[1..]) then
        var v: int := DigitsValue(t[1..]);
        Some(if t[0] == '-' then -v else v)
      else None
    else if AllDigits(t) then Some(DigitsValue(t))
    else None
  }

  /** What `str(n)` writes, `int()` reads back. */
  lemma ParseIntRoundTrip(n: nat)
    ensures ParseInt(ToDigits(n)) == Some(n)
  {
    var s := ToDigits(n);
    assert TrimStart(s) == s;
    assert TrimEnd(s) == s;
    DigitsRoundTrip(n);
  }

  /** The model of `int()` accepts exactly the texts that, once stripped,
      are a digit or a sign followed by at least one more character, all
      later characters being digits; so "8a", "1.5", "" and the grouped
      "1_0" are refused. */
  lemma ParseIntSpec(s: string)
    ensures var t := Trim(s);
            ParseInt(s).Some? <==>
              && |t| > 0
              && (IsDigit(t[0]) || ((t[0] == '+' || t[0] == '-') && |t| > 1))
              && forall i :: 1 <= i < |t| ==> IsDigit(t[i])
  {
    var t := Trim(s);
    if |t| > 0 && (t[0] == '+' || t[0] == '-') {
      forall i | 1 <= i < |t| ensures t[1..][i - 1] == t[i] {
      }
    }
  }
}
