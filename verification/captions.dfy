/** The two-line caption both pipelines write: the English text in yellow,
    the subtitle line break `\N`, then the Spanish text. */
module Captions {
  import opened Strings

  /** The line-break marker of a subtitle event. */
  const Break: string := "\\N"
  const FontOpen: string := "<font color='#ffff00'>"
  const FontClose: string := "</font>"

  /** The English caption as it is shown: in yellow. */
  function Yellow(txt: string): string
  {
    FontOpen + txt + FontClose
  }

  /** The composite caption: `top` in yellow above `bottom`. */
  function Dual(top: string, bottom: string): string
  {
    Yellow(top) + Break + bottom
  }

  /** A slice of a string without markers has none either. */
  lemma NoBreakSlice(s: string, a: nat, b: nat)
    requires a <= b <= |s|
    requires forall i :: !BreakAt(s, i)
    ensures forall i :: !BreakAt(s[a..b], i)
  {
    forall i | 0 <= i && i + 1 < b - a ensures !BreakAt(s[a..b], i) {
      assert s[a..b][i] == s[a + i] && s[a..b][i + 1] == s[a + i + 1];
      assert !BreakAt(s, a + i);
    }
  }

  /** A cleaned caption holds no line-break marker. */
  lemma CleanNoBreak(text: string)
    ensures forall i :: !BreakAt(Clean(text), i)
  {
    var r := ReplaceBreaks(text);
    ReplaceBreaksSpec(text);
    var a := TrimStart(r);
    TrimStartSuffix(r);
    NoBreakSlice(r, |r| - |a|, |r|);
    assert r[|r| - |a|..|r|] == a;
    var t := TrimEnd(a);
    TrimEndPrefix(a);
    NoBreakSlice(a, 0, |t|);
    assert a[0..|t|] == t;
  }

  /** The first marker of a composite caption is the one between its two
      lines, so both lines are recovered by cutting there: the yellow
      English line before it and the Spanish line after it. */
  lemma DualSplit(top: string, bottom: string)
    requires forall i :: !BreakAt(top, i)
    ensures var d := Dual(top, bottom);
            var n := |Yellow(top)|;
            && BreakAt(d, n)
            && d[..n] == Yellow(top)
            && d[n + 2..] == bottom
            && forall i :: 0 <= i < n ==> !BreakAt(d, i)
  {
    var d := Dual(top, bottom);
    var n := |Yellow(top)|;
    var m := |FontOpen|;
    assert d[..n] == Yellow(top);
    assert d[n + 2..] == bottom;
    forall i | 0 <= i < n ensures !BreakAt(d, i) {
      if i < m {
        assert d[i] == FontOpen[i];
      } else if i < m + |top| - 1 {
        assert d[i] == top[i - m] && d[i + 1] == top[i - m + 1];
        assert !BreakAt(top, i - m);
      } else if i == m + |top| - 1 {
        assert d[i + 1] == FontClose[0];
      } else {
        assert d[i] == FontClose[i - m - |top|];
      }
    }
  }
}
