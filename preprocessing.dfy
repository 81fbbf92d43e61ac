/** The text normaliser of QueryLens: `clean_text`, applied to every document
    when the index is built and to every query when it is searched.

    Characters are modelled as ASCII: `IsSpace` is Python's `str.isspace`
    on the ASCII range (the same class that `str.strip`, `str.split` and the
    regular expression class `\s` use), `Lower` lower-cases `A`-`Z` only.
    The stop-word list is a parameter, so every property below holds for any
    list. */
module Preprocessing {

  /** A value as `clean_text` receives it: Python's `None`, a float NaN, or
      a string. Any other object reaches `clean_text` as its `str()`
      rendering, that is as `Str` (pandas' `NaT` as `Str("NaT")`). */
  datatype RawValue = Null | FloatNaN | Str(s: string)

  /** The whole-text markers that tabular loading leaves for missing cells. */
  const Markers: set<string> := {"nan", "nat", "none"}

  // ---------------------------------------------------------------------
  // Character classes and per-character maps
  // ---------------------------------------------------------------------

  /** ASCII whitespace in Python's sense: tab to carriage return, the four
      information separators 0x1C-0x1F, and the space. */
  predicate IsSpace(c: char)
  {
    c == ' ' || ('\t' <= c <= '\r') || ('\U{1C}' <= c <= '\U{1F}')
  }

  predicate NotSpace(c: char)
  {
    !IsSpace(c)
  }

  predicate IsLetter(c: char)
  {
    'a' <= c <= 'z'
  }

  function LowerChar(c: char): char
  {
    if 'A' <= c <= 'Z' then (c as int + 32) as char else c
  }

  /** `str.lower` on ASCII text. */
  function Lower(s: string): string
  {
    seq(|s|, i requires 0 <= i < |s| => LowerChar(s[i]))
  }

  /** The substitution `[^a-z\s]` -> `" "`. */
  function ScrubChar(c: char): char
  {
    if IsLetter(c) || IsSpace(c) then c else ' '
  }

  function Scrub(s: string): string
  {
    seq(|s|, i requires 0 <= i < |s| => ScrubChar(s[i]))
  }

  // ---------------------------------------------------------------------
  // strip, split, join
  // ---------------------------------------------------------------------

  function TrimLeft(s: string): string
  {
    if s != [] && IsSpace(s[0]) then TrimLeft(s[1..]) else s
  }

  function TrimRight(s: string): string
  {
    if s != [] && IsSpace(s[|s| - 1]) then TrimRight(s[..|s| - 1]) else s
  }

  /** `str.strip()` with no argument. */
  function Strip(s: string): string
  {
    TrimRight(TrimLeft(s))
  }

  /** Length of the longest prefix of `s` whose characters all satisfy `p`. */
  function RunLength(s: string, p: char -> bool): (n: nat)
    ensures n <= |s|
    ensures forall i :: 0 <= i < n ==> p(s[i])
    ensures n < |s| ==> !p(s[n])
  {
    if s != [] && p(s[0]) then 1 + RunLength(s[1..], p) else 0
  }

  /** The maximal runs of `p`-characters of `s`, left to right. */
  function Runs(s: string, p: char -> bool): seq<string>
    decreases |s|
  {
    if s == [] then []
    else if !p(s[0]) then Runs(s[1..], p)
    else
      var n := RunLength(s, p);
      [s[..n]] + Runs(s[n..], p)
  }

  /** `str.split()` with no argument: the maximal non-whitespace runs. */
  function Split(s: string): seq<string>
  {
    Runs(s, NotSpace)
  }

  /** The maximal runs of letters `a`-`z`: the reference against which the
      normaliser's tokens are stated. */
  function LetterRuns(s: string): seq<string>
  {
    Runs(s, IsLetter)
  }

  /** The list comprehension keeping non-empty tokens outside `stop`. */
  function RemoveStops(tokens: seq<string>, stop: set<string>): seq<string>
  {
    if tokens == [] then []
    else
      (if tokens[0] != "" && tokens[0] !in stop then [tokens[0]] else [])
      + RemoveStops(tokens[1..], stop)
  }

  /** `" ".join(tokens)`. */
  function Join(tokens: seq<string>): string
  {
    if tokens == [] then ""
    else if |tokens| == 1 then tokens[0]
    else tokens[0] + " " + Join(tokens[1..])
  }

  // ---------------------------------------------------------------------
  // clean_text
  // ---------------------------------------------------------------------

  /** `clean_text(text)`: missing values and the missing-value markers become
      the empty text; otherwise the lower-cased text, with everything but
      letters and whitespace turned into spaces, split into words, stop
      words removed, joined with single spaces. */
  function CleanText(v: RawValue, stop: set<string>): string
  {
    match v
    case Null => ""
    case FloatNaN => ""
    case Str(s) =>
      var stripped := Strip(s);
      if stripped == "" then ""
      else
        var lowered := Lower(stripped);
        if lowered in Markers then ""
        else Join(RemoveStops(Split(Scrub(lowered)), stop))
  }

  /** A word as the normaliser emits it: non-empty, letters `a`-`z` only. */
  predicate IsWord(w: string)
  {
    w != [] && forall i :: 0 <= i < |w| ==> IsLetter(w[i])
  }

  predicate AllWords(ws: seq<string>)
  {
    forall i :: 0 <= i < |ws| ==> IsWord(ws[i])
  }

  /** The shape of every normalised text: letters and single spaces, no
      space at either end. */
  predicate IsCleanForm(r: string)
  {
    && (forall i :: 0 <= i < |r| ==> IsLetter(r[i]) || r[i] == ' ')
    && (r != [] ==> r[0] != ' ' && r[|r| - 1] != ' ')
    && (forall i :: 0 <= i < |r| - 1 && r[i] == ' ' ==> r[i + 1] != ' ')
  }

  // ---------------------------------------------------------------------
  // Lemmas about runs
  // ---------------------------------------------------------------------

  /** The contract of `RunLength` determines it. */
  lemma RunLengthIs(s: string, p: char -> bool, n: nat)
    requires n <= |s|
    requires forall i :: 0 <= i < n ==> p(s[i])
    requires n < |s| ==> !p(s[n])
    ensures RunLength(s, p) == n
  {
  }

  lemma {:induction false} LetterRunsAreWords(s: string)
    ensures AllWords(LetterRuns(s))
    decreases |s|
  {
    if s == [] {
    } else if !IsLetter(s[0]) {
      LetterRunsAreWords(s[1..]);
    } else {
      var n := RunLength(s, IsLetter);
      assert n >= 1;
      LetterRunsAreWords(s[n..]);
      assert IsWord(s[..n]);
    }
  }

  /** After scrubbing, the whitespace-separated tokens are exactly the letter
      runs of the text before scrubbing. */
  lemma {:induction false} SplitScrub(x: string)
    ensures Split(Scrub(x)) == LetterRuns(x)
    decreases |x|
  {
    var y := Scrub(x);
    if x == [] {
      assert y == [];
    } else if !IsLetter(x[0]) {
      assert y[1..] == Scrub(x[1..]);
      SplitScrub(x[1..]);
    } else {
      var n := RunLength(x, IsLetter);
      RunLengthIs(y, NotSpace, n);
      assert y[..n] == x[..n];
      assert y[n..] == Scrub(x[n..]);
      SplitScrub(x[n..]);
    }
  }

  lemma {:induction false} RunsDropLast(v: string, c: char)
    requires !IsLetter(c)
    ensures LetterRuns(v + [c]) == LetterRuns(v)
    decreases |v|
  {
    var w := v + [c];
    if v == [] {
      assert w[1..] == [];
    } else if !IsLetter(v[0]) {
      assert w[1..] == v[1..] + [c];
      RunsDropLast(v[1..], c);
    } else {
      var n := RunLength(v, IsLetter);
      RunLengthIs(w, IsLetter, n);
      assert w[..n] == v[..n];
      assert w[n..] == v[n..] + [c];
      RunsDropLast(v[n..], c);
    }
  }

  lemma {:induction false} RunsTrimLeft(t: string)
    ensures LetterRuns(TrimLeft(t)) == LetterRuns(t)
    decreases |t|
  {
    if t != [] && IsSpace(t[0]) {
      RunsTrimLeft(t[1..]);
    }
  }

  lemma {:induction false} RunsTrimRight(t: string)
    ensures LetterRuns(TrimRight(t)) == LetterRuns(t)
    decreases |t|
  {
    if t != [] && IsSpace(t[|t| - 1]) {
      var u := t[..|t| - 1];
      RunsTrimRight(u);
      assert t == u + [t[|t| - 1]];
      RunsDropLast(u, t[|t| - 1]);
    }
  }

  lemma {:induction false} LowerTrimLeft(s: string)
    ensures Lower(TrimLeft(s)) == TrimLeft(Lower(s))
    decreases |s|
  {
    if s != [] && IsSpace(s[0]) {
      assert Lower(s)[1..] == Lower(s[1..]);
      LowerTrimLeft(s[1..]);
    }
  }

  lemma {:induction false} LowerTrimRight(s: string)
    ensures Lower(TrimRight(s)) == TrimRight(Lower(s))
    decreases |s|
  {
    if s != [] && IsSpace(s[|s| - 1]) {
      assert Lower(s)[..|s| - 1] == Lower(s[..|s| - 1]);
      LowerTrimRight(s[..|s| - 1]);
    }
  }

  /** Stripping before lower-casing does not change the letter runs. */
  lemma StripKeepsLetterRuns(s: string)
    ensures LetterRuns(Lower(Strip(s))) == LetterRuns(Lower(s))
  {
    LowerTrimLeft(s);
    LowerTrimRight(TrimLeft(s));
    RunsTrimRight(TrimLeft(Lower(s)));
    RunsTrimLeft(Lower(s));
  }

  /** No whitespace at either end. */
  predicate IsStripped(s: string)
  {
    s == [] || (NotSpace(s[0]) && NotSpace(s[|s| - 1]))
  }

  lemma {:induction false} TrimLeftShape(s: string)
    ensures TrimLeft(s) == [] || NotSpace(TrimLeft(s)[0])
    decreases |s|
  {
    if s != [] && IsSpace(s[0]) {
      TrimLeftShape(s[1..]);
    }
  }

  lemma {:induction false} TrimRightShape(s: string)
    ensures |TrimRight(s)| <= |s| && TrimRight(s) == s[..|TrimRight(s)|]
    ensures TrimRight(s) == [] || NotSpace(TrimRight(s)[|TrimRight(s)| - 1])
    decreases |s|
  {
    if s != [] && IsSpace(s[|s| - 1]) {
      TrimRightShape(s[..|s| - 1]);
    }
  }

  /** `strip` leaves no whitespace at either end, and changes nothing in a
      text that has none there. */
  lemma StripShape(s: string)
    ensures IsStripped(Strip(s))
    ensures IsStripped(s) ==> Strip(s) == s
  {
    TrimLeftShape(s);
    TrimRightShape(TrimLeft(s));
    if s != [] && NotSpace(s[0]) && NotSpace(s[|s| - 1]) {
      assert TrimLeft(s) == s;
    }
  }

  // ---------------------------------------------------------------------
  // Lemmas about the stop-word filter and join
  // ---------------------------------------------------------------------

  /** A token survives the filter exactly when it is non-empty and not a
      stop word. */
  lemma {:induction false} RemoveStopsMembers(ts: seq<string>, stop: set<string>)
    ensures forall t :: t in RemoveStops(ts, stop) <==> t in ts && t != "" && t !in stop
  {
    if ts != [] {
      RemoveStopsMembers(ts[1..], stop);
      assert ts == [ts[0]] + ts[1..];
    }
  }

  /** When no token is empty or a stop word, the filter changes nothing. */
  lemma {:induction false} RemoveStopsKeepsAll(ts: seq<string>, stop: set<string>)
    requires forall i :: 0 <= i < |ts| ==> ts[i] != "" && ts[i] !in stop
    ensures RemoveStops(ts, stop) == ts
  {
    if ts != [] {
      RemoveStopsKeepsAll(ts[1..], stop);
      assert ts == [ts[0]] + ts[1..];
    }
  }

  /** The filter keeps exactly the non-empty tokens outside `stop`. */
  lemma RemoveStopsProperties(ts: seq<string>, stop: set<string>)
    ensures forall t :: t in RemoveStops(ts, stop) <==> t in ts && t != "" && t !in stop
    ensures AllWords(ts) ==> AllWords(RemoveStops(ts, stop))
    ensures (forall i :: 0 <= i < |ts| ==> ts[i] != "" && ts[i] !in stop) ==> RemoveStops(ts, stop) == ts
    ensures RemoveStops(ts, stop) == [] <==> forall i :: 0 <= i < |ts| ==> ts[i] == "" || ts[i] in stop
  {
    var r := RemoveStops(ts, stop);
    RemoveStopsMembers(ts, stop);
    if forall i :: 0 <= i < |ts| ==> ts[i] != "" && ts[i] !in stop {
      RemoveStopsKeepsAll(ts, stop);
    }
    if AllWords(ts) {
      forall j | 0 <= j < |r| ensures IsWord(r[j]) {
        assert r[j] in r;
        var i :| 0 <= i < |ts| && ts[i] == r[j];
      }
    }
    if r != [] {
      assert r[0] in r;
      var i :| 0 <= i < |ts| && ts[i] == r[0];
    } else {
      forall i | 0 <= i < |ts| ensures ts[i] == "" || ts[i] in stop {
        assert ts[i] in ts;
      }
    }
  }

  lemma {:induction false} JoinWordsShape(ws: seq<string>)
    requires AllWords(ws)
    ensures IsCleanForm(Join(ws))
    ensures Join(ws) == "" <==> ws == []
    ensures ws != [] ==> Join(ws)[0] == ws[0][0]
  {
    if |ws| > 1 {
      JoinWordsShape(ws[1..]);
      var w, j := ws[0], Join(ws[1..]);
      var r := w + " " + j;
      assert r == Join(ws);
      assert forall i :: 0 <= i < |r| ==> IsLetter(r[i]) || r[i] == ' ' by {
        forall i | 0 <= i < |r| ensures IsLetter(r[i]) || r[i] == ' ' {
          if i > |w| { assert r[i] == j[i - |w| - 1]; }
        }
      }
      assert r[|r| - 1] == j[|j| - 1];
      forall i | 0 <= i < |r| - 1 && r[i] == ' ' ensures r[i + 1] != ' ' {
        if i == |w| {
          assert r[i + 1] == j[0];
        } else if i > |w| {
          assert r[i] == j[i - |w| - 1] && r[i + 1] == j[i - |w|];
        }
      }
    }
  }

  /** Joining non-empty stripped texts gives a stripped text, empty only
      when there is nothing to join. */
  lemma {:induction false} JoinStripped(ws: seq<string>)
    requires forall i :: 0 <= i < |ws| ==> ws[i] != "" && IsStripped(ws[i])
    ensures IsStripped(Join(ws))
    ensures Join(ws) == "" <==> ws == []
  {
    if |ws| > 1 {
      JoinStripped(ws[1..]);
      var r := ws[0] + " " + Join(ws[1..]);
      assert r == Join(ws);
      assert r[|r| - 1] == Join(ws[1..])[|Join(ws[1..])| - 1];
    }
  }

  /** Splitting a join of words gives the words back. */
  lemma {:induction false} SplitJoin(ws: seq<string>)
    requires AllWords(ws)
    ensures Split(Join(ws)) == ws
  {
    if ws == [] {
    } else {
      var w := ws[0];
      assert IsWord(w);
      if |ws| == 1 {
        assert NotSpace(w[0]) && Join(ws) == w;
        RunLengthIs(w, NotSpace, |w|);
        assert w[..|w|] == w;
        assert w[|w|..] == [];
        assert Split(w) == [w] + Split([]);
      } else {
        var j := Join(ws[1..]);
        var r := w + " " + j;
        assert r == Join(ws);
        RunLengthIs(r, NotSpace, |w|);
        assert r[..|w|] == w;
        assert Split(r) == [w] + Runs(r[|w|..], NotSpace);
        assert r[|w|..][0] == ' ' && r[|w|..][1..] == j;
        assert Runs(r[|w|..], NotSpace) == Split(j);
        SplitJoin(ws[1..]);
        assert ws == [w] + ws[1..];
      }
    }
  }

  // ---------------------------------------------------------------------
  // Properties of clean_text
  // ---------------------------------------------------------------------

  lemma {:induction false} TrimLeftBlank(s: string)
    requires forall i :: 0 <= i < |s| ==> IsSpace(s[i])
    ensures TrimLeft(s) == ""
    decreases |s|
  {
    if s != [] {
      TrimLeftBlank(s[1..]);
    }
  }

  /** Missing values - `None`, a float NaN, the empty text and a text of
      whitespace only - normalise to the empty text. */
  lemma MissingCleansToEmpty(v: RawValue, stop: set<string>)
    requires v.Null? || v.FloatNaN? || forall i :: 0 <= i < |v.s| ==> IsSpace(v.s[i])
    ensures CleanText(v, stop) == ""
  {
    if v.Str? {
      TrimLeftBlank(v.s);
    }
  }

  /** A query made only of whitespace normalises to "". */
  lemma BlankQueryCleansToEmpty(q: string, stop: set<string>)
    ensures (forall i :: 0 <= i < |q| ==> IsSpace(q[i])) ==> CleanText(Str(q), stop) == ""
  {
    if forall i :: 0 <= i < |q| ==> IsSpace(q[i]) {
      MissingCleansToEmpty(Str(q), stop);
    }
  }

  /** Outside the marker case, the normalised text is the join of the letter
      runs of the lower-cased input that are not stop words. */
  lemma CleanTextAsLetterRuns(s: string, stop: set<string>)
    ensures Lower(Strip(s)) in Markers ==> CleanText(Str(s), stop) == ""
    ensures Lower(Strip(s)) !in Markers ==>
      CleanText(Str(s), stop) == Join(RemoveStops(LetterRuns(Lower(s)), stop))
  {
    var lowered := Lower(Strip(s));
    StripKeepsLetterRuns(s);
    SplitScrub(lowered);
    if Strip(s) == "" {
      assert lowered == [];
      assert LetterRuns(lowered) == [];
    }
  }

  /** The tokens of the output are exactly the non-stop-word maximal letter
      runs of the lower-cased input, in order and with repetitions. */
  lemma CleanTextTokens(s: string, stop: set<string>)
    requires Lower(Strip(s)) !in Markers
    ensures Split(CleanText(Str(s), stop)) == RemoveStops(LetterRuns(Lower(s)), stop)
  {
    CleanTextAsLetterRuns(s, stop);
    LetterRunsAreWords(Lower(s));
    RemoveStopsProperties(LetterRuns(Lower(s)), stop);
    SplitJoin(RemoveStops(LetterRuns(Lower(s)), stop));
  }

  /** A text normalises to the empty text exactly when it is a marker or
      every letter run in it is a stop word. */
  lemma CleanTextEmptyIff(s: string, stop: set<string>)
    ensures CleanText(Str(s), stop) == "" <==>
      (Lower(Strip(s)) in Markers || forall w :: w in LetterRuns(Lower(s)) ==> w in stop)
  {
    CleanTextAsLetterRuns(s, stop);
    var runs := LetterRuns(Lower(s));
    LetterRunsAreWords(Lower(s));
    RemoveStopsProperties(runs, stop);
    JoinWordsShape(RemoveStops(runs, stop));
    var kept := RemoveStops(runs, stop);
    if forall w :: w in runs ==> w in stop {
      assert forall i :: 0 <= i < |runs| ==> runs[i] in stop;
    }
    if Lower(Strip(s)) !in Markers && Join(kept) == "" {
      forall w | w in runs ensures w in stop {
        var i :| 0 <= i < |runs| && runs[i] == w;
        assert IsWord(runs[i]);
      }
    }
  }

  /** Every normalised text is letters and single spaces with no space at
      either end, and none of its tokens is a stop word. */
  lemma CleanTextWellFormed(v: RawValue, stop: set<string>)
    ensures IsCleanForm(CleanText(v, stop))
    ensures AllWords(Split(CleanText(v, stop)))
    ensures forall t :: t in Split(CleanText(v, stop)) ==> t !in stop
  {
    var r := CleanText(v, stop);
    if r == "" {
      assert Split(r) == [];
    } else {
      var s := v.s;
      CleanTextAsLetterRuns(s, stop);
      var ws := RemoveStops(LetterRuns(Lower(s)), stop);
      LetterRunsAreWords(Lower(s));
      RemoveStopsProperties(LetterRuns(Lower(s)), stop);
      JoinWordsShape(ws);
      SplitJoin(ws);
    }
  }

  lemma LowerScrubCleanForm(r: string)
    requires IsCleanForm(r)
    ensures Lower(r) == r && Scrub(r) == r && Strip(r) == r
  {
    if r != [] {
      assert TrimLeft(r) == r;
      assert TrimRight(r) == r;
    }
  }

  /** Normalising a normalised text changes nothing, unless the first result
      is itself one of the markers. */
  lemma CleanTextIdempotent(v: RawValue, stop: set<string>)
    requires CleanText(v, stop) !in Markers
    ensures CleanText(Str(CleanText(v, stop)), stop) == CleanText(v, stop)
  {
    var r := CleanText(v, stop);
    if r != "" {
      CleanTextWellFormed(v, stop);
      LowerScrubCleanForm(r);
      var s := v.s;
      CleanTextAsLetterRuns(s, stop);
      var ws := RemoveStops(LetterRuns(Lower(s)), stop);
      LetterRunsAreWords(Lower(s));
      RemoveStopsProperties(LetterRuns(Lower(s)), stop);
      SplitJoin(ws);
      RemoveStopsProperties(ws, stop);
    }
  }

  /** The marker exception is real: "NaN!" normalises to "nan", which in turn
      normalises to the empty text. */
  lemma MarkerBreaksIdempotence(stop: set<string>)
    requires "nan" !in stop
    ensures CleanText(Str("NaN!"), stop) == "nan"
    ensures CleanText(Str("nan"), stop) == ""
  {
    var s := "NaN!";
    assert Strip(s) == s;
    assert Lower(s) == "nan!";
    assert Scrub("nan!") == "nan ";
    var t := "nan ";
    RunLengthIs(t, NotSpace, 3);
    assert t[..3] == "nan";
    assert Split(t[3..]) == [];
    assert Split(t) == ["nan"];
    assert RemoveStops(["nan"], stop) == ["nan"];
    assert Strip("nan") == "nan";
    assert Lower("nan") == "nan";
  }
}
