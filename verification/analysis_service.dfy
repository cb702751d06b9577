/** `AnalysisService.Analyze`: the deterministic stand-in for the AI analysis. It
    counts the space-separated words of the text, clamps the count to [1, 50],
    reports it in a fixed sentence and returns three fixed action items. */
module AnalysisService {
  import opened Common
  import opened Text

  // ---------------------------------------------------------------------------
  // `text.Split(' ')` and `StringSplitOptions.RemoveEmptyEntries`

  /** `s.Split(' ')`: the pieces between the space characters, empty ones included. */
  function SplitOnSpace(s: string): (parts: seq<string>)
    ensures |parts| >= 1
    ensures forall i :: 0 <= i < |parts| ==> ' ' !in parts[i]
  {
    if s == [] then [""]
    else
      var rest := SplitOnSpace(s[1..]);
      if s[0] == ' ' then [""] + rest
      else [[s[0]] + rest[0]] + rest[1..]
  }

  /** `string.Join(' ', parts)`. */
  function JoinWithSpace(parts: seq<string>): string {
    if |parts| == 0 then ""
    else if |parts| == 1 then parts[0]
    else parts[0] + " " + JoinWithSpace(parts[1..])
  }

  /** Splitting loses nothing: joining the pieces back with single spaces gives the text. */
  lemma {:induction false} SplitJoinRoundTrip(s: string)
    ensures JoinWithSpace(SplitOnSpace(s)) == s
  {
    if s != [] {
      var rest := SplitOnSpace(s[1..]);
      SplitJoinRoundTrip(s[1..]);
      if s[0] == ' ' {
        assert ([""] + rest)[1..] == rest;
      } else {
        var parts := [[s[0]] + rest[0]] + rest[1..];
        if |rest| > 1 {
          assert parts[1..] == rest[1..];
          assert JoinWithSpace(rest) == rest[0] + " " + JoinWithSpace(rest[1..]);
        }
      }
    }
  }

  predicate SpaceFree(w: string) {
    ' ' !in w
  }

  /** Splitting a space-free word followed by more text: the word opens the first piece. */
  lemma {:induction false} SplitAfterWord(w: string, t: string)
    requires SpaceFree(w)
    ensures SplitOnSpace(w + t) == [w + SplitOnSpace(t)[0]] + SplitOnSpace(t)[1..]
  {
    if w != [] {
      SplitAfterWord(w[1..], t);
      assert (w + t)[1..] == w[1..] + t;
      assert (w + t)[0] == w[0];
      assert [w[0]] + (w[1..] + SplitOnSpace(t)[0]) == w + SplitOnSpace(t)[0];
    } else {
      var parts := SplitOnSpace(t);
      assert w + t == t && w + parts[0] == parts[0];
      assert [parts[0]] + parts[1..] == parts;
    }
  }

  /** Splitting undoes joining: space-free pieces joined with spaces split back into the same pieces. */
  lemma {:induction false} JoinSplitRoundTrip(parts: seq<string>)
    requires |parts| >= 1
    requires forall i :: 0 <= i < |parts| ==> SpaceFree(parts[i])
    ensures SplitOnSpace(JoinWithSpace(parts)) == parts
  {
    if |parts| == 1 {
      SplitAfterWord(parts[0], "");
      assert parts[0] + "" == parts[0];
    } else {
      var tail := JoinWithSpace(parts[1..]);
      JoinSplitRoundTrip(parts[1..]);
      assert parts[0] + " " + tail == parts[0] + (" " + tail);
      SplitAfterWord(parts[0], " " + tail);
      assert (" " + tail)[1..] == tail;
      assert SplitOnSpace(" " + tail) == [""] + parts[1..];
      assert parts[0] + "" == parts[0];
      assert parts == [parts[0]] + parts[1..];
    }
  }

  /** `RemoveEmptyEntries`: drops the empty pieces and keeps the others in order. */
  function NonEmpty(parts: seq<string>): (r: seq<string>)
    ensures |r| <= |parts|
    ensures forall i :: 0 <= i < |r| ==> r[i] != [] && r[i] in parts
    ensures forall x :: x in r <==> x in parts && x != []
  {
    if parts == [] then []
    else if parts[0] == [] then NonEmpty(parts[1..])
    else [parts[0]] + NonEmpty(parts[1..])
  }

  /** The words of the text: `text.Split(' ', StringSplitOptions.RemoveEmptyEntries)`. */
  function Words(text: string): (r: seq<string>)
    ensures forall i :: 0 <= i < |r| ==> r[i] != [] && SpaceFree(r[i])
    ensures forall w :: w in r <==> w in SplitOnSpace(text) && w != []
  {
    NonEmpty(SplitOnSpace(text))
  }

  /** Dropping the empty pieces works piece by piece: it keeps the order of the
      non-empty pieces of both halves. */
  lemma {:induction false} NonEmptyAppend(a: seq<string>, b: seq<string>)
    ensures NonEmpty(a + b) == NonEmpty(a) + NonEmpty(b)
  {
    if a != [] {
      NonEmptyAppend(a[1..], b);
      assert (a + b)[1..] == a[1..] + b;
    } else {
      assert a + b == b;
    }
  }

  /** Joining two non-empty lists of pieces puts one space between their joins. */
  lemma {:induction false} JoinAppend(p: seq<string>, q: seq<string>)
    requires |p| >= 1 && |q| >= 1
    ensures JoinWithSpace(p + q) == JoinWithSpace(p) + " " + JoinWithSpace(q)
  {
    if |p| > 1 {
      JoinAppend(p[1..], q);
      assert (p + q)[1..] == p[1..] + q;
    } else {
      assert (p + q)[1..] == q;
    }
  }

  /** A space splits the text in two: the pieces are those of either side. */
  lemma SplitAtSpace(a: string, b: string)
    ensures SplitOnSpace(a + " " + b) == SplitOnSpace(a) + SplitOnSpace(b)
  {
    var pa, pb := SplitOnSpace(a), SplitOnSpace(b);
    SplitJoinRoundTrip(a);
    SplitJoinRoundTrip(b);
    JoinAppend(pa, pb);
    JoinSplitRoundTrip(pa + pb);
  }

  /** The words on either side of a space, however many more spaces surround it,
      are the words of the whole, in order; so `"a  b"` has the two words `"a"`
      and `"b"`. */
  lemma WordsAcrossSpace(a: string, b: string)
    ensures Words(a + " " + b) == Words(a) + Words(b)
  {
    SplitAtSpace(a, b);
    NonEmptyAppend(SplitOnSpace(a), SplitOnSpace(b));
  }

  lemma {:induction false} NonEmptyKeepsNonEmpty(parts: seq<string>)
    requires forall i :: 0 <= i < |parts| ==> parts[i] != []
    ensures NonEmpty(parts) == parts
  {
    if parts != [] {
      NonEmptyKeepsNonEmpty(parts[1..]);
      assert parts == [parts[0]] + parts[1..];
    }
  }

  lemma {:induction false} NonEmptyOfEmpties(parts: seq<string>)
    requires forall i :: 0 <= i < |parts| ==> parts[i] == []
    ensures NonEmpty(parts) == []
  {
    if parts != [] {
      NonEmptyOfEmpties(parts[1..]);
    }
  }

  /** Any list of non-empty, space-free words written with single spaces between
      them is read back as exactly those words, so the count is the number of words. */
  lemma WordsOfJoinedWords(ws: seq<string>)
    requires |ws| >= 1
    requires forall i :: 0 <= i < |ws| ==> ws[i] != [] && SpaceFree(ws[i])
    ensures Words(JoinWithSpace(ws)) == ws
  {
    JoinSplitRoundTrip(ws);
    NonEmptyKeepsNonEmpty(ws);
  }

  /** Only the space character separates words: a non-empty text without a space
      character, however many tabs or newlines it holds, is a single word. */
  lemma OnlySpaceSeparates(text: string)
    requires text != [] && SpaceFree(text)
    ensures Words(text) == [text]
  {
    WordsOfJoinedWords([text]);
  }

  /** A text that is empty or made only of spaces has no words. */
  lemma {:induction false} SpacesHaveNoWords(text: string)
    requires forall i :: 0 <= i < |text| ==> text[i] == ' '
    ensures Words(text) == []
  {
    var parts := SplitOnSpace(text);
    SplitJoinRoundTrip(text);
    forall i | 0 <= i < |parts| ensures parts[i] == [] {
      SpacesSplitIntoEmpties(text, i);
    }
    NonEmptyOfEmpties(parts);
  }

  lemma {:induction false} SpacesSplitIntoEmpties(text: string, i: nat)
    requires forall k :: 0 <= k < |text| ==> text[k] == ' '
    requires i < |SplitOnSpace(text)|
    ensures SplitOnSpace(text)[i] == []
  {
    if text != [] {
      var rest := SplitOnSpace(text[1..]);
      if i > 0 {
        SpacesSplitIntoEmpties(text[1..], i - 1);
      }
    }
  }

  // ---------------------------------------------------------------------------
  // `Analyze`

  const MinWords: nat := 1
  const MaxWords: nat := 50

  /** `Math.Max(1, Math.Min(50, words.Length))`. */
  function WordCount(text: string): (n: nat)
    ensures MinWords <= n <= MaxWords
    ensures MinWords <= |Words(text)| <= MaxWords ==> n == |Words(text)|
    ensures |Words(text)| == 0 ==> n == MinWords
    ensures |Words(text)| > MaxWords ==> n == MaxWords
  {
    var w := |Words(text)|;
    if w < MinWords then MinWords else if w > MaxWords then MaxWords else w
  }

  const SummaryPrefix: string := "Auto-summary (MVP). ~"
  const SummarySuffix: string := " words processed."

  /** The interpolated `$"Auto-summary (MVP). ~{words} words processed."`. */
  function SummaryFor(count: nat): string {
    SummaryPrefix + NatToString(count) + SummarySuffix
  }

  /** The fixed action items, in this order. */
  const FixedActions: seq<string> := ["Follow up on topic A", "Decide next steps for B", "Schedule next meeting"]

  datatype Analysis = Analysis(summary: string, actions: seq<string>)

  function Analyze(text: string): (r: Analysis)
    ensures r.actions == FixedActions
  {
    Analysis(SummaryFor(WordCount(text)), FixedActions)
  }

  /** Reads the count back out of a summary sentence, if the sentence has the fixed shape. */
  function ReportedCount(summary: string): Option<nat> {
    var p, q := |SummaryPrefix|, |SummarySuffix|;
    if |summary| > p + q && summary[..p] == SummaryPrefix && summary[|summary| - q..] == SummarySuffix
       && forall i :: p <= i < |summary| - q ==> IsDigit(summary[i])
    then Some(DigitsValue(summary[p..|summary| - q]))
    else None
  }

  /** The summary is the fixed sentence around the clamped word count: parsing it
      back yields exactly that count. */
  lemma SummaryReportsWordCount(text: string)
    ensures ReportedCount(Analyze(text).summary) == Some(WordCount(text))
  {
    var n := WordCount(text);
    var d := NatToString(n);
    assert Analyze(text).summary == SummaryPrefix + d + SummarySuffix;
    FramedParts(SummaryPrefix, d, SummarySuffix);
    NatToStringRoundTrip(n);
  }

  /** The parts of `pre + d + suf` are found again at their offsets. */
  lemma FramedParts(pre: string, d: string, suf: string)
    ensures var s := pre + d + suf;
      && s[..|pre|] == pre && s[|s| - |suf|..] == suf && s[|pre|..|s| - |suf|] == d
      && forall i :: |pre| <= i < |s| - |suf| ==> s[i] == d[i - |pre|]
  {
  }

  /** The action list does not depend on the text. */
  lemma ActionsIgnoreInput(a: string, b: string)
    ensures Analyze(a).actions == Analyze(b).actions
    ensures |Analyze(a).actions| == 3
  {
  }
}
