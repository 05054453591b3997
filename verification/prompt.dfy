/** `buildReviewPrompt`: the text sent to the reviewer model. A header with the code in
    a language-tagged fence, then (when the user has history) a hint quoting the start of
    the three most recent reviews, then a fixed five-point instruction block. */
module Prompt {
  import opened JsValues
  import opened Records
  import Seqs

  /** How many past reviews the hint quotes. */
  const RecentCount: nat := 3

  /** How many leading characters of each past review the hint quotes. */
  const ExcerptLength: nat := 100

  const Separator: string := "; "

  const HintLead: string := "\nBased on past reviews, focus on patterns you've identified before: "

  const HintEnd: string := "\n\n"

  const Instructions: string :=
    "Provide:\n1. Overall assessment\n2. Specific issues or bugs\n3. Suggestions for improvement\n4. Security concerns (if any)\n5. Performance considerations"

  /** The opening: the language's name (or "code"), then the snippet fenced with the
      language as tag (or no tag). */
  function Header(code: string, language: Option<string>): (r: string)
    ensures "Review this " <= r
    ensures |r| >= |code| + |Closing| && r[|r| - |code| - |Closing|..] == code + Closing
  {
    "Review this " + OrElse(language, "code") + " snippet:\n\n```" + OrElse(language, "")
    + "\n" + code + Closing
  }

  /** What follows the code in the header: the closing fence and a blank line. */
  const Closing: string := "\n```\n\n"

  /** The start of one past review, as the hint quotes it. */
  function Excerpt(rec: Record): string {
    Seqs.Take(rec.review, ExcerptLength)
  }

  /** The quoted start of each of the most recent reviews, oldest first. */
  function Excerpts(history: seq<Record>): (r: seq<string>)
    ensures |r| == Seqs.Min(|history|, RecentCount)
    ensures forall i :: 0 <= i < |r| ==> r[i] == Excerpt(history[|history| - |r| + i])
  {
    var recent := Seqs.Last(history, RecentCount);
    seq(|recent|, i requires 0 <= i < |recent| => Excerpt(recent[i]))
  }

  /** The history hint: empty without history. */
  function Hint(history: seq<Record>): (r: string)
    ensures r == "" <==> |history| == 0
    ensures |history| > 0 ==> HintLead <= r && r[|r| - |HintEnd|..] == HintEnd
  {
    if |history| > 0 then HintLead + Seqs.Join(Excerpts(history), Separator) + HintEnd else ""
  }

  /** The whole prompt. */
  function BuildPrompt(code: string, language: Option<string>, history: seq<Record>): (r: string)
    ensures Header(code, language) <= r
    ensures |r| >= |Instructions| && r[|r| - |Instructions|..] == Instructions
  {
    Header(code, language) + Hint(history) + Instructions
  }

  /** Without history the prompt is the header followed directly by the instructions:
      no hint at all. */
  lemma NoHistoryNoHint(code: string, language: Option<string>)
    ensures BuildPrompt(code, language, []) == Header(code, language) + Instructions
  {
    assert Hint([]) == "";
    assert Header(code, language) + "" == Header(code, language);
  }

  /** With one past review the hint quotes just that review. */
  lemma HintQuotesOne(a: Record)
    ensures Hint([a]) == HintLead + Excerpt(a) + HintEnd
  {
    var ex := Excerpts([a]);
    assert ex == [Excerpt(a)];
    assert Seqs.Join(ex, Separator) == Excerpt(a);
  }

  /** With two past reviews the hint quotes both, oldest first, separated by "; ". */
  lemma HintQuotesTwo(history: seq<Record>)
    requires |history| == 2
    ensures Hint(history) == HintLead + Excerpt(history[0]) + Separator + Excerpt(history[1]) + HintEnd
  {
    var ex := Excerpts(history);
    assert Hint(history) == HintLead + Seqs.Join(ex, Separator) + HintEnd;
    assert ex == [Excerpt(history[0]), Excerpt(history[1])];
    assert Seqs.Join(ex[1..], Separator) == ex[1];
    assert Seqs.Join(ex, Separator) == ex[0] + Separator + ex[1];
  }

  /** With three or more past reviews the hint quotes exactly the last three, oldest first,
      separated by "; ". */
  lemma HintQuotesLastThree(history: seq<Record>)
    requires |history| >= RecentCount
    ensures Hint(history)
      == HintLead + Excerpt(history[|history| - 3]) + Separator + Excerpt(history[|history| - 2])
         + Separator + Excerpt(history[|history| - 1]) + HintEnd
  {
    var ex := Excerpts(history);
    assert Hint(history) == HintLead + Seqs.Join(ex, Separator) + HintEnd;
    assert ex == [Excerpt(history[|history| - 3]), Excerpt(history[|history| - 2]), Excerpt(history[|history| - 1])];
    assert Seqs.Join(ex[2..], Separator) == ex[2];
    assert ex[1..][1..] == ex[2..];
    assert Seqs.Join(ex[1..], Separator) == ex[1] + Separator + ex[2];
    assert Seqs.Join(ex, Separator) == ex[0] + Separator + (ex[1] + Separator + ex[2]);
  }

  /** The longest the quoted part of the hint can be: three excerpts and two separators. */
  const MaxQuoted: nat := RecentCount * ExcerptLength + (RecentCount - 1) * |Separator|

  /** However long the history, the hint holds at most three hundred quoted characters
      plus two separators. */
  lemma HintBounded(history: seq<Record>)
    ensures |Hint(history)| <= |HintLead| + MaxQuoted + |HintEnd|
  {
    if |history| > 0 {
      var ex := Excerpts(history);
      Seqs.JoinLength(ex, Separator);
      Seqs.SumLengthsBounded(ex, ExcerptLength);
      assert |ex| <= RecentCount;
      assert (|ex| - 1) * |Separator| <= (RecentCount - 1) * |Separator|;
      assert |ex| * ExcerptLength <= RecentCount * ExcerptLength;
    }
  }

  /** The prompt's length is bounded by the code and language alone, not by the history. */
  lemma PromptBounded(code: string, language: Option<string>, history: seq<Record>)
    ensures |BuildPrompt(code, language, history)|
      <= |Header(code, language)| + |HintLead| + MaxQuoted + |HintEnd| + |Instructions|
  {
    HintBounded(history);
  }

  /** Only the last three entries matter: older history never reaches the prompt. */
  lemma OlderHistoryIgnored(older: seq<Record>, recent: seq<Record>)
    requires |recent| >= RecentCount
    ensures Hint(older + recent) == Hint(recent)
  {
    var a := Excerpts(older + recent);
    var b := Excerpts(recent);
    assert |a| == |b|;
    forall i | 0 <= i < |a|
      ensures a[i] == b[i]
    {
      var h := older + recent;
      assert h[|h| - |a| + i] == recent[|recent| - |b| + i];
    }
    assert a == b;
  }
}
