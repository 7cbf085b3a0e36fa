/**
 * The pure logic of the analyzer screen (components/HateSpeechAnalyzer.tsx):
 * the severity colour of a score, the safety recommendation, the analyze
 * handler as a state transition, and the plain-text report.
 */
module HateSpeechAnalyzer {
  import opened Types
  import opened Text
  import opened Ranking
  import opened HuggingFaceService

  // ---------------------------------------------------------------------------
  // getSeverityColor
  // ---------------------------------------------------------------------------

  /** The three colour buckets, from harmless to severe. */
  datatype Severity = Green | Orange | Red

  /** Position of a bucket in the order Green < Orange < Red. */
  function Rank(s: Severity): nat {
    match s
    case Green => 0
    case Orange => 1
    case Red => 2
  }

  /** The Tailwind class the source returns for each bucket. */
  function ColorClass(s: Severity): string {
    match s
    case Green => "bg-green-500"
    case Orange => "bg-orange-500"
    case Red => "bg-red-500"
  }

  /** `getSeverityColor(score)`: above 0.8 is red, above 0.5 orange, the rest green. */
  function SeverityColor(score: Score): (s: Severity)
    ensures s == Red <==> score > 8000
    ensures s == Orange <==> 5000 < score <= 8000
    ensures s == Green <==> score <= 5000
  {
    if score > 8000 then Red
    else if score > 5000 then Orange
    else Green
  }

  /** Both thresholds are strict: 0.8 is still orange and 0.5 still green. */
  lemma SeverityBoundaries()
    ensures SeverityColor(8000) == Orange && SeverityColor(8001) == Red
    ensures SeverityColor(5000) == Green && SeverityColor(5001) == Orange
  {
  }

  /** The class string `getSeverityColor` returns: each of the three classes on exactly its interval. */
  function SeverityClass(score: Score): (c: string)
    ensures c == "bg-red-500" <==> score > 8000
    ensures c == "bg-orange-500" <==> 5000 < score <= 8000
    ensures c == "bg-green-500" <==> score <= 5000
  {
    ColorClass(SeverityColor(score))
  }

  /** A higher score never lands in a lower bucket. */
  lemma SeverityMonotone(a: Score, b: Score)
    requires a <= b
    ensures Rank(SeverityColor(a)) <= Rank(SeverityColor(b))
  {
  }

  // ---------------------------------------------------------------------------
  // The safety recommendation
  // ---------------------------------------------------------------------------

  /** The two recommendation texts the results panel can show. */
  datatype Recommendation = ShowHighRisk | ShowLowRisk

  const HighRiskAdvice: string :=
    "This content has a high probability of being toxic. Consider blocking the sender and documenting this evidence using the 'Download Report' button."
  const LowRiskAdvice: string :=
    "This content appears to have low toxicity. However, trust your instincts. If you feel unsafe, use the Resources tab."

  function RecommendationText(r: Recommendation): string {
    match r
    case ShowHighRisk => HighRiskAdvice
    case ShowLowRisk => LowRiskAdvice
  }

  /**
   * `results[0]?.score > 0.7`: an empty list yields `undefined`, which is not
   * greater than 0.7, so it gets the low-toxicity text.
   */
  function RecommendationFor(results: seq<AnalysisResult>): (r: Recommendation)
    ensures r == ShowHighRisk <==> |results| > 0 && results[0].score > 7000
  {
    if |results| > 0 && results[0].score > 7000 then ShowHighRisk else ShowLowRisk
  }

  /** The sentence the results panel shows: the high-toxicity one exactly when the first score is above 0.7. */
  function RecommendationSentence(results: seq<AnalysisResult>): (m: string)
    ensures m == HighRiskAdvice <==> |results| > 0 && results[0].score > 7000
    ensures m == LowRiskAdvice <==> !(|results| > 0 && results[0].score > 7000)
  {
    assert |HighRiskAdvice| != |LowRiskAdvice|;
    RecommendationText(RecommendationFor(results))
  }

  /**
   * On a list sorted by score, looking at the first record alone decides
   * whether any record is above 0.7.
   */
  lemma RecommendationOnSorted(results: seq<AnalysisResult>)
    requires SortedDesc(results)
    ensures RecommendationFor(results) == ShowHighRisk <==>
              exists i :: 0 <= i < |results| && results[i].score > 7000
  {
    if exists i :: 0 <= i < |results| && results[i].score > 7000 {
      var i :| 0 <= i < |results| && results[i].score > 7000;
      assert results[0].score >= results[i].score;
    }
  }

  /** Every list the service returns is sorted, so the recommendation reflects its highest score. */
  lemma RecommendationForAnalysis(text: string, outcome: FetchOutcome)
    ensures var rs := AnalyzeTextToxicity(text, outcome);
            RecommendationFor(rs) == ShowHighRisk <==> exists i :: 0 <= i < |rs| && rs[i].score > 7000
  {
    RecommendationOnSorted(AnalyzeTextToxicity(text, outcome));
  }

  // ---------------------------------------------------------------------------
  // handleAnalyze
  // ---------------------------------------------------------------------------

  /** The component state: the text box, the last results (`null` before any), the busy flag. */
  datatype AnalyzerState = AnalyzerState(inputText: string, results: Option<seq<AnalysisResult>>, isAnalyzing: bool)

  /** How the awaited `analyzeTextToxicity` call settled. */
  datatype CallOutcome = Resolved(data: seq<AnalysisResult>) | Rejected

  /** The Analyze button is enabled only when idle and the text is not blank. */
  predicate CanSubmit(st: AnalyzerState) {
    !st.isAnalyzing && !IsBlank(st.inputText)
  }

  /** The state rendered while the call is in flight, or `None` when the guard returns early. */
  function BeginAnalyze(st: AnalyzerState): (busy: Option<AnalyzerState>)
    ensures busy.None? <==> IsBlank(st.inputText)
    ensures busy.Some? ==> busy.value.isAnalyzing && !CanSubmit(busy.value)
    ensures busy.Some? ==> busy.value.inputText == st.inputText && busy.value.results == st.results
  {
    if IsBlank(st.inputText) then None else Some(st.(isAnalyzing := true))
  }

  /** The `try`/`catch`/`finally` after the call: store the data, or keep the old results. */
  function FinishAnalyze(busy: AnalyzerState, call: CallOutcome): (st: AnalyzerState)
    ensures !st.isAnalyzing && st.inputText == busy.inputText
    ensures call.Resolved? ==> st.results == Some(call.data)
    ensures call.Rejected? ==> st.results == busy.results
  {
    match call
    case Resolved(data) => busy.(results := Some(data), isAnalyzing := false)
    case Rejected => busy.(isAnalyzing := false)
  }

  /** `handleAnalyze`: a no-op on blank text, otherwise one call with the flag cleared afterwards. */
  function HandleAnalyze(st: AnalyzerState, call: CallOutcome): (st': AnalyzerState)
    ensures IsBlank(st.inputText) ==> st' == st
    ensures !IsBlank(st.inputText) ==> !st'.isAnalyzing && st'.inputText == st.inputText
    ensures !IsBlank(st.inputText) && call.Resolved? ==> st'.results == Some(call.data)
    ensures call.Rejected? ==> st'.results == st.results
  {
    match BeginAnalyze(st)
    case None => st
    case Some(busy) => FinishAnalyze(busy, call)
  }

  /**
   * With the real service behind it the call never rejects, so a non-blank
   * analysis always stores a sorted result list; when the request failed that
   * list is the non-empty keyword fallback.
   */
  lemma HandleAnalyzeWithService(st: AnalyzerState, outcome: FetchOutcome)
    requires !IsBlank(st.inputText)
    ensures var st' := HandleAnalyze(st, Resolved(AnalyzeTextToxicity(st.inputText, outcome)));
            && st'.results.Some?
            && SortedDesc(st'.results.value)
            && (Fails(outcome) ==> st'.results.value == KeywordFallback(st.inputText) && |st'.results.value| >= 2)
            && !st'.isAnalyzing
  {
  }

  // ---------------------------------------------------------------------------
  // generateReport
  // ---------------------------------------------------------------------------

  const Title: string := "SAFEGUARD TOXICITY REPORT"
  const Rule: string := "-------------------------"
  const Disclaimer: string :=
    "Note: This is an automated " + "analysis using AI models " + "and should not be used as " + "sole legal evidence."

  /**
   * `(score * 100).toFixed(2)`. A score in basis points is a whole number of
   * hundredths of a percent, so the two decimals are exact.
   */
  function PercentText(score: Score): (t: string)
    ensures |t| >= 4 && t[|t| - 3] == '.'
    ensures ' ' !in t && '\n' !in t
  {
    var whole := NatToString(score / 100);
    whole + "." + [DigitChar(score % 100 / 10), DigitChar(score % 10)]
  }

  /** Reads a percentage written with exactly two decimals back into basis points. */
  function ParsePercent(t: string): Option<Score> {
    if |t| < 4 || t[|t| - 3] != '.' || !IsDigit(t[|t| - 2]) || !IsDigit(t[|t| - 1]) then None
    else match ParseNat(t[..|t| - 3])
      case None => None
      case Some(whole) => Some(whole * 100 + DigitValue(t[|t| - 2]) * 10 + DigitValue(t[|t| - 1]))
  }

  /** The percentage text reads back as the score it was written from. */
  lemma ParsePercentText(score: Score)
    ensures ParsePercent(PercentText(score)) == Some(score)
  {
    var t := PercentText(score);
    var whole := NatToString(score / 100);
    assert t[..|t| - 3] == whole;
    ParseNatToString(score / 100);
    assert score % 100 == score % 100 / 10 * 10 + score % 10;
  }

  /** One line of the results section: `label: pct%`. */
  function ResultLine(r: AnalysisResult): (line: string)
    ensures |line| > |r.name| + 2 && line[..|r.name|] == r.name && line[|line| - 1] == '%'
  {
    r.name + ": " + PercentText(r.score) + "%"
  }

  /** Reads a `label: pct%` line, splitting at the last space. */
  function ParseResultLine(line: string): Option<AnalysisResult> {
    if |line| == 0 || line[|line| - 1] != '%' then None
    else
      var body := line[..|line| - 1];
      match LastIndexOf(body, ' ')
      case None => None
      case Some(k) =>
        if k == 0 || body[k - 1] != ':' then None
        else match ParsePercent(body[k + 1..])
          case None => None
          case Some(score) => Some(AnalysisResult(body[..k - 1], score))
  }

  /** A result line reads back as the record it was written from, whatever its label. */
  lemma ParseResultLineRoundTrip(r: AnalysisResult)
    ensures ParseResultLine(ResultLine(r)) == Some(r)
  {
    var line := ResultLine(r);
    var pct := PercentText(r.score);
    var body := line[..|line| - 1];
    assert body == (r.name + ":") + [' '] + pct;
    LastIndexOfAfter(r.name + ":", ' ', pct);
    assert body[|r.name| + 2..] == pct;
    assert body[..|r.name|] == r.name;
    ParsePercentText(r.score);
  }

  /** The lines of the results section, one per record, in list order. */
  function ResultLines(results: seq<AnalysisResult>): (lines: seq<string>)
    ensures |lines| == |results|
  {
    if |results| == 0 then [] else [ResultLine(results[0])] + ResultLines(results[1..])
  }

  /** `results.map(...).join('\n')` */
  function ResultsSection(results: seq<AnalysisResult>): (r: string)
    ensures r == [] <==> |results| == 0
  {
    Join(ResultLines(results), '\n')
  }

  /** Reads each line back; `None` if any line is malformed. */
  function ParseResultLines(lines: seq<string>): Option<seq<AnalysisResult>> {
    if |lines| == 0 then Some([])
    else match (ParseResultLine(lines[0]), ParseResultLines(lines[1..]))
      case (Some(r), Some(rest)) => Some([r] + rest)
      case _ => None
  }

  /** No label holds a line break. */
  predicate SingleLineLabels(results: seq<AnalysisResult>) {
    forall i :: 0 <= i < |results| ==> '\n' !in results[i].name
  }

  /** Each result line is free of line breaks when its label is. */
  lemma {:induction false} ResultLinesSingleLine(results: seq<AnalysisResult>)
    requires SingleLineLabels(results)
    ensures forall k :: 0 <= k < |ResultLines(results)| ==> '\n' !in ResultLines(results)[k]
    decreases |results|
  {
    if |results| > 0 {
      ResultLinesSingleLine(results[1..]);
      var lines := ResultLines(results);
      forall k | 0 <= k < |lines|
        ensures '\n' !in lines[k]
      {
        if k > 0 {
          assert lines[k] == ResultLines(results[1..])[k - 1];
        }
      }
    }
  }

  /** Every result line reads back as its record. */
  lemma {:induction false} ParseResultLinesRoundTrip(results: seq<AnalysisResult>)
    ensures ParseResultLines(ResultLines(results)) == Some(results)
    decreases |results|
  {
    if |results| > 0 {
      ParseResultLinesRoundTrip(results[1..]);
      ParseResultLineRoundTrip(results[0]);
      var lines := ResultLines(results);
      assert lines[1..] == ResultLines(results[1..]);
      assert [results[0]] + results[1..] == results;
    }
  }

  /**
   * The results section holds one line per record, in list order, and
   * reading those lines back yields the records.
   */
  lemma ResultsSectionRoundTrip(results: seq<AnalysisResult>)
    requires |results| > 0 && SingleLineLabels(results)
    ensures Split(ResultsSection(results), '\n') == ResultLines(results)
    ensures ParseResultLines(Split(ResultsSection(results), '\n')) == Some(results)
  {
    ResultLinesSingleLine(results);
    SplitJoin(ResultLines(results), '\n');
    ParseResultLinesRoundTrip(results);
  }

  /** The lines above the input text: title, timestamp, rule and caption. */
  function PreambleLines(timestamp: string): seq<string> {
    [Title, "Generated: " + timestamp, Rule, "INPUT TEXT:"]
  }

  /** The rule and caption between the input text and the results. */
  const MiddleLines: seq<string> := [Rule, "ANALYSIS RESULTS:"]

  /** The rule and disclaimer that close the report. */
  const FooterLines: seq<string> := [Rule, Disclaimer]

  /** Everything in front of the opening quote of the input text. */
  function ReportPreamble(timestamp: string): string {
    Join(PreambleLines(timestamp), '\n') + "\n"
  }

  /** The input text between double quotes, as the template writes it. */
  function Quoted(inputText: string): (q: string)
    ensures |q| == |inputText| + 2 && q[0] == '"' && q[|q| - 1] == '"'
    ensures q[1..|q| - 1] == inputText
  {
    "\"" + inputText + "\""
  }

  /** Everything after the closing quote of the input text. */
  function ReportRest(results: seq<AnalysisResult>): string {
    "\n" + Join(MiddleLines, '\n') + "\n" + ResultsSection(results) + "\n" + Join(FooterLines, '\n')
  }

  /**
   * The report as the template literal lays it out, between its outer
   * padding: title, `Generated:` line, rule, `INPUT TEXT:`, the quoted
   * text, rule, `ANALYSIS RESULTS:`, the results section, rule, disclaimer,
   * one per line.
   */
  function ReportBody(timestamp: string, inputText: string, results: seq<AnalysisResult>): string {
    ReportPreamble(timestamp) + Quoted(inputText) + ReportRest(results)
  }

  /**
   * `generateReport`: nothing while no analysis has stored results (an empty
   * list is not `null`, so it still gets a report); otherwise the trimmed
   * template. The clock reading is the `timestamp` parameter.
   */
  function GenerateReport(inputText: string, results: Option<seq<AnalysisResult>>, timestamp: string)
    : (report: Option<string>)
    ensures report.None? <==> results.None?
    ensures report.Some? ==> report.value == ReportBody(timestamp, inputText, results.value)
  {
    match results
    case None => None
    case Some(rs) =>
      var raw := "\n" + ReportBody(timestamp, inputText, rs) + "\n    ";
      ReportTrimmed(timestamp, inputText, rs);
      Some(Trim(raw))
  }

  // The fixed lines of the template hold no line break; each literal is
  // checked in a lemma of its own to keep the proofs small.

  lemma TitleAndRuleSingleLine()
    ensures '\n' !in Title && '\n' !in Rule
  {
  }

  lemma CaptionsSingleLine()
    ensures '\n' !in "Generated: " && '\n' !in "INPUT TEXT:" && '\n' !in "ANALYSIS RESULTS:"
  {
  }

  lemma DisclaimerOpeningSingleLine()
    ensures '\n' !in "Note: This is an automated " && '\n' !in "analysis using AI models "
  {
  }

  lemma DisclaimerClosingSingleLine()
    ensures '\n' !in "and should not be used as " && '\n' !in "sole legal evidence."
  {
  }

  lemma FixedLinesSingleLine()
    ensures '\n' !in Title && '\n' !in Rule && '\n' !in Disclaimer
    ensures '\n' !in "Generated: " && '\n' !in "INPUT TEXT:" && '\n' !in "ANALYSIS RESULTS:"
  {
    TitleAndRuleSingleLine();
    CaptionsSingleLine();
    DisclaimerOpeningSingleLine();
    DisclaimerClosingSingleLine();
  }

  /** `.trim()` only removes the template's outer newline and indentation. */
  lemma ReportTrimmed(timestamp: string, inputText: string, results: seq<AnalysisResult>)
    ensures Trim("\n" + ReportBody(timestamp, inputText, results) + "\n    ")
            == ReportBody(timestamp, inputText, results)
  {
    var body := ReportBody(timestamp, inputText, results);
    var pre := ReportPreamble(timestamp);
    var last := Join(FooterLines, '\n');
    assert FooterLines[1..] == [Disclaimer];
    assert Join(FooterLines[1..], '\n') == Disclaimer;
    assert last == Rule + "\n" + Disclaimer;
    assert body[0] == pre[0] == Title[0] == 'S';
    assert Disclaimer[|Disclaimer| - 1] == '.';
    assert body[|body| - 1] == last[|last| - 1] == '.';
    TrimPadded("\n", body, "\n    ");
  }

  /** The input text appears verbatim, between quotes, right after the preamble. */
  lemma ReportQuotesInput(timestamp: string, inputText: string, results: seq<AnalysisResult>)
    ensures var report := GenerateReport(inputText, Some(results), timestamp).value;
            OccursAt(report, Quoted(inputText), |ReportPreamble(timestamp)|)
  {
    var report := GenerateReport(inputText, Some(results), timestamp).value;
    var pre := ReportPreamble(timestamp);
    assert report[|pre|..|pre| + |Quoted(inputText)|] == Quoted(inputText);
  }

  /** Regroups the report's five parts around the four line breaks between them. */
  lemma ReportParts(a: string, b: string, c: string, d: string, e: string)
    ensures (a + "\n") + b + ("\n" + c + "\n" + d + "\n" + e)
            == a + ['\n'] + (b + ['\n'] + (c + ['\n'] + (d + ['\n'] + e)))
  {
  }

  /** Splitting five parts joined by line breaks splits each part on its own. */
  lemma SplitParts(a: string, b: string, c: string, d: string, e: string)
    ensures Split(a + ['\n'] + (b + ['\n'] + (c + ['\n'] + (d + ['\n'] + e))), '\n')
            == Split(a, '\n') + (Split(b, '\n') + (Split(c, '\n') + (Split(d, '\n') + Split(e, '\n'))))
  {
    var de := d + ['\n'] + e;
    var cde := c + ['\n'] + de;
    var bcde := b + ['\n'] + cde;
    SplitConcat(d, '\n', e);
    SplitConcat(c, '\n', de);
    SplitConcat(b, '\n', cde);
    SplitConcat(a, '\n', bcde);
  }

  /** Regroups five line lists from right-nested to left-nested concatenation. */
  lemma RegroupLines(a: seq<string>, b: seq<string>, c: seq<string>, d: seq<string>, e: seq<string>)
    ensures a + (b + (c + (d + e))) == a + b + c + d + e
  {
  }

  /** The fixed line groups split back into their lines. */
  lemma FixedGroupsSplit(timestamp: string)
    requires '\n' !in timestamp
    ensures Split(Join(PreambleLines(timestamp), '\n'), '\n') == PreambleLines(timestamp)
    ensures Split(Join(MiddleLines, '\n'), '\n') == MiddleLines
    ensures Split(Join(FooterLines, '\n'), '\n') == FooterLines
  {
    FixedLinesSingleLine();
    var pre := PreambleLines(timestamp);
    assert forall k :: 0 <= k < |pre| ==> '\n' !in pre[k] by {
      assert pre[1] == "Generated: " + timestamp;
    }
    SplitJoin(pre, '\n');
    SplitJoin(MiddleLines, '\n');
    SplitJoin(FooterLines, '\n');
  }

  /** The report body is its five parts joined by line breaks. */
  lemma ReportBodyParts(timestamp: string, inputText: string, results: seq<AnalysisResult>)
    ensures ReportBody(timestamp, inputText, results)
            == Join(PreambleLines(timestamp), '\n') + ['\n']
               + (Quoted(inputText) + ['\n'] + (Join(MiddleLines, '\n') + ['\n']
               + (ResultsSection(results) + ['\n'] + Join(FooterLines, '\n'))))
  {
    ReportParts(Join(PreambleLines(timestamp), '\n'), Quoted(inputText), Join(MiddleLines, '\n'),
                ResultsSection(results), Join(FooterLines, '\n'));
  }

  /** A single-line text stays a single line between its quotes. */
  lemma QuotedSingleLine(inputText: string)
    requires '\n' !in inputText
    ensures Split(Quoted(inputText), '\n') == [Quoted(inputText)]
  {
    assert '\n' !in Quoted(inputText);
    SplitNoSeparator(Quoted(inputText), '\n');
  }

  /** Five parts joined by line breaks split into the concatenation of their own lines. */
  lemma SplitFive(a: string, b: string, c: string, d: string, e: string,
                  la: seq<string>, lb: seq<string>, lc: seq<string>, ld: seq<string>, le: seq<string>)
    requires Split(a, '\n') == la && Split(b, '\n') == lb && Split(c, '\n') == lc
    requires Split(d, '\n') == ld && Split(e, '\n') == le
    ensures Split(a + ['\n'] + (b + ['\n'] + (c + ['\n'] + (d + ['\n'] + e))), '\n') == la + lb + lc + ld + le
  {
    SplitParts(a, b, c, d, e);
    RegroupLines(la, lb, lc, ld, le);
  }

  /**
   * With a single-line timestamp and single-line labels, the report's lines
   * are the fixed header, the lines of the quoted text (one line when the
   * text holds no line break, see `QuotedSingleLine`), the fixed caption, one
   * line per record in list order, and the fixed footer.
   */
  lemma ReportLines(timestamp: string, inputText: string, results: seq<AnalysisResult>)
    requires '\n' !in timestamp
    requires |results| > 0 && SingleLineLabels(results)
    ensures Split(GenerateReport(inputText, Some(results), timestamp).value, '\n')
            == PreambleLines(timestamp) + Split(Quoted(inputText), '\n') + MiddleLines + ResultLines(results) + FooterLines
  {
    var q := Quoted(inputText);
    assert GenerateReport(inputText, Some(results), timestamp).value == ReportBody(timestamp, inputText, results);
    ReportBodyParts(timestamp, inputText, results);
    FixedGroupsSplit(timestamp);
    ResultsSectionRoundTrip(results);
    SplitFive(Join(PreambleLines(timestamp), '\n'), q, Join(MiddleLines, '\n'), ResultsSection(results),
              Join(FooterLines, '\n'), PreambleLines(timestamp), Split(q, '\n'), MiddleLines, ResultLines(results),
              FooterLines);
  }

  /** The report with no results stored is absent; with an empty list it has an empty results line. */
  lemma ReportOfEmptyResults(timestamp: string, inputText: string)
    ensures GenerateReport(inputText, None, timestamp).None?
    ensures GenerateReport(inputText, Some([]), timestamp).Some?
    ensures ResultsSection([]) == []
  {
  }
}
