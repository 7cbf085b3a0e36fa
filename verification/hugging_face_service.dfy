/**
 * `analyzeTextToxicity` (services/huggingFaceService.ts): ask the hosted
 * classifier, keep its first batch sorted by score, and fall back to a
 * keyword heuristic whenever the request throws.
 *
 * The HTTP exchange is not modelled; its outcome is a parameter, so every
 * path the source can take is reachable by choosing that outcome.
 */
module HuggingFaceService {
  import opened Types
  import opened Text
  import opened Ranking

  // ---------------------------------------------------------------------------
  // The request outcome
  // ---------------------------------------------------------------------------

  /** One element of the decoded body: an array of records, or any other JSON value. */
  datatype BodyItem = Batch(results: seq<AnalysisResult>) | NotABatch

  /** The value `response.json()` decoded: an array, or any other JSON value. */
  datatype JsonBody = JsonArray(items: seq<BodyItem>) | NotAnArray

  /** What `fetch` and `response.json()` produced for one call. */
  datatype FetchOutcome =
    | NetworkFailure                      // `fetch` rejected
    | HttpError(statusText: string)       // `response.ok` was false
    | Received(body: Option<JsonBody>)    // status ok; `None` when the body was not JSON

  /** How the `try` block ended: by throwing, or by returning a list. */
  datatype Attempt = Threw | Returned(results: seq<AnalysisResult>)

  /** True iff the outcome makes the `try` block throw. */
  predicate Fails(outcome: FetchOutcome) {
    outcome.NetworkFailure? || outcome.HttpError? || outcome == Received(None)
  }

  /** The shape test: a non-empty array whose first element is itself an array. */
  predicate WellShaped(body: JsonBody) {
    body.JsonArray? && |body.items| > 0 && body.items[0].Batch?
  }

  /** The first batch of a well-shaped body; the later ones are never read. */
  function FirstBatch(body: JsonBody): seq<AnalysisResult>
    requires WellShaped(body)
  {
    body.items[0].results
  }

  /** The request half of the `try` block: throw on failure, else validate the shape and sort. */
  function Request(outcome: FetchOutcome): (a: Attempt)
    ensures a.Threw? <==> Fails(outcome)
    ensures a.Returned? ==> SortedDesc(a.results)
    ensures outcome.Received? && outcome.body.Some? && WellShaped(outcome.body.value) ==>
              multiset(a.results) == multiset(FirstBatch(outcome.body.value))
    ensures outcome.Received? && outcome.body.Some? && !WellShaped(outcome.body.value) ==>
              a == Returned([])
  {
    match outcome
    case NetworkFailure => Threw
    case HttpError(_) => Threw
    case Received(None) => Threw
    case Received(Some(body)) =>
      if WellShaped(body) then Returned(SortByScoreDesc(FirstBatch(body))) else Returned([])
  }

  // ---------------------------------------------------------------------------
  // The keyword fallback
  // ---------------------------------------------------------------------------

  const Toxicity: string := "toxicity"
  const SevereToxicity: string := "severe_toxicity"
  const Insult: string := "insult"
  const Threat: string := "threat"

  /** The fixed records of the fallback table (scores 0.95, 0.88, 0.92, 0.02, 0.01). */
  const HighToxicity := AnalysisResult(Toxicity, 9500)
  const HighInsult := AnalysisResult(Insult, 8800)
  const HighThreat := AnalysisResult(Threat, 9200)
  const LowToxicity := AnalysisResult(Toxicity, 200)
  const LowSevereToxicity := AnalysisResult(SevereToxicity, 100)

  /** True iff the lower-cased text contains one of the four trigger words. */
  predicate HasTriggerWord(lower: string)
    ensures HasTriggerWord(lower) ==> |lower| >= 4
  {
    Contains(lower, "hate") || Contains(lower, "stupid") || Contains(lower, "kill") || Contains(lower, "ugly")
  }

  /** The records the fallback pushes, in push order, before sorting. */
  function MockResults(lower: string): (r: seq<AnalysisResult>)
    ensures HighToxicity in r <==> HasTriggerWord(lower)
    ensures HighThreat in r <==> Contains(lower, "kill")
    ensures |r| == (if Contains(lower, "kill") then 3 else 2)
  {
    if HasTriggerWord(lower) then
      [HighToxicity, HighInsult] + (if Contains(lower, "kill") then [HighThreat] else [])
    else
      [LowToxicity, LowSevereToxicity]
  }

  /** The `catch` block: score the lower-cased text by keywords and sort. */
  function KeywordFallback(text: string): (r: seq<AnalysisResult>)
    ensures SortedDesc(r) && UniqueLabels(r) && |r| >= 2
    ensures HasTriggerWord(ToLower(text)) ==> HighToxicity in r && HighInsult in r
    ensures HasLabel(r, Threat) <==> Contains(ToLower(text), "kill")
    ensures !HasTriggerWord(ToLower(text)) ==> r == [LowToxicity, LowSevereToxicity]
  {
    var lower := ToLower(text);
    var r := SortByScoreDesc(MockResults(lower));
    FallbackTable(lower);
    TableLabels();
    r
  }

  /** Sorting the pushed threat table moves the threat record between the other two. */
  lemma SortThreatTable()
    ensures SortByScoreDesc([HighToxicity, HighInsult, HighThreat]) == [HighToxicity, HighThreat, HighInsult]
  {
    var m := [HighToxicity, HighInsult, HighThreat];
    assert m[1..] == [HighInsult, HighThreat] && m[1..][1..] == [HighThreat];
    assert SortByScoreDesc([HighThreat]) == [HighThreat];
    assert Insert(HighInsult, [HighThreat]) == [HighThreat, HighInsult];
    assert SortByScoreDesc(m[1..]) == [HighThreat, HighInsult];
  }

  /** The tables without a threat record are already sorted. */
  lemma SortTwoRecordTables()
    ensures SortByScoreDesc([HighToxicity, HighInsult]) == [HighToxicity, HighInsult]
    ensures SortByScoreDesc([LowToxicity, LowSevereToxicity]) == [LowToxicity, LowSevereToxicity]
  {
    SortOfSorted([HighToxicity, HighInsult]);
    SortOfSorted([LowToxicity, LowSevereToxicity]);
  }

  /** The three tables the fallback can emit, sorted. */
  lemma FallbackTable(lower: string)
    ensures !HasTriggerWord(lower) ==>
              SortByScoreDesc(MockResults(lower)) == [LowToxicity, LowSevereToxicity]
    ensures HasTriggerWord(lower) && !Contains(lower, "kill") ==>
              SortByScoreDesc(MockResults(lower)) == [HighToxicity, HighInsult]
    ensures Contains(lower, "kill") ==>
              SortByScoreDesc(MockResults(lower)) == [HighToxicity, HighThreat, HighInsult]
  {
    SortThreatTable();
    SortTwoRecordTables();
  }

  /** Label facts about the three tables. */
  lemma TableLabels()
    ensures UniqueLabels([LowToxicity, LowSevereToxicity]) && !HasLabel([LowToxicity, LowSevereToxicity], Threat)
    ensures UniqueLabels([HighToxicity, HighInsult]) && !HasLabel([HighToxicity, HighInsult], Threat)
    ensures UniqueLabels([HighToxicity, HighThreat, HighInsult]) && HasLabel([HighToxicity, HighThreat, HighInsult], Threat)
  {
    assert [HighToxicity, HighThreat, HighInsult][1].name == Threat;
  }

  /** A threat record never appears without both the toxicity and the insult record. */
  lemma FallbackThreatHasCompanions(text: string)
    ensures HasLabel(KeywordFallback(text), Threat) ==>
              HasLabel(KeywordFallback(text), Toxicity) && HasLabel(KeywordFallback(text), Insult)
  {
    var r := KeywordFallback(text);
    if HasLabel(r, Threat) {
      FallbackTable(ToLower(text));
      assert r[0].name == Toxicity && r[2].name == Insult;
    }
  }

  /** The fallback only looks at the lower-cased text, so it ignores letter case. */
  lemma FallbackIgnoresCase(a: string, b: string)
    requires ToLower(a) == ToLower(b)
    ensures KeywordFallback(a) == KeywordFallback(b)
    ensures KeywordFallback(ToLower(a)) == KeywordFallback(a)
  {
    ToLowerIdempotent(a);
  }

  /** A small-letter trigger word found in the text, in any casing, is found in the lower-cased text. */
  lemma TriggerAt(text: string, w: string, k: int)
    requires forall j :: 0 <= j < |w| ==> 'a' <= w[j] <= 'z'
    requires OccursAt(ToLower(text), w, k)
    ensures Contains(ToLower(text), w)
  {
    ContainsIff(ToLower(text), w);
  }

  /** No `k` of any casing in the text means no `kill` in the lower-cased text. */
  lemma NoKill(text: string)
    requires 'k' !in text && 'K' !in text && '\U{212A}' !in text
    ensures !Contains(ToLower(text), "kill")
  {
    LowerMissesLetter(text, 'k');
    MissingCharNotContained(ToLower(text), "kill", 0);
  }

  const Insulting: string := "I hate you, you are so stupid"

  /** The insulting example holds `hate` at index 2. */
  lemma InsultingHasHate()
    ensures OccursAt(Insulting, "hate", 2)
  {
    var t := Insulting;
    assert t[2] == 'h' && t[3] == 'a' && t[4] == 't' && t[5] == 'e';
    assert t[2..6] == "hate";
  }

  /** The insulting example has no `k` of any casing. */
  lemma InsultingLacksK()
    ensures 'k' !in Insulting && 'K' !in Insulting && '\U{212A}' !in Insulting
  {
  }

  /** "I hate you, you are so stupid" gets toxicity 0.95 then insult 0.88. */
  lemma InsultExample()
    ensures KeywordFallback(Insulting) == [HighToxicity, HighInsult]
  {
    InsultingHasHate();
    LowerOccurrence(Insulting, "hate", 2);
    assert ToLower("hate") == "hate";
    TriggerAt(Insulting, "hate", 2);
    InsultingLacksK();
    NoKill(Insulting);
    FallbackTable(ToLower(Insulting));
  }

  const Threatening: string := "you should just kill yourself"

  /** The threatening example holds `kill` at index 16. */
  lemma ThreateningHasKill()
    ensures OccursAt(Threatening, "kill", 16)
  {
    var t := Threatening;
    assert t[16] == 'k' && t[17] == 'i' && t[18] == 'l' && t[19] == 'l';
    assert t[16..20] == "kill";
  }

  /** "you should just kill yourself" gets toxicity 0.95, threat 0.92, insult 0.88. */
  lemma ThreatExample()
    ensures KeywordFallback(Threatening) == [HighToxicity, HighThreat, HighInsult]
  {
    ThreateningHasKill();
    LowerOccurrence(Threatening, "kill", 16);
    assert ToLower("kill") == "kill";
    TriggerAt(Threatening, "kill", 16);
    FallbackTable(ToLower(Threatening));
  }

  const Harmless: string := "Have a wonderful day!"

  /** The harmless example lacks the letters that rule out each trigger word. */
  lemma HarmlessLacksT()
    ensures 't' !in Harmless && 'T' !in Harmless
  {
  }

  lemma HarmlessLacksS()
    ensures 's' !in Harmless && 'S' !in Harmless
  {
  }

  lemma HarmlessLacksK()
    ensures 'k' !in Harmless && 'K' !in Harmless && '\U{212A}' !in Harmless
  {
  }

  lemma HarmlessLacksG()
    ensures 'g' !in Harmless && 'G' !in Harmless
  {
  }

  /** A text without `t`, `s`, `k` and `g` of any casing has no trigger word once lower-cased. */
  lemma NoTriggerWithoutLetters(text: string)
    requires 't' !in text && 'T' !in text && 's' !in text && 'S' !in text
    requires 'k' !in text && 'K' !in text && '\U{212A}' !in text && 'g' !in text && 'G' !in text
    ensures !HasTriggerWord(ToLower(text))
  {
    var lower := ToLower(text);
    LowerMissesLetter(text, 't');
    MissingCharNotContained(lower, "hate", 2);
    LowerMissesLetter(text, 's');
    MissingCharNotContained(lower, "stupid", 0);
    NoKill(text);
    LowerMissesLetter(text, 'g');
    MissingCharNotContained(lower, "ugly", 1);
  }

  /** "Have a wonderful day!" holds no trigger word and gets the low table. */
  lemma HarmlessExample()
    ensures KeywordFallback(Harmless) == [LowToxicity, LowSevereToxicity]
  {
    HarmlessLacksT();
    HarmlessLacksS();
    HarmlessLacksK();
    HarmlessLacksG();
    NoTriggerWithoutLetters(Harmless);
  }

  // ---------------------------------------------------------------------------
  // analyzeTextToxicity
  // ---------------------------------------------------------------------------

  /** `analyzeTextToxicity(text)` when the HTTP exchange ends in `outcome`. */
  function AnalyzeTextToxicity(text: string, outcome: FetchOutcome): (r: seq<AnalysisResult>)
    ensures SortedDesc(r)
    ensures IsBlank(text) ==> r == []
    ensures !IsBlank(text) && Fails(outcome) ==> r == KeywordFallback(text) && |r| >= 2
    ensures !IsBlank(text) && outcome.Received? && outcome.body.Some? && WellShaped(outcome.body.value) ==>
              multiset(r) == multiset(FirstBatch(outcome.body.value))
    ensures !IsBlank(text) && outcome.Received? && outcome.body.Some? && !WellShaped(outcome.body.value) ==>
              r == []
  {
    if IsBlank(text) then []
    else match Request(outcome)
      case Threw => KeywordFallback(text)
      case Returned(results) => results
  }

  /** On the live path the first batch comes back stably sorted: ties keep their batch order. */
  lemma LiveResultIsStableSort(text: string, body: JsonBody, v: Score)
    requires !IsBlank(text) && WellShaped(body)
    ensures WithScore(AnalyzeTextToxicity(text, Received(Some(body))), v) == WithScore(FirstBatch(body), v)
  {
    SortIsStable(FirstBatch(body), v);
  }

  /** Only the first batch matters: bodies that agree on it give the same result. */
  lemma LaterBatchesIgnored(text: string, b1: JsonBody, b2: JsonBody)
    requires WellShaped(b1) && WellShaped(b2) && FirstBatch(b1) == FirstBatch(b2)
    ensures AnalyzeTextToxicity(text, Received(Some(b1))) == AnalyzeTextToxicity(text, Received(Some(b2)))
  {
    assert Request(Received(Some(b1))) == Returned(SortByScoreDesc(FirstBatch(b1)));
    assert Request(Received(Some(b2))) == Returned(SortByScoreDesc(FirstBatch(b2)));
  }

  /**
   * The result is empty exactly when the text is blank or the classifier
   * answered with a wrongly shaped body or an empty first batch; a failed
   * request never yields an empty list.
   */
  lemma EmptyResultIff(text: string, outcome: FetchOutcome)
    ensures AnalyzeTextToxicity(text, outcome) == [] <==>
              IsBlank(text)
              || (outcome.Received? && outcome.body.Some?
                  && (!WellShaped(outcome.body.value) || FirstBatch(outcome.body.value) == []))
  {
    if !IsBlank(text) && outcome.Received? && outcome.body.Some? && WellShaped(outcome.body.value) {
      var r := AnalyzeTextToxicity(text, outcome);
      assert |r| == |multiset(r)| == |multiset(FirstBatch(outcome.body.value))|;
    }
  }
}
