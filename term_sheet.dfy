/** The term-sheet analysis session of src/pages/ResearchPaper.tsx: the
    ordered runs of analysis, the regeneration quota, the active run, the
    comparison view and the learning path, updated by the page's handlers.
    Text extraction and the generative-text service are replaced by their
    outcomes, passed in as parameters. */
module TermSheet {
  import opened Wrappers
  import opened Text
  import opened JsValue
  import opened Extraction
  import opened LearningPath

  const RegenerationQuota := 3
  const ResponseFormatError := "Invalid response format"
  const ResponseStructureError := "Invalid response structure"
  const ComparisonFormatError := "Invalid comparison format"

  /** The shape check of an analysis: a truthy `Summary` and `RiskAssessment`
      and array-valued `KeyTerms` and `NegotiationPoints`. */
  predicate IsTermSheet(v: Json) {
    && Truthy(Get(v, "Summary"))
    && IsArray(Get(v, "KeyTerms"))
    && Truthy(Get(v, "RiskAssessment"))
    && IsArray(Get(v, "NegotiationPoints"))
  }

  /** `analyzeResearchPaper` after the request: the greedy `{…}` match,
      parsed once and checked for shape. */
  function AnalysisOutcome(reply: Result<string, string>, parse: Parser): (r: Result<Json, string>)
    ensures r.Ok? ==> IsTermSheet(r.value)
  {
    match reply
    case Err(m) => Err(m)
    case Ok(text) =>
      match GreedyMatch(text, '{', '}')
      case None => Err(ResponseFormatError)
      case Some(m) =>
        match parse(m)
        case Err(e) => Err(e)
        case Ok(v) => if IsTermSheet(v) then Ok(v) else Err(ResponseStructureError)
  }

  /** An analysis succeeds exactly when the reply arrived, holds a `{`
      with a later `}`, the greedy match parses, and the value has the
      term-sheet shape; the record is that parsed value. */
  lemma AnalysisAccepted(reply: Result<string, string>, parse: Parser)
    ensures AnalysisOutcome(reply, parse).Ok? <==>
              && reply.Ok?
              && GreedyMatch(reply.value, '{', '}').Some?
              && parse(GreedyMatch(reply.value, '{', '}').value).Ok?
              && IsTermSheet(parse(GreedyMatch(reply.value, '{', '}').value).value)
    ensures AnalysisOutcome(reply, parse).Ok? ==>
              Ok(AnalysisOutcome(reply, parse).value) == parse(GreedyMatch(reply.value, '{', '}').value)
    ensures reply.Ok? && GreedyMatch(reply.value, '{', '}').None? ==>
              AnalysisOutcome(reply, parse) == Err(ResponseFormatError)
  {
  }

  /** Every run has the term-sheet shape (stated from the last run back, the
      order in which runs are added). */
  predicate AllTermSheets(rs: seq<Json>)
    decreases |rs|
  {
    rs == [] || (AllTermSheets(rs[..|rs| - 1]) && IsTermSheet(rs[|rs| - 1]))
  }

  lemma {:induction false} AllTermSheetsAt(rs: seq<Json>)
    requires AllTermSheets(rs)
    ensures forall i :: 0 <= i < |rs| ==> IsTermSheet(rs[i])
    decreases |rs|
  {
    if rs != [] {
      var front := rs[..|rs| - 1];
      AllTermSheetsAt(front);
      forall i | 0 <= i < |rs| - 1 ensures IsTermSheet(rs[i]) {
        assert rs[i] == front[i];
      }
    }
  }

  lemma AllTermSheetsSnoc(rs: seq<Json>, v: Json)
    requires AllTermSheets(rs) && IsTermSheet(v)
    ensures AllTermSheets(rs + [v])
  {
    assert (rs + [v])[..|rs|] == rs;
  }

  /** The record sent for run `k` (0-based) in the comparison prompt. */
  function ComparisonEntry(k: nat, result: Json): (r: Json)
    requires IsTermSheet(result)
    ensures Get(r, "id") == Some(JNumber((k + 1) as real))
    ensures Get(r, "summary") == Get(result, "Summary")
    ensures Get(r, "keyPoints") == Get(result, "KeyTerms")
    ensures Get(r, "topics") == Get(result, "NegotiationPoints")
  {
    var ms := [
      ("id", JNumber((k + 1) as real)),
      ("summary", Get(result, "Summary").value),
      ("keyPoints", Get(result, "KeyTerms").value),
      ("topics", Get(result, "NegotiationPoints").value)
    ];
    LookupFour(ms[0], ms[1], ms[2], ms[3]);
    assert ms == [ms[0], ms[1], ms[2], ms[3]];
    JObject(ms)
  }

  /** `results.map((result, index) => ({ id: index + 1, ... }))`. */
  function ComparisonPayload(results: seq<Json>): (r: seq<Json>)
    requires AllTermSheets(results)
    ensures |r| == |results|
    ensures forall k :: 0 <= k < |r| ==>
              && Get(r[k], "id") == Some(JNumber((k + 1) as real))
              && Get(r[k], "summary") == Get(results[k], "Summary")
              && Get(r[k], "keyPoints") == Get(results[k], "KeyTerms")
              && Get(r[k], "topics") == Get(results[k], "NegotiationPoints")
  {
    AllTermSheetsAt(results);
    seq(|results|, k requires 0 <= k < |results| => ComparisonEntry(k, results[k]))
  }

  /** `compareAnalyses` after the request: the greedy `[…]` match, parsed
      once; whatever parses is taken as the comparison. */
  function ComparisonOutcome(reply: Result<string, string>, parse: Parser): (r: Result<Json, string>)
    ensures r.Ok? <==> reply.Ok? && GreedyMatch(reply.value, '[', ']').Some?
                       && parse(GreedyMatch(reply.value, '[', ']').value).Ok?
    ensures r.Ok? ==> r == parse(GreedyMatch(reply.value, '[', ']').value)
  {
    match reply
    case Err(m) => Err(m)
    case Ok(text) =>
      match GreedyMatch(text, '[', ']')
      case None => Err(ComparisonFormatError)
      case Some(m) => parse(m)
  }

  class TermSheetSession {
    var results: seq<Json>
    var regenerationsLeft: int
    var paperText: string
    var activeResultIndex: Option<int>
    var showComparison: bool
    var comparisonResults: Json
    var savedPapers: seq<Paper>

    /** The quota stays within 0..3, the comparison is shown only over at
        least two runs, every run has the term-sheet shape, and saved titles
        are unique. The active index is not constrained: the source selects
        any index it is given. */
    ghost predicate Valid()
      reads this
    {
      && 0 <= regenerationsLeft <= RegenerationQuota
      && (showComparison ==> |results| >= 2)
      && AllTermSheets(results)
      && TitlesUnique(savedPapers)
    }

    constructor ()
      ensures Valid()
      ensures results == [] && regenerationsLeft == RegenerationQuota && paperText == ""
      ensures activeResultIndex.None? && !showComparison && comparisonResults == JArray([])
      ensures savedPapers == []
    {
      results := [];
      regenerationsLeft := RegenerationQuota;
      paperText := "";
      activeResultIndex := None;
      showComparison := false;
      comparisonResults := JArray([]);
      savedPapers := [];
    }

    /** `analyzeResearchPaper` as created when the runs were `captured`: on
        success the record is appended to those runs, becomes active, and the
        comparison is hidden; on failure nothing changes. */
    method AnalyzeFrom(captured: seq<Json>, reply: Result<string, string>, parse: Parser)
      requires Valid() && AllTermSheets(captured)
      modifies this`results, this`activeResultIndex, this`showComparison
      ensures Valid()
      ensures AnalysisOutcome(reply, parse).Ok? ==>
                && results == captured + [AnalysisOutcome(reply, parse).value]
                && activeResultIndex == Some(|captured|)
                && !showComparison
      ensures AnalysisOutcome(reply, parse).Err? ==>
                unchanged(this`results, this`activeResultIndex, this`showComparison)
    {
      var outcome := AnalysisOutcome(reply, parse);
      if outcome.Ok? {
        AllTermSheetsSnoc(captured, outcome.value);
        results := captured + [outcome.value];
        activeResultIndex := Some(|captured|);
        showComparison := false;
      }
    }

    /** `analyzeResearchPaper` on the current runs: exactly one record is
        appended and becomes active. */
    method Analyze(reply: Result<string, string>, parse: Parser)
      requires Valid()
      modifies this`results, this`activeResultIndex, this`showComparison
      ensures Valid()
      ensures AnalysisOutcome(reply, parse).Ok? ==>
                && results == old(results) + [AnalysisOutcome(reply, parse).value]
                && activeResultIndex == Some(|results| - 1)
                && !showComparison
      ensures AnalysisOutcome(reply, parse).Err? ==>
                unchanged(this`results, this`activeResultIndex, this`showComparison)
    {
      AnalyzeFrom(results, reply, parse);
    }

    /** The reset at the start of `handleSubmit`; the learning path and the
        paper text are kept. */
    method Reset()
      requires Valid()
      modifies this`results, this`regenerationsLeft, this`activeResultIndex,
               this`showComparison, this`comparisonResults
      ensures Valid()
      ensures results == [] && regenerationsLeft == RegenerationQuota
      ensures activeResultIndex.None? && !showComparison && comparisonResults == JArray([])
    {
      results := [];
      regenerationsLeft := RegenerationQuota;
      activeResultIndex := None;
      showComparison := false;
      comparisonResults := JArray([]);
    }

    /** `handleSubmit`, with the handlers run one after another on the
        current state: without a file nothing changes; otherwise the session
        is reset, and on extraction the text is kept and analysed, so a
        successful submit leaves exactly one run, active. */
    method Submit(hasFile: bool, extracted: Result<string, string>, reply: Result<string, string>, parse: Parser)
      requires Valid()
      modifies this
      ensures Valid()
      ensures !hasFile ==> unchanged(this)
      ensures hasFile ==>
                && regenerationsLeft == RegenerationQuota
                && comparisonResults == JArray([])
                && !showComparison
                && savedPapers == old(savedPapers)
      ensures hasFile && extracted.Err? ==>
                results == [] && activeResultIndex.None? && paperText == old(paperText)
      ensures hasFile && extracted.Ok? ==> paperText == extracted.value
      ensures hasFile && extracted.Ok? && AnalysisOutcome(reply, parse).Ok? ==>
                results == [AnalysisOutcome(reply, parse).value] && activeResultIndex == Some(0)
      ensures hasFile && extracted.Ok? && AnalysisOutcome(reply, parse).Err? ==>
                results == [] && activeResultIndex.None?
    {
      if !hasFile {
        return;
      }
      Reset();
      match extracted {
        case Err(_) =>
        case Ok(text) =>
          paperText := text;
          Analyze(reply, parse);
      }
    }

    /** `handleSubmit` as the page runs it: the analysis appends to the
        `results` captured when the handler was created, so the reset of the
        runs is lost and a second submit adds to the previous runs. */
    method SubmitAsWritten(hasFile: bool, extracted: Result<string, string>, reply: Result<string, string>, parse: Parser)
      requires Valid()
      modifies this
      ensures Valid()
      ensures !hasFile ==> unchanged(this)
      ensures hasFile ==>
                && regenerationsLeft == RegenerationQuota
                && comparisonResults == JArray([])
                && !showComparison
                && savedPapers == old(savedPapers)
      ensures hasFile && extracted.Err? ==> paperText == old(paperText)
      ensures hasFile && extracted.Ok? ==> paperText == extracted.value
      ensures hasFile && extracted.Ok? && AnalysisOutcome(reply, parse).Ok? ==>
                && results == old(results) + [AnalysisOutcome(reply, parse).value]
                && activeResultIndex == Some(|old(results)|)
      ensures hasFile && (extracted.Err? || AnalysisOutcome(reply, parse).Err?) ==>
                results == [] && activeResultIndex.None?
    {
      if !hasFile {
        return;
      }
      var captured := results;
      Reset();
      match extracted {
        case Err(_) =>
        case Ok(text) =>
          paperText := text;
          AnalyzeFrom(captured, reply, parse);
      }
    }

    /** `handleRegenerate`: an exhausted quota is checked first, then a
        missing text; otherwise one unit of quota is spent before the
        analysis, whether or not it succeeds. */
    method Regenerate(reply: Result<string, string>, parse: Parser)
      requires Valid()
      modifies this`regenerationsLeft, this`results, this`activeResultIndex, this`showComparison
      ensures Valid()
      ensures old(regenerationsLeft) <= 0 || paperText == "" ==>
                unchanged(this`regenerationsLeft, this`results, this`activeResultIndex, this`showComparison)
      ensures old(regenerationsLeft) > 0 && paperText != "" ==>
                regenerationsLeft == old(regenerationsLeft) - 1
      ensures old(regenerationsLeft) > 0 && paperText != "" && AnalysisOutcome(reply, parse).Ok? ==>
                && results == old(results) + [AnalysisOutcome(reply, parse).value]
                && activeResultIndex == Some(|results| - 1)
                && !showComparison
      ensures old(regenerationsLeft) > 0 && paperText != "" && AnalysisOutcome(reply, parse).Err? ==>
                unchanged(this`results, this`activeResultIndex, this`showComparison)
    {
      if regenerationsLeft <= 0 {
        return;
      }
      if paperText == "" {
        return;
      }
      regenerationsLeft := regenerationsLeft - 1;
      Analyze(reply, parse);
    }

    /** `toggleResult`: selects the given index (without a range check) and
        hides the comparison. The new state depends on `index` alone, so
        selecting the same index again changes nothing. */
    method ToggleResult(index: int)
      requires Valid()
      modifies this`activeResultIndex, this`showComparison
      ensures Valid()
      ensures activeResultIndex == Some(index) && !showComparison
    {
      activeResultIndex := Some(index);
      showComparison := false;
    }

    /** `compareAnalyses`: with fewer than two runs nothing changes;
        otherwise a parsed comparison replaces the previous one wholesale,
        is shown, and clears the active run. */
    method Compare(reply: Result<string, string>, parse: Parser)
      requires Valid()
      modifies this`comparisonResults, this`showComparison, this`activeResultIndex
      ensures Valid()
      ensures |results| < 2 || ComparisonOutcome(reply, parse).Err? ==>
                unchanged(this`comparisonResults, this`showComparison, this`activeResultIndex)
      ensures |results| >= 2 && ComparisonOutcome(reply, parse).Ok? ==>
                && comparisonResults == ComparisonOutcome(reply, parse).value
                && showComparison && activeResultIndex.None?
    {
      if |results| < 2 {
        return;
      }
      match ComparisonOutcome(reply, parse) {
        case Ok(v) =>
          comparisonResults := v;
          showComparison := true;
          activeResultIndex := None;
        case Err(_) =>
      }
    }

    /** "Back to Individual View", offered only while the comparison is
        shown: hides it and selects the latest run, which exists. */
    method BackToIndividual()
      requires Valid() && showComparison
      modifies this`showComparison, this`activeResultIndex
      ensures Valid()
      ensures !showComparison && activeResultIndex == Some(|results| - 1)
      ensures 0 <= activeResultIndex.value < |results|
    {
      showComparison := false;
      activeResultIndex := Some(|results| - 1);
    }

    /** `addToLearningPath`. */
    method AddToLearningPath(paper: Paper)
      requires Valid()
      modifies this`savedPapers
      ensures Valid()
      ensures savedPapers == AddPaper(old(savedPapers), paper)
    {
      savedPapers := AddPaper(savedPapers, paper);
    }

    /** `removeFromLearningPath`. */
    method RemoveFromLearningPath(title: Option<string>)
      requires Valid()
      modifies this`savedPapers
      ensures Valid()
      ensures savedPapers == RemovePaper(old(savedPapers), title)
    {
      RemovePaperKeepsUnique(savedPapers, title);
      savedPapers := RemovePaper(savedPapers, title);
    }
  }

  /** The four fields of an analysis have distinct names. */
  lemma TermSheetKeysDistinct()
    ensures "Summary" != "KeyTerms" && "Summary" != "RiskAssessment" && "Summary" != "NegotiationPoints"
    ensures "KeyTerms" != "RiskAssessment" && "KeyTerms" != "NegotiationPoints"
    ensures "RiskAssessment" != "NegotiationPoints"
  {
    assert |"Summary"| == 7 && |"KeyTerms"| == 8;
    assert |"RiskAssessment"| == 14 && |"NegotiationPoints"| == 17;
  }

  /** An object with a nonempty summary and risk assessment and arrays of
      key terms and negotiation points passes the shape check. */
  lemma TermSheetOf(summary: string, keyTerms: seq<Json>, risk: string, points: seq<Json>)
    requires summary != "" && risk != ""
    ensures IsTermSheet(JObject([("Summary", JString(summary)), ("KeyTerms", JArray(keyTerms)),
                                 ("RiskAssessment", JString(risk)), ("NegotiationPoints", JArray(points))]))
  {
    var v := JObject([("Summary", JString(summary)), ("KeyTerms", JArray(keyTerms)),
                      ("RiskAssessment", JString(risk)), ("NegotiationPoints", JArray(points))]);
    TermSheetKeysDistinct();
    LookupFour(("Summary", JString(summary)), ("KeyTerms", JArray(keyTerms)),
               ("RiskAssessment", JString(risk)), ("NegotiationPoints", JArray(points)));
    assert Get(v, "Summary") == Some(JString(summary));
    assert Get(v, "KeyTerms") == Some(JArray(keyTerms));
    assert Get(v, "RiskAssessment") == Some(JString(risk));
    assert Get(v, "NegotiationPoints") == Some(JArray(points));
  }

  /** A well-formed analysis. */
  const SampleSheet: Json :=
    JObject([("Summary", JString("s")), ("KeyTerms", JArray([])),
             ("RiskAssessment", JString("r")), ("NegotiationPoints", JArray([]))])

  /** Two submits in a row, each with a good analysis: the page as written
      ends with two runs, the sequential reading with one. */
  method StaleSubmitExample() returns (asWritten: nat, intended: nat)
    ensures asWritten == 2 && intended == 1
  {
    var parse: Parser := s => Ok(SampleSheet);
    var reply: Result<string, string> := Ok("{}");
    assert FirstIndex("{}", '{') == Some(0);
    assert LastIndex("{}", '}') == Some(1);
    assert "{}"[0..2] == "{}";
    assert GreedyMatch("{}", '{', '}') == Some("{}");
    TermSheetOf("s", [], "r", []);
    assert AnalysisOutcome(reply, parse) == Ok(SampleSheet);

    var page := new TermSheetSession();
    page.SubmitAsWritten(true, Ok("sheet"), reply, parse);
    page.SubmitAsWritten(true, Ok("sheet"), reply, parse);
    asWritten := |page.results|;

    var model := new TermSheetSession();
    model.Submit(true, Ok("sheet"), reply, parse);
    model.Submit(true, Ok("sheet"), reply, parse);
    intended := |model.results|;
  }
}
