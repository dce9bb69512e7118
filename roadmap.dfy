/** The learning-roadmap page of src/pages/Roadmap.tsx: it loads the stored
    topic record, asks the generative-text service for a roadmap and keeps
    the `steps` array of the reply. Storage and the service are replaced by
    the values they return, passed in as parameters. */
module Roadmap {
  import opened Wrappers
  import opened Text
  import opened JsValue
  import opened Extraction

  const NoDataMessage := "No roadmap data found. " + "Please go back and select a topic."
  const LoadErrorMessage := "Error loading roadmap data. Please try again."
  const GenerationErrorMessage := "An error occurred while generating " + "your roadmap. Please try again."
  const ResponseFormatError := "Invalid response format"
  const ResponseStructureError := "Invalid response structure"

  /** The `keywords.join(', ')` line of the prompt; `None` when building the
      prompt throws because the record has no array of keywords. */
  function KeywordLine(data: Json, numText: NumberText): (r: Option<string>)
    ensures r.Some? <==> Get(data, "keywords").Some? && Get(data, "keywords").value.JArray?
    ensures r.Some? ==> r.value == JoinElements(Get(data, "keywords").value.elems, ", ", numText)
  {
    match Get(data, "keywords")
    case Some(JArray(es)) => Some(JoinElements(es, ", ", numText))
    case _ => None
  }

  /** A record whose keywords are strings yields those strings separated
      by ", ". */
  lemma KeywordLineOfStrings(topic: Json, keywords: seq<string>, rest: seq<(string, Json)>, numText: NumberText)
    ensures var es := seq(|keywords|, i requires 0 <= i < |keywords| => JString(keywords[i]));
            KeywordLine(JObject([("keywords", JArray(es))] + rest), numText) == Some(Join(keywords, ", "))
  {
    var es := seq(|keywords|, i requires 0 <= i < |keywords| => JString(keywords[i]));
    var data := JObject([("keywords", JArray(es))] + rest);
    LookupFirst(data.members, "keywords", 0);
    assert Get(data, "keywords") == Some(JArray(es));
    assert KeywordLine(data, numText) == Some(JoinElements(es, ", ", numText));
    JoinElementsOfStrings(keywords, ", ", numText);
  }

  /** The reply handling of `generateRoadmap`: the greedy `{…}` match,
      parsed once, must carry an array `steps`. */
  function RoadmapSteps(text: string, parse: Parser): (r: Result<seq<Json>, string>)
    ensures GreedyMatch(text, '{', '}').None? ==> r == Err(ResponseFormatError)
    ensures r.Ok? <==>
              && GreedyMatch(text, '{', '}').Some?
              && parse(GreedyMatch(text, '{', '}').value).Ok?
              && IsArray(Get(parse(GreedyMatch(text, '{', '}').value).value, "steps"))
    ensures r.Ok? ==> Get(parse(GreedyMatch(text, '{', '}').value).value, "steps") == Some(JArray(r.value))
  {
    match GreedyMatch(text, '{', '}')
    case None => Err(ResponseFormatError)
    case Some(m) =>
      match parse(m)
      case Err(e) => Err(e)
      case Ok(v) =>
        match Get(v, "steps")
        case Some(JArray(steps)) => Ok(steps)
        case _ => Err(ResponseStructureError)
  }

  /** An object wrapped in prose with no brace before it and none after it
      yields its `steps` array. */
  lemma WrappedRoadmapSteps(prefix: string, body: string, suffix: string, parse: Parser,
                            steps: seq<Json>, rest: seq<(string, Json)>)
    requires |body| >= 2 && body[0] == '{' && body[|body| - 1] == '}'
    requires '{' !in prefix && '}' !in suffix
    requires parse(body) == Ok(JObject([("steps", JArray(steps))] + rest))
    ensures RoadmapSteps(prefix + body + suffix, parse) == Ok(steps)
  {
    ProseWrappedMatch(prefix, body, suffix, '{', '}');
    LookupFirst([("steps", JArray(steps))] + rest, "steps", 0);
  }

  /** Everything `generateRoadmap` does after `setLoading(true)`: build the
      prompt, take the service's reply and extract the steps. */
  function GenerationOutcome(data: Json, reply: Result<string, string>, parse: Parser, numText: NumberText)
    : (r: Result<seq<Json>, string>)
    ensures r.Ok? <==> KeywordLine(data, numText).Some? && reply.Ok? && RoadmapSteps(reply.value, parse).Ok?
    ensures r.Ok? ==> r == RoadmapSteps(reply.value, parse)
  {
    if KeywordLine(data, numText).None? then Err("keywords.join is not a function")
    else match reply
      case Err(m) => Err(m)
      case Ok(text) => RoadmapSteps(text, parse)
  }

  class RoadmapPage {
    var roadmapData: Option<Json>
    var loading: bool
    var roadmap: Option<seq<Json>>
    var error: Option<string>

    constructor ()
      ensures roadmapData.None? && loading && roadmap.None? && error.None?
    {
      roadmapData := None;
      loading := true;
      roadmap := None;
      error := None;
    }

    /** `generateRoadmap`: a roadmap replaces the previous one and leaves the
        error as it was; any failure sets the one generic message and keeps
        the previous roadmap; loading ends either way. */
    method GenerateRoadmap(data: Json, reply: Result<string, string>, parse: Parser, numText: NumberText)
      modifies this`loading, this`roadmap, this`error
      ensures !loading
      ensures GenerationOutcome(data, reply, parse, numText).Ok? ==>
                roadmap == Some(GenerationOutcome(data, reply, parse, numText).value) && error == old(error)
      ensures GenerationOutcome(data, reply, parse, numText).Err? ==>
                roadmap == old(roadmap) && error == Some(GenerationErrorMessage)
    {
      loading := true;
      match GenerationOutcome(data, reply, parse, numText) {
        case Ok(steps) =>
          roadmap := Some(steps);
        case Err(_) =>
          error := Some(GenerationErrorMessage);
      }
      loading := false;
    }

    /** The mount effect: missing or empty stored data and unparsable stored
        data each end loading with their own message; parsed data is kept
        and the roadmap is generated from it. */
    method Mount(stored: Option<string>, reply: Result<string, string>, parse: Parser, numText: NumberText)
      modifies this
      ensures !loading
      ensures stored.None? || stored == Some("") ==>
                error == Some(NoDataMessage) && roadmapData == old(roadmapData) && roadmap == old(roadmap)
      ensures stored.Some? && stored.value != "" && parse(stored.value).Err? ==>
                error == Some(LoadErrorMessage) && roadmapData == old(roadmapData) && roadmap == old(roadmap)
      ensures stored.Some? && stored.value != "" && parse(stored.value).Ok? ==>
                var data := parse(stored.value).value;
                var outcome := GenerationOutcome(data, reply, parse, numText);
                && roadmapData == Some(data)
                && (outcome.Ok? ==> roadmap == Some(outcome.value) && error == old(error))
                && (outcome.Err? ==> roadmap == old(roadmap) && error == Some(GenerationErrorMessage))
    {
      if stored.None? || stored.value == "" {
        error := Some(NoDataMessage);
        loading := false;
        return;
      }
      match parse(stored.value) {
        case Err(_) =>
          error := Some(LoadErrorMessage);
          loading := false;
        case Ok(data) =>
          roadmapData := Some(data);
          GenerateRoadmap(data, reply, parse, numText);
      }
    }
  }

  /** On a fresh page the stored record leads straight to its roadmap: no
      error is shown and the steps are those of the reply. */
  method FreshMount(stored: string, reply: Result<string, string>, parse: Parser, numText: NumberText)
    returns (shown: Option<seq<Json>>, message: Option<string>)
    requires stored != ""
    ensures parse(stored).Ok? && GenerationOutcome(parse(stored).value, reply, parse, numText).Ok? ==>
              message.None? && shown == Some(RoadmapSteps(reply.value, parse).value)
    ensures parse(stored).Err? ==> message == Some(LoadErrorMessage) && shown.None?
  {
    var page := new RoadmapPage();
    page.Mount(Some(stored), reply, parse, numText);
    shown := page.roadmap;
    message := page.error;
  }
}
