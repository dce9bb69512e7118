/** Turning free-form model output into a checked record: the greedy
    `{…}`/`[…]` match, `cleanJsonString`, the two-stage `parseJsonResponse`
    ladder and the required-field check of the file analysis
    (src/pages/Githubchat.tsx). The term-sheet, comparison and roadmap pages
    reuse the greedy match without the cleaning. */
module Extraction {
  import opened Wrappers
  import opened Text
  import opened JsValue

  // ---------------------------------------------------------------------
  // greedy match

  /** The first match of /\{[\s\S]*\}/ (with `open` = '{', `close` = '}') or
      of /\[[\s\S]*\]/: from the first `open` to the last `close`, provided a
      `close` comes after that first `open`. */
  function GreedyMatch(s: string, open: char, close: char): (r: Option<string>)
    ensures r.Some? <==> exists i, j :: 0 <= i < j < |s| && s[i] == open && s[j] == close
    ensures r.Some? ==> FirstIndex(s, open).Some? && LastIndex(s, close).Some?
                        && r.value == s[FirstIndex(s, open).value..LastIndex(s, close).value + 1]
    ensures r.Some? ==> |r.value| >= 2 && r.value[0] == open && r.value[|r.value| - 1] == close
  {
    match (FirstIndex(s, open), LastIndex(s, close))
    case (Some(i), Some(j)) => if i < j then Some(s[i..j + 1]) else None
    case _ => None
  }

  /** A bracketed text wrapped in prose that holds no opening bracket before
      it and no closing bracket after it is recovered exactly. */
  lemma ProseWrappedMatch(prefix: string, body: string, suffix: string, open: char, close: char)
    requires |body| >= 2 && body[0] == open && body[|body| - 1] == close
    requires open !in prefix && close !in suffix
    ensures GreedyMatch(prefix + body + suffix, open, close) == Some(body)
  {
    var s := prefix + body + suffix;
    assert s[|prefix|] == open && s[|prefix| + |body| - 1] == close;
    assert forall k :: 0 <= k < |prefix| ==> s[k] == prefix[k];
    assert forall k :: |prefix| + |body| <= k < |s| ==> s[k] == suffix[k - |prefix| - |body|];
    var i := FirstIndex(s, open).value;
    var j := LastIndex(s, close).value;
    assert i == |prefix|;
    assert j == |prefix| + |body| - 1;
    assert s[i..j + 1] == body;
  }

  // ---------------------------------------------------------------------
  // cleanJsonString, step 1: code fences

  /** A run of three backticks starts at index `i`. */
  predicate FenceAt(s: string, i: int) {
    0 <= i && i + 3 <= |s| && s[i] == '`' && s[i + 1] == '`' && s[i + 2] == '`'
  }

  predicate HasNoFence(s: string) {
    forall i :: 0 <= i < |s| ==> !FenceAt(s, i)
  }

  /** `.replace(/```json\n|```\n|```/g, '')`: scanning left to right, at each
      run of three backticks the first alternative that matches is deleted. */
  function StripFences(s: string): (r: string)
    ensures |r| <= |s|
    decreases |s|
  {
    if |s| >= 8 && s[..8] == "```json\n" then StripFences(s[8..])
    else if |s| >= 4 && s[..4] == "```\n" then StripFences(s[4..])
    else if FenceAt(s, 0) then StripFences(s[3..])
    else if s == [] then []
    else [s[0]] + StripFences(s[1..])
  }

  /** The marker "```json\n" is deleted as a whole. */
  lemma StripFencesJsonMarker(q: string)
    ensures StripFences("```json\n" + q) == StripFences(q)
  {
    var s := "```json\n" + q;
    assert s[..8] == "```json\n";
    assert s[8..] == q;
  }

  /** The marker "```\n" is deleted as a whole. */
  lemma StripFencesNewlineMarker(q: string)
    ensures StripFences("```\n" + q) == StripFences(q)
  {
    var s := "```\n" + q;
    assert s[3] == '\n';
    assert |s| >= 8 ==> s[..8] != "```json\n" by {
      if |s| >= 8 { assert s[..8][3] == '\n'; }
    }
    assert s[..4] == "```\n";
    assert s[4..] == q;
  }

  /** A run of three backticks that starts neither longer marker is deleted
      on its own, and the scan goes on after it. */
  lemma StripFencesBareMarker(s: string)
    requires FenceAt(s, 0)
    requires |s| == 3 || s[3] != '\n'
    requires |s| < 8 || s[3..8] != "json\n"
    ensures StripFences(s) == StripFences(s[3..])
  {
    if |s| >= 8 {
      assert s[..8] != "```json\n" by {
        assert s[..8][3..8] == s[3..8];
      }
    }
    if |s| >= 4 {
      assert s[..4] != "```\n" by {
        assert s[..4][3] == s[3];
      }
    }
  }

  /** Where no fence starts, the first character survives. */
  lemma StripFencesKeepsHead(t: string)
    requires t != [] && !FenceAt(t, 0)
    ensures StripFences(t) == [t[0]] + StripFences(t[1..])
  {
    assert |t| >= 8 ==> t[..8][0] == t[0] && t[..8][1] == t[1] && t[..8][2] == t[2];
    assert |t| >= 4 ==> t[..4][0] == t[0] && t[..4][1] == t[1] && t[..4][2] == t[2];
  }

  /** After the first step no run of three backticks is left: a backtick is
      kept only where fewer than three start, and deletions never join two
      kept backtick runs into a longer one. */
  lemma {:induction false} StripFencesLeavesNoFence(s: string)
    ensures HasNoFence(StripFences(s))
    decreases |s|
  {
    if |s| >= 8 && s[..8] == "```json\n" {
      StripFencesLeavesNoFence(s[8..]);
    } else if |s| >= 4 && s[..4] == "```\n" {
      StripFencesLeavesNoFence(s[4..]);
    } else if FenceAt(s, 0) {
      StripFencesLeavesNoFence(s[3..]);
    } else if s != [] {
      StripFencesKeepsHead(s);
      var rest := StripFences(s[1..]);
      StripFencesLeavesNoFence(s[1..]);
      var r := [s[0]] + rest;
      StripFencesHeadNotFence(s);
      forall i | 1 <= i ensures !FenceAt(r, i) {
        assert FenceAt(r, i) ==> FenceAt(rest, i - 1);
      }
    }
  }

  /** Where no fence starts, the output does not start with one either. */
  lemma StripFencesHeadNotFence(s: string)
    requires s != [] && !FenceAt(s, 0)
    ensures !FenceAt(StripFences(s), 0)
  {
    StripFencesKeepsHead(s);
    var t := s[1..];
    if s[0] == '`' && t != [] {
      StripFencesKeepsHead(t);
      if t[0] == '`' && |t| >= 2 {
        assert t[1] != '`';
        StripFencesKeepsHead(t[1..]);
      }
    }
  }

  /** Text without fences is left unchanged by the first step. */
  lemma {:induction false} StripFencesIdentity(s: string)
    requires HasNoFence(s)
    ensures StripFences(s) == s
    decreases |s|
  {
    if s != [] {
      assert !FenceAt(s, 0);
      StripFencesKeepsHead(s);
      assert forall i :: FenceAt(s[1..], i) ==> FenceAt(s, i + 1);
      StripFencesIdentity(s[1..]);
    }
  }

  // ---------------------------------------------------------------------
  // cleanJsonString, step 2: trailing commas

  /** The index in `t` of a `}` or `]` that only whitespace precedes. */
  function CloserAfterSpace(t: string): (r: Option<nat>)
    ensures r.Some? ==> r.value < |t| && (t[r.value] == '}' || t[r.value] == ']')
    ensures r.Some? ==> forall k :: 0 <= k < r.value ==> IsSpace(t[k])
    decreases |t|
  {
    if t == [] then None
    else if t[0] == '}' || t[0] == ']' then Some(0)
    else if IsSpace(t[0]) then
      match CloserAfterSpace(t[1..])
      case None => None
      case Some(k) => Some(k + 1)
    else None
  }

  /** The comma at index `i` is trailing: only whitespace lies between it and
      a closing brace or bracket. */
  predicate TrailingCommaAt(s: string, i: int) {
    0 <= i < |s| && s[i] == ',' && CloserAfterSpace(s[i + 1..]).Some?
  }

  predicate HasNoTrailingComma(s: string) {
    forall i :: 0 <= i < |s| ==> !TrailingCommaAt(s, i)
  }

  /** `.replace(/,(\s*[}\]])/g, '$1')` as the regular-expression engine scans:
      at a trailing comma the comma is dropped, the whitespace and the
      bracket are kept, and the scan resumes after the bracket. */
  function DropTrailingCommas(s: string): (r: string)
    decreases |s|
  {
    if s == [] then []
    else if s[0] == ',' && CloserAfterSpace(s[1..]).Some? then
      var k := CloserAfterSpace(s[1..]).value;
      s[1..k + 2] + DropTrailingCommas(s[k + 2..])
    else [s[0]] + DropTrailingCommas(s[1..])
  }

  /** Reference definition: delete each trailing comma, judged one character
      at a time, and keep every other character. */
  function DeleteEachTrailingComma(s: string): (r: string)
    ensures |r| <= |s|
    decreases |s|
  {
    if s == [] then []
    else (if TrailingCommaAt(s, 0) then [] else [s[0]]) + DeleteEachTrailingComma(s[1..])
  }

  /** A prefix without commas passes through the reference unchanged. */
  lemma {:induction false} CommaFreePrefix(t: string, m: nat)
    requires m <= |t| && forall k :: 0 <= k < m ==> t[k] != ','
    ensures DeleteEachTrailingComma(t) == t[..m] + DeleteEachTrailingComma(t[m..])
    decreases m
  {
    if m > 0 {
      CommaFreePrefix(t[1..], m - 1);
      assert t[1..][m - 1..] == t[m..];
      assert t[..m] == [t[0]] + t[1..][..m - 1];
    }
  }

  /** The regex scan deletes exactly the trailing commas: skipping over the
      matched whitespace and bracket loses nothing, as they hold no comma. */
  lemma {:induction false} DropTrailingCommasDeletesEach(s: string)
    ensures DropTrailingCommas(s) == DeleteEachTrailingComma(s)
    decreases |s|
  {
    if s != [] {
      if s[0] == ',' && CloserAfterSpace(s[1..]).Some? {
        var k := CloserAfterSpace(s[1..]).value;
        var t := s[1..];
        forall q | 0 <= q < k + 1 ensures t[q] != ',' {
          if q < k { assert IsSpace(t[q]); }
        }
        CommaFreePrefix(t, k + 1);
        assert t[k + 1..] == s[k + 2..];
        assert t[..k + 1] == s[1..k + 2];
        DropTrailingCommasDeletesEach(s[k + 2..]);
      } else {
        DropTrailingCommasDeletesEach(s[1..]);
      }
    }
  }

  /** The characters of a text other than commas. */
  function NonCommas(s: string): string
    decreases |s|
  {
    if s == [] then [] else (if s[0] == ',' then [] else [s[0]]) + NonCommas(s[1..])
  }

  lemma {:induction false} NonCommasAppend(a: string, b: string)
    ensures NonCommas(a + b) == NonCommas(a) + NonCommas(b)
    decreases |a|
  {
    if a == [] {
      assert a + b == b;
    } else {
      assert (a + b)[0] == a[0];
      assert (a + b)[1..] == a[1..] + b;
      NonCommasAppend(a[1..], b);
    }
  }

  /** The second step deletes commas and nothing else, never lengthens the
      text, and leaves text without trailing commas as it is. */
  lemma {:induction false} DropTrailingCommasOnlyDeletesCommas(s: string)
    ensures NonCommas(DropTrailingCommas(s)) == NonCommas(s)
    ensures |DropTrailingCommas(s)| <= |s|
    ensures HasNoTrailingComma(s) ==> DropTrailingCommas(s) == s
    decreases |s|
  {
    DropTrailingCommasDeletesEach(s);
    if s != [] {
      DropTrailingCommasOnlyDeletesCommas(s[1..]);
      var head := if TrailingCommaAt(s, 0) then [] else [s[0]];
      NonCommasAppend(head, DeleteEachTrailingComma(s[1..]));
      DropTrailingCommasDeletesEach(s[1..]);
      assert s == [s[0]] + s[1..];
      NonCommasAppend([s[0]], s[1..]);
      if HasNoTrailingComma(s) {
        assert forall i :: TrailingCommaAt(s[1..], i) ==> TrailingCommaAt(s, i + 1) by {
          forall i | TrailingCommaAt(s[1..], i) ensures TrailingCommaAt(s, i + 1) {
            assert s[1..][i + 1..] == s[i + 2..];
          }
        }
      }
    }
  }

  // ---------------------------------------------------------------------
  // cleanJsonString and parseJsonResponse

  /** `cleanJsonString`: delete code fences, then trailing commas, then trim. */
  function Clean(s: string): (r: string)
    ensures |r| <= |s|
  {
    DropTrailingCommasOnlyDeletesCommas(StripFences(s));
    Trim(DropTrailingCommas(StripFences(s)))
  }

  /** Cleaning leaves no code fence behind. */
  lemma CleanLeavesNoFence(s: string)
    ensures HasNoFence(Clean(s))
  {
    var a := StripFences(s);
    StripFencesLeavesNoFence(s);
    var b := DropTrailingCommas(a);
    DropTrailingCommasDeletesEach(a);
    DeletionKeepsNoFence(a);
    TrimKeepsNoFence(b);
  }

  /** Trimming cuts text from both ends only, so it adds no fence. */
  lemma TrimKeepsNoFence(b: string)
    requires HasNoFence(b)
    ensures HasNoFence(Trim(b))
  {
    TrimStartKeepsNoFence(b);
    TrimEndKeepsNoFence(TrimStart(b));
  }

  lemma TrimStartKeepsNoFence(b: string)
    requires HasNoFence(b)
    ensures HasNoFence(TrimStart(b))
  {
    SuffixKeepsNoFence(b, |b| - |TrimStart(b)|);
  }

  lemma TrimEndKeepsNoFence(t: string)
    requires HasNoFence(t)
    ensures HasNoFence(TrimEnd(t))
  {
    PrefixKeepsNoFence(t, |TrimEnd(t)|);
  }

  lemma SuffixKeepsNoFence(b: string, i: nat)
    requires HasNoFence(b) && i <= |b|
    ensures HasNoFence(b[i..])
  {
    var r := b[i..];
    forall k | 0 <= k < |r| ensures !FenceAt(r, k) {
      assert !FenceAt(b, k + i);
      if k + 3 <= |r| {
        assert r[k] == b[k + i] && r[k + 1] == b[k + i + 1] && r[k + 2] == b[k + i + 2];
      }
    }
  }

  lemma PrefixKeepsNoFence(b: string, j: nat)
    requires HasNoFence(b) && j <= |b|
    ensures HasNoFence(b[..j])
  {
    var r := b[..j];
    forall k | 0 <= k < |r| ensures !FenceAt(r, k) {
      assert !FenceAt(b, k);
      if k + 3 <= |r| {
        assert r[k] == b[k] && r[k + 1] == b[k + 1] && r[k + 2] == b[k + 2];
      }
    }
  }

  /** Deleting only commas cannot create a run of three backticks. */
  lemma {:induction false} DeletionKeepsNoFence(a: string)
    requires HasNoFence(a)
    ensures HasNoFence(DeleteEachTrailingComma(a))
    decreases |a|
  {
    if a != [] {
      assert forall i :: FenceAt(a[1..], i) ==> FenceAt(a, i + 1);
      DeletionKeepsNoFence(a[1..]);
      var r := DeleteEachTrailingComma(a);
      forall i ensures !FenceAt(r, i) {
        if FenceAt(r, i) {
          if TrailingCommaAt(a, 0) {
            assert FenceAt(DeleteEachTrailingComma(a[1..]), i);
          } else if i >= 1 {
            assert FenceAt(DeleteEachTrailingComma(a[1..]), i - 1);
          } else {
            var rest := DeleteEachTrailingComma(a[1..]);
            DeletionHead(a[1..]);
            DeletionHead(a[2..]);
            assert a[1..][1..] == a[2..];
            assert FenceAt(a, 0);
          }
          assert false;
        }
      }
    }
  }

  /** A backtick at the head of the output of comma deletion is the head of
      the input: a deleted comma is followed by whitespace or a bracket. */
  lemma DeletionHead(t: string)
    requires DeleteEachTrailingComma(t) != [] && DeleteEachTrailingComma(t)[0] == '`'
    ensures t != [] && t[0] == '`' && DeleteEachTrailingComma(t) == [t[0]] + DeleteEachTrailingComma(t[1..])
  {
    DeletedCommaHead(t);
  }

  /** Where a trailing comma is deleted, the output starts with the
      whitespace or bracket that followed it. */
  lemma DeletedCommaHead(t: string)
    requires t != []
    ensures TrailingCommaAt(t, 0) ==>
              DeleteEachTrailingComma(t) != [] && DeleteEachTrailingComma(t)[0] != '`'
  {
    if TrailingCommaAt(t, 0) {
      var u := t[1..];
      var k := CloserAfterSpace(u).value;
      forall q | 0 <= q < k + 1 ensures u[q] != ',' {
        if q < k { assert IsSpace(u[q]); }
      }
      CommaFreePrefix(u, k + 1);
      assert DeleteEachTrailingComma(t)[0] == u[0];
      assert k > 0 ==> IsSpace(u[0]);
    }
  }

  const NoJsonMessage := "No valid JSON found in response"
  const FailedParsePrefix := "Failed to parse JSON: "

  /** `parseJsonResponse`: the raw text parsed as it is; only if that fails,
      the greedy `{…}` match, cleaned, parsed again. */
  function ParseJsonResponse(raw: string, parse: Parser): (r: Result<Json, string>)
    ensures parse(raw).Ok? ==> r == parse(raw)
    ensures parse(raw).Err? && GreedyMatch(raw, '{', '}').None? ==> r == Err(NoJsonMessage)
    ensures parse(raw).Err? && GreedyMatch(raw, '{', '}').Some? ==>
              var cleaned := parse(Clean(GreedyMatch(raw, '{', '}').value));
              && (r.Ok? <==> cleaned.Ok?)
              && (r.Ok? ==> r == cleaned)
              && (r.Err? ==> r.error == FailedParsePrefix + cleaned.error)
  {
    match parse(raw)
    case Ok(v) => Ok(v)
    case Err(_) =>
      match GreedyMatch(raw, '{', '}')
      case None => Err(NoJsonMessage)
      case Some(m) =>
        match parse(Clean(m))
        case Ok(v) => Ok(v)
        case Err(e2) => Err(FailedParsePrefix + e2)
  }

  /** Text that is already clean comes out of cleaning unchanged. */
  lemma CleanIdentity(body: string)
    requires body != [] && !IsSpace(body[0]) && !IsSpace(body[|body| - 1])
    requires HasNoFence(body) && HasNoTrailingComma(body)
    ensures Clean(body) == body
  {
    StripFencesIdentity(body);
    DropTrailingCommasOnlyDeletesCommas(body);
  }

  /** A well-formed object wrapped in prose: when the direct parse fails, the
      second stage parses exactly the bare object, so it recovers whatever the
      first stage would have recovered from that object alone. */
  lemma ProseWrappedResponse(prefix: string, body: string, suffix: string, parse: Parser)
    requires |body| >= 2 && body[0] == '{' && body[|body| - 1] == '}'
    requires '{' !in prefix && '}' !in suffix
    requires HasNoFence(body) && HasNoTrailingComma(body)
    requires parse(prefix + body + suffix).Err?
    ensures parse(body).Ok? ==> ParseJsonResponse(prefix + body + suffix, parse) == parse(body)
    ensures parse(body).Err? ==> ParseJsonResponse(prefix + body + suffix, parse)
                                 == Err(FailedParsePrefix + parse(body).error)
  {
    ProseWrappedMatch(prefix, body, suffix, '{', '}');
    CleanIdentity(body);
  }

  // ---------------------------------------------------------------------
  // required fields of the file analysis

  const MissingFieldsPrefix := "Invalid response structure. Missing fields: "

  const FileAnalysisFields: seq<string> :=
    ["fileName", "fileType", "purpose", "keyComponents", "technologiesUsed", "complexityLevel", "briefExplanation"]

  /** None of the required field names is an array index or `length`. */
  lemma FileAnalysisFieldsAreNames()
    ensures forall f :: f in FileAnalysisFields ==> f != "length" && f != [] && !IsDigit(f[0]) && IndexKey(f).None?
  {
  }

  /** `required.filter(field => !(field in response))`: the `in` operator
      throws on a value that is neither an object nor an array, but only when
      there is a field to test. */
  function MissingFields(required: seq<string>, response: Json): (r: Result<seq<string>, string>)
    ensures r.Ok? <==> required == [] || response.JObject? || response.JArray?
    ensures r.Ok? ==> forall f :: f in r.value <==> f in required && HasProperty(response, f) == Ok(false)
    ensures r.Ok? ==> IsSubsequence(r.value, required)
    decreases |required|
  {
    if required == [] then Ok([])
    else
      match HasProperty(response, required[0])
      case Err(e) => Err(e)
      case Ok(present) =>
        var rest := MissingFields(required[1..], response);
        if rest.Err? then rest
        else if present then Ok(rest.value)
        else Ok([required[0]] + rest.value)
  }

  /** The required-field check of the file analysis: the parsed response is
      accepted unchanged exactly when it is an object that has every
      required field (values are not checked). */
  function ValidateFileAnalysis(response: Json): (r: Result<Json, string>)
    ensures r.Ok? ==> r.value == response
    ensures MissingFields(FileAnalysisFields, response).Err? ==>
              r == Err(MissingFields(FileAnalysisFields, response).error)
    ensures MissingFields(FileAnalysisFields, response).Ok? ==>
              var missing := MissingFields(FileAnalysisFields, response).value;
              && (missing == [] <==> r.Ok?)
              && (missing != [] ==> r == Err(MissingFieldsPrefix + Join(missing, ", ")))
  {
    match MissingFields(FileAnalysisFields, response)
    case Err(e) => Err(e)
    case Ok(missing) =>
      if missing == [] then Ok(response)
      else Err(MissingFieldsPrefix + Join(missing, ", "))
  }

  /** The response passes the check exactly when it is an object holding
      every required field; arrays fail it (no field name is an index), and
      any other value makes the `in` operator throw. */
  lemma ValidateFileAnalysisAccepts(response: Json)
    ensures ValidateFileAnalysis(response).Ok? <==>
              response.JObject? && forall f :: f in FileAnalysisFields ==> Lookup(response.members, f).Some?
  {
    var m := MissingFields(FileAnalysisFields, response);
    if response.JArray? {
      FileAnalysisFieldsAreNames();
      assert "fileName" in FileAnalysisFields;
      assert "fileName" in m.value;
    } else if response.JObject? {
      if m.value == [] {
        forall f | f in FileAnalysisFields ensures Lookup(response.members, f).Some? {
          assert f !in m.value;
        }
      } else {
        assert m.value[0] in FileAnalysisFields;
      }
    }
  }
}
