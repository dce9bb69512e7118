# Model of the page logic of the document and repository assistant

The repository is a React front end. It sits over a generative-text service, the GitHub
contents API and a PDF-to-text service. This project models the sequential logic under
three of its pages, in Dafny, and proves properties of that model:

- **Code analysis (`src/pages/Githubchat.tsx`)**
  - The repository URL match and the three guards of `fetchRepoData`.
  - The recursive walk of the repository tree (`fetchFileContents`), where each node's
    failure is isolated.
  - The `reduce` that builds the path→content dictionary.
  - The five-file overview prompt.
  - The mapping from an HTTP status to a message.
  - The response-repair ladder (`cleanJsonString`, `parseJsonResponse`).
  - The required-field check of `chatWithFile`.
- **Term-sheet analysis (`src/pages/ResearchPaper.tsx`)**
  - The session state machine: runs of analysis, a regeneration quota of 3, the active
    run, the comparison view and the learning path.
  - Rating normalisation, the colour bands, and the recommendation, which is a stable
    descending sort of the "Overall Quality" row.
- **Learning roadmap (`src/pages/Roadmap.tsx`)**
  - The stored-data branch of the mount effect.
  - `generateRoadmap`: the greedy `{…}` match and the `steps` array check.

External services are not called. Each one enters the model as the value it returns:

- **`JSON.parse`** is a parameter `parse: string -> Result<Json, string>`. `Json` is a
  small datatype whose objects are member lists in enumeration order.
- **Number-to-string conversion** is a parameter `numText: real -> string`. It is needed
  only where an array or a number is turned into text.
- **Network replies and PDF extraction** are `Result` values.
- **The GitHub tree** is a `Node` datatype in which every node carries its own fetch
  outcome.
- **`localStorage`** is an `Option<string>`.

Files:

- `wrappers.dfy`: `Option` and `Result`.
- `text.dfy`: JavaScript `\s`, `trim`, decimal digits, `join`, first and last index.
- `json.dfy`: the `Json` values, property access, the `in` operator, truthiness,
  `String()` and `Array.prototype.join`.
- `extraction.dfy`: the greedy match, the cleaning, the parse ladder and the field check.
- `repo_fetch.dfy`: the tree walk, the contents dictionary and the overview selection.
- `github_chat.dfy`: the URL match, the status messages and the page class.
- `comparison.dfy`: ratings, colour bands and the recommendation.
- `learning_path.dfy`: the saved papers.
- `term_sheet.dfy`: the analysis session class.
- `roadmap.dfy`: the roadmap page class.

The React handlers become methods of a class per page. The class's fields are the
page's `useState` variables. Each handler runs as one sequential update of those fields.

## Model

| member | source | states |
|---|---|---|
| Extraction.GreedyMatch | src/pages/Githubchat.tsx:136 | The match of `/\{[\s\S]*\}/` exists iff some `{` precedes some `}`. It is the slice from the first `{` to the last `}`, and it starts and ends with those brackets. |
| Extraction.ProseWrappedMatch | src/pages/Githubchat.tsx:136 | A bracketed body surrounded by prose with no opening bracket before it and no closing bracket after it is recovered exactly. |
| Extraction.StripFencesLeavesNoFence | src/pages/Githubchat.tsx:127 | After the fence markers are deleted, no run of three backticks remains. |
| Extraction.StripFencesIdentity | src/pages/Githubchat.tsx:127 | Text without a run of three backticks is left unchanged. |
| Extraction.StripFencesKeepsHead | src/pages/Githubchat.tsx:127 | A character that does not start a fence is kept, and the scan goes on after it. |
| Extraction.StripFencesJsonMarker | src/pages/Githubchat.tsx:127 | The marker "```json\n" is deleted as a whole, and the scan goes on after it. |
| Extraction.StripFencesNewlineMarker | src/pages/Githubchat.tsx:127 | The marker "```\n" is deleted as a whole, and the scan goes on after it. |
| Extraction.StripFencesBareMarker | src/pages/Githubchat.tsx:127 | Three backticks that start neither longer marker are deleted on their own. Together with the head rule, these are the only steps the scan takes. |
| Extraction.DropTrailingCommasDeletesEach | src/pages/Githubchat.tsx:128 | The left-to-right scan of `/,(\s*[}\]])/g` equals deleting every comma that is followed by whitespace and then a closing bracket. |
| Extraction.DropTrailingCommasOnlyDeletesCommas | src/pages/Githubchat.tsx:128 | Only commas are deleted: the non-comma characters are the same, in order. The result is no longer than the input. Text without a trailing comma is unchanged. |
| Extraction.Clean | src/pages/Githubchat.tsx:125-130 | Cleaning never lengthens the text. Which characters each step deletes is stated by the fence-marker lemmas above and by `DropTrailingCommasDeletesEach`. |
| Extraction.CleanLeavesNoFence | src/pages/Githubchat.tsx:125-130 | The cleaned text holds no run of three backticks. |
| Extraction.CleanIdentity | src/pages/Githubchat.tsx:125-130 | Trimmed text with no fence and no trailing comma is already clean. |
| Extraction.ParseJsonResponse | src/pages/Githubchat.tsx:132-149 | Text that parses directly gives its value unchanged. Otherwise: with no `{…}` the error is "No valid JSON found in response"; with one, the result succeeds iff the cleaned match parses, and then it is that value; a failed parse gives "Failed to parse JSON: " followed by the parser's message. |
| Extraction.ProseWrappedResponse | src/pages/Githubchat.tsx:132-149 | When the reply does not parse, an object wrapped in prose gives the object's parse, or the prefixed error. |
| Extraction.MissingFields | src/pages/Githubchat.tsx:255 | The `in` test can be applied iff the response is an object or an array (or nothing is required). A field is reported iff it is required and absent. The report keeps the required-list order. |
| Extraction.ValidateFileAnalysis | src/pages/Githubchat.tsx:245-259 | Success returns the response itself, exactly when no field is missing. Missing fields give "Invalid response structure. Missing fields: " followed by the missing names joined by ", ", in required order. A response where `in` throws passes that error through. |
| Extraction.ValidateFileAnalysisAccepts | src/pages/Githubchat.tsx:245-259 | Validation succeeds iff the response is an object that has every one of the seven required fields. Their values are not checked. |
| JsValue.HasProperty | src/pages/Githubchat.tsx:255 | `in` succeeds on objects and arrays only. On an object it is true iff some member has the key. |
| JsValue.Lookup | src/pages/Githubchat.tsx:255 | A member is found iff some member carries the key, and what is found is one of the members. |
| JsValue.Get | src/pages/ResearchPaper.tsx:125-130 | Property access on an object is the lookup of its first member with that key. On `null`, a boolean or a number it gives `undefined`. On an array, a canonical in-range index gives that element. |
| JsValue.FalsyValues | src/pages/ResearchPaper.tsx:125-130 | A property value is falsy iff it is `undefined`, `null`, `false`, `0` or `""`. Every array passes `Array.isArray` and is truthy. |
| JsValue.ToTextOfStrings | src/pages/ResearchPaper.tsx:566 | `String` of an array of strings is those strings joined by ",". |
| JsValue.Entries | src/pages/ResearchPaper.tsx:595-598 | `Object.entries` of an object is its members in order. Of an array it is one pair per element, keyed by the element's decimal index. |
| RepoFetch.FetchNode | src/pages/Githubchat.tsx:151-180 | A fetched file gives one entry named parent path + "/" + name. A failed file, an unreadable directory and an entry of another type give nothing. |
| RepoFetch.FetchAllAppend | src/pages/Githubchat.tsx:182-183 | The walk of a concatenated listing is the concatenation of the walks, so depth-first listing order is kept. |
| RepoFetch.FetchAllIsolates | src/pages/Githubchat.tsx:155-183 | A node contributes its own entries in its own place. A failed file, an unreadable directory or an entry of another type drops out without disturbing its siblings. |
| RepoFetch.FetchAllCount | src/pages/Githubchat.tsx:151-183 | The walk yields at most one entry per file leaf. It yields exactly one per leaf when every fetch succeeds. |
| RepoFetch.FetchAllUnder | src/pages/Githubchat.tsx:153 | Every key produced below a path lies under that path. |
| RepoFetch.FetchNodeHead | src/pages/Githubchat.tsx:153 | Every key produced by a node lies under the parent path, and its first component below that path is the node's name. |
| RepoFetch.FetchAllHeads | src/pages/Githubchat.tsx:153-173 | Every key's first component below the parent path is the name of one of the listed entries. |
| RepoFetch.FetchAllDistinct | src/pages/Githubchat.tsx:153-173 | In a tree whose sibling names are distinct and contain no slash, no two produced keys are equal. Same-named files in different directories do not collide. |
| RepoFetch.HeadOfName | src/pages/Githubchat.tsx:153 | The first path component of name + "/" + rest is the name. |
| RepoFetch.BuildContentsMap | src/pages/Githubchat.tsx:298-303 | The loop over the walked files builds exactly the dictionary `ContentsOf(files)` and its keys in first-insertion order. The last write to a key wins, and a write to `__proto__` stores nothing. |
| RepoFetch.KeyOrderMatchesContents | src/pages/Githubchat.tsx:298-303 | The key list and the dictionary have the same keys, namely the names of the files other than `__proto__`. The key list has no repeats. |
| RepoFetch.ContentsOfLastWins | src/pages/Githubchat.tsx:298-303 | A key other than `__proto__` maps to the content of the last file written under it. |
| RepoFetch.DistinctContents | src/pages/Githubchat.tsx:298-303 | With distinct names, every file not named `__proto__` is found under its own name. When no file is named `__proto__`, the keys are the names in walk order. |
| RepoFetch.WalkIntoContents | src/pages/Githubchat.tsx:151-183 | For a well-formed tree, every walked file is in the dictionary with its own content, except a root file named `__proto__`, which is never stored. Without such a root entry there are as many keys as files. |
| RepoFetch.ProtoKeyNeedsRootName | src/pages/Githubchat.tsx:153 | A walked key equal to `__proto__` can only come from a root entry of that name, since every deeper key holds a slash. |
| RepoFetch.HeadBelowDir | src/pages/Githubchat.tsx:153 | A key below the directory path + "/" + name lies below the path, and its first component there is the name. |
| RepoFetch.OverviewFiles | src/pages/Githubchat.tsx:191-192 | The prompt takes a prefix of the keys that is at most five long: all keys when there are fewer than five. |
| RepoFetch.OverviewShowsFirstFive | src/pages/Githubchat.tsx:191-194 | The prompt holds min(5, number of keys) blocks, the i-th showing the i-th key and its content. Keys after the fifth do not change it. |
| GithubChat.MatchAtIsRepoMatch | src/pages/Githubchat.tsx:281-282 | The scan at one position matches with owner `o` and repository `r` iff the text there is "github.com/" + o + "/" + r. Both segments are nonempty and slash-free, and the repository segment ends at the end of the text or at a slash. |
| GithubChat.MatchFromLeftmost | src/pages/Githubchat.tsx:282 | The URL match is the one at the leftmost position where there is one, and there is none when no position has one. |
| GithubChat.MatchFromSkips | src/pages/Githubchat.tsx:282 | Positions without a match can be skipped. |
| GithubChat.RepoUrlParts | src/pages/Githubchat.tsx:281-289 | In the usual URL form (a prefix without 'g', then owner and repo, then nothing or a further path), the match yields exactly that owner and repository. |
| GithubChat.StatusMessage | src/pages/Githubchat.tsx:309-319 | 401, 403 and 404 each give their own message, and no other status gives it. Any other status gives "Failed to fetch repository data: " plus the error text, or plus "Unknown error" when the text is empty. |
| GithubChat.OverviewOutcome | src/pages/Githubchat.tsx:196-211 | A failed overview request passes its error through. Otherwise the overview is the reply after the parse ladder. |
| GithubChat.FileAnalysisAccepted | src/pages/Githubchat.tsx:214-259 | A file analysis is accepted iff the reply arrived, the ladder produced a value, and that value is an object with every required field. |
| GithubChat.GitHubChatPage.FetchRepoData | src/pages/Githubchat.tsx:270-323 | The guards run in order: empty URL, then missing token, then a URL that does not match. Each sets its message and changes no data. A failed listing sets the status message. A listing sets the tree, the dictionary and the key order from the walk, then the overview or its failure message. Loading ends false. |
| GithubChat.GitHubChatPage.LoadTree | src/pages/Githubchat.tsx:294-307 | The successful branch: the listing, the walked dictionary and key order, then the overview or the generic failure message. |
| GithubChat.GitHubChatPage.ChatWithFile | src/pages/Githubchat.tsx:214-268 | The file becomes selected. An accepted analysis is stored and the error is cleared. Otherwise the previous analysis stays and the error is "Failed to analyze file: " plus the failure. Loading ends false. |
| GithubChat.GitHubChatPage.ShowFileAnalysis | src/pages/Githubchat.tsx:214-268 | The file becomes selected and loading ends. An accepted analysis is stored and the error cleared. A failure keeps the previous analysis and sets "Failed to analyze file: " followed by the failure. |
| GithubChat.FetchedTreeOnPage | src/pages/Githubchat.tsx:297-304 | After a listing of a well-formed tree, every walked file other than `__proto__` maps to its own content. Without a root entry named `__proto__`, the keys are the walked paths in walk order. |
| TermSheet.AnalysisOutcome | src/pages/ResearchPaper.tsx:102-134 | Every accepted analysis has the term-sheet shape. |
| TermSheet.AnalysisAccepted | src/pages/ResearchPaper.tsx:116-134 | An analysis is accepted iff the reply arrived, holds a `{` with a later `}`, its greedy match parses, and the value has a truthy `Summary` and `RiskAssessment` and array `KeyTerms` and `NegotiationPoints`. The record is that parsed value. No `{…}` gives "Invalid response format". |
| TermSheet.TermSheetSession.AnalyzeFrom | src/pages/ResearchPaper.tsx:135-138 | On success the record is appended to the runs the handler captured and becomes active, and the comparison is hidden. On failure nothing changes. |
| TermSheet.TermSheetSession.Analyze | src/pages/ResearchPaper.tsx:102-149 | On success exactly one record is appended, it becomes active (index = length − 1), and the comparison is hidden. On failure the runs, the active index and the view are unchanged. The session invariant is kept. |
| TermSheet.TermSheetSession.Reset | src/pages/ResearchPaper.tsx:160-166 | The runs are emptied, the quota returns to 3, the active run is cleared, and the comparison is emptied and hidden. The session invariant is kept. |
| TermSheet.TermSheetSession.Submit | src/pages/ResearchPaper.tsx:151-179 | Without a file nothing changes. Otherwise the runs are emptied, the quota returns to 3, and the active index, the comparison and its view are reset. The extracted text is kept and analysed, so a successful submit leaves exactly one run, active. A failed extraction or analysis leaves no runs. |
| TermSheet.TermSheetSession.SubmitAsWritten | src/pages/ResearchPaper.tsx:135-179 | As the page runs it. Without a file nothing changes. Otherwise the quota returns to 3, the comparison is cleared and hidden, and the learning path is kept. On extraction the text is stored. A successful analysis appends to the runs held before the reset, at index equal to their count. A failed extraction or analysis leaves no runs. |
| TermSheet.StaleSubmitExample | src/pages/ResearchPaper.tsx:135-166 | Two successful submits in a row leave two runs as written and one as intended. |
| TermSheet.TermSheetSession.Regenerate | src/pages/ResearchPaper.tsx:181-202 | An exhausted quota or an empty paper text changes nothing. Otherwise the quota drops by exactly one and the analysis runs, whether or not it then succeeds. The quota stays within 0..3. |
| TermSheet.TermSheetSession.ToggleResult | src/pages/ResearchPaper.tsx:204-207 | The active index becomes the given index, with no range check, and the comparison is hidden. Nothing else changes. |
| TermSheet.ComparisonPayload | src/pages/ResearchPaper.tsx:221-226 | One record per run: run k is sent with id k+1 and its summary, key terms and negotiation points. |
| TermSheet.ComparisonOutcome | src/pages/ResearchPaper.tsx:265-273 | The comparison is accepted iff the reply arrived, holds a `[` with a later `]`, and the greedy match parses. It is that parse. |
| TermSheet.TermSheetSession.Compare | src/pages/ResearchPaper.tsx:209-287 | With fewer than two runs, or on failure, nothing changes. Otherwise the comparison is replaced wholesale by the parse and shown, and the active run is cleared. |
| TermSheet.TermSheetSession.BackToIndividual | src/pages/ResearchPaper.tsx:438-444 | The comparison is hidden and the latest run, which exists, becomes active. |
| TermSheet.TermSheetSession.AddToLearningPath | src/pages/ResearchPaper.tsx:296-312 | The saved list becomes `AddPaper` of the old list, and titles stay unique. |
| TermSheet.TermSheetSession.RemoveFromLearningPath | src/pages/ResearchPaper.tsx:314-323 | The saved list becomes `RemovePaper` of the old list, and titles stay unique. |
| TermSheet.TermSheetOf | src/pages/ResearchPaper.tsx:125-130 | An object with a nonempty summary and risk assessment and array key terms and negotiation points passes the shape check. |
| LearningPath.AddPaper | src/pages/ResearchPaper.tsx:296-312 | A paper whose title is already saved is not added. Any other is appended. Unique titles stay unique, and the title is saved afterwards. |
| LearningPath.WithoutTitle | src/pages/ResearchPaper.tsx:317 | A paper is kept iff it was saved and its title differs. The list does not grow. |
| LearningPath.WithoutTitleKeepsOrder | src/pages/ResearchPaper.tsx:317 | The kept papers are a subsequence of the saved list, in their order. Each paper with another title occurs as often as before, and none with the title is left. |
| LearningPath.RemovePaper | src/pages/ResearchPaper.tsx:314-317 | A null or empty title changes nothing. Any other title gives exactly the filter `WithoutTitle`, which keeps the other papers in order (see `WithoutTitleKeepsOrder`). |
| LearningPath.RemovePaperKeepsUnique | src/pages/ResearchPaper.tsx:314-317 | Removal keeps titles unique, and no paper with the removed title is left. |
| LearningPath.AddThenRemove | src/pages/ResearchPaper.tsx:296-323 | Removing a paper just added under a new, nonempty title restores the list. |
| Comparison.NormalizeText | src/pages/ResearchPaper.tsx:565-567 | The value read from text is never negative, and it is 0 when the text has no digit. |
| Comparison.NormalizeRating | src/pages/ResearchPaper.tsx:562-567 | A number is itself, a string is read by `NormalizeText`, and a missing rating is 0. |
| Comparison.NormalizeWholeNumber | src/pages/ResearchPaper.tsx:565-567 | A decimal whole number after text without digits, and not continued by a point and a digit, reads as that number ("8/10" gives 8). |
| Comparison.DecimalNumeralBetween | src/pages/ResearchPaper.tsx:565 | The first match of `/\d+(\.\d+)?/` in a decimal numeral that follows text without digits is that numeral, with its integer and fraction digits. |
| Comparison.NormalizeDecimal | src/pages/ResearchPaper.tsx:565-567 | A decimal numeral w.f after text without digits, and not followed by a digit, reads as w + f / 10^|f| exactly. |
| Comparison.NormalizeSevenAndAHalf | src/pages/ResearchPaper.tsx:565-567 | "7.5/10" reads as 7.5. |
| Comparison.NormalizeNineOfTen | src/pages/ResearchPaper.tsx:565-567 | "9/10" reads as 9. |
| Comparison.RatingBand | src/pages/ResearchPaper.tsx:569-574 | Emerald iff ≥ 8, indigo iff in [6, 8), red iff < 5, and the default colour iff in [5, 6). The four bands partition the numbers. |
| Comparison.CellBandOfText | src/pages/ResearchPaper.tsx:561-574 | A rating written "n/10" gets the same colour as the number n. |
| Comparison.SortDescCorrect | src/pages/ResearchPaper.tsx:600-611 | The sort of the rated runs is a permutation, in descending order of rating. |
| Comparison.SortHeadIsFirstMax | src/pages/ResearchPaper.tsx:600-612 | The head of the stable descending sort is the earliest entry of maximal rating. |
| Comparison.RecommendIsFirstMax | src/pages/ResearchPaper.tsx:595-613 | A recommendation exists iff the first "Overall Quality" row has rated entries. It is the key of the earliest entry of maximal normalised rating. |
| Comparison.RecommendExample | src/pages/ResearchPaper.tsx:595-613 | With ratings "9/10" and "7", analysis 1 is recommended. |
| Comparison.RecommendTieExample | src/pages/ResearchPaper.tsx:595-613 | With the tie "8" and 8, the earlier analysis 1 is recommended. |
| Roadmap.KeywordLine | src/pages/Roadmap.tsx:57 | The prompt can be built iff the stored record has an array `keywords`. The line is that array joined by ", ". |
| Roadmap.KeywordLineOfStrings | src/pages/Roadmap.tsx:57 | Keywords that are strings give exactly those strings joined by ", ". |
| Roadmap.RoadmapSteps | src/pages/Roadmap.tsx:92-103 | No `{` with a later `}` gives "Invalid response format". Success holds iff the greedy match parses to a value whose `steps` is an array, and the roadmap is exactly that array. |
| Roadmap.WrappedRoadmapSteps | src/pages/Roadmap.tsx:92-103 | An object wrapped in prose yields its `steps` array. |
| Roadmap.GenerationOutcome | src/pages/Roadmap.tsx:51-103 | Generation succeeds iff the prompt can be built, the reply arrived, and its steps are found. |
| Roadmap.RoadmapPage.GenerateRoadmap | src/pages/Roadmap.tsx:50-110 | Success replaces the roadmap and leaves the error as it was. Any failure sets the one fixed message and keeps the previous roadmap. Loading is false afterwards, whatever the outcome. |
| Roadmap.RoadmapPage.Mount | src/pages/Roadmap.tsx:31-48 | Missing or empty stored data sets "No roadmap data found…", clears loading and generates nothing. Unparsable data sets "Error loading roadmap data…". Parsed data is kept and the roadmap is generated from it. |
| Roadmap.FreshMount | src/pages/Roadmap.tsx:31-48 | On a fresh page, a stored record that parses and generates leads to its steps with no error. Unparsable data leads to the load message and no roadmap. |
| Text.Trim | src/pages/Githubchat.tsx:129 | `trim` cuts only whitespace from both ends, and the result neither starts nor ends with whitespace. |
| Text.Join | src/pages/Githubchat.tsx:258 | The length of a join is the parts' total length plus one separator between each pair of neighbours. |

## Left out

- Prompt texts, console logging, toasts and all rendering are not modelled. The model does not capture render-time crashes such as a property access on `null` inside JSX.
- `JSON.parse` is a parameter. The model holds no JSON grammar (RFC 8259). Duplicate keys are assumed already resolved by the parser. Integer-like keys are assumed listed first, as JavaScript enumerates them.
- The network calls (`githubApi.get`, `chatSession.sendMessage`, the PDF extraction service) and base64 decoding (`atob`, section 4 of RFC 4648) enter only as outcomes. A file whose content fetch or decoding fails is `File(name, None)`.
- `Promise.all` concurrency and async/await are not modelled. The walk and the handlers are sequential, which keeps the order the code produces.
- `getProjectOverview`'s null check of the chat session is not modelled, because the session is always created by its module.
- `fetchRepoData`: a listing whose `data` is not an array is not modelled. The `Object.keys` reordering of integer-like paths in the contents dictionary is not modelled: keys keep insertion order.
- Engine `TypeError` messages are not modelled. Where the source would throw one (for example `keywords.join` on a record without an array), the model gives an error whose text is never shown.
- `getCombinedText` (src/pages/ResearchPaper.tsx:289-294) is not modelled: it is only rendered text.
- The `loading` and `comparing` flags of the term-sheet page are not modelled. They only disable buttons.
- `extractTextFromFile` is modelled as its outcome. A service reply whose `text` is not a string is not modelled.
- Comparison.NormalizeText: `parseFloat` rounds to binary floating point, but the model reads the numeral as an exact rational.
- JsValue.HasProperty: `in` also finds keys inherited from `Object.prototype` (such as `toString`), which the model reports as absent. No required field name is one of them.
- JsValue.Get: properties inherited from prototypes are not modelled, and strings are indexed by character, not by UTF-16 unit.
- TermSheet.TermSheetSession.Submit: it models the handlers running one after another on the current state, which is the evidently intended behaviour. The page as written is `SubmitAsWritten` (see Findings).
- TermSheet.TermSheetSession.ToggleResult: the index is not range-checked, because the code does not check it.

## Findings

| source | as written | input that shows it | evidently intended | confidence | as-written member | corrected member |
|---|---|---|---|---|---|---|
| src/pages/ResearchPaper.tsx:135 | `analyzeResearchPaper` builds `[...results, parsedResult]` from the `results` of the render that created `handleSubmit`, so the reset `setResults([])` at line 162 is lost | two submits in a row, each with a reply `{}` that parses to a well-formed analysis: the second leaves two runs, and its new record is at index 1 | a submit starts a fresh session, so a successful submit leaves exactly one run, at index 0 | not executed | TermSheet.TermSheetSession.SubmitAsWritten, TermSheet.StaleSubmitExample | TermSheet.TermSheetSession.Submit |
