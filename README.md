# gptctl conversation-export engine in Dafny

This project models the processing core of gptctl, a command-line tool for
ChatGPT conversation exports. An export is a list of conversations. Each
conversation has an id-keyed `mapping` of nodes. A node carries a `parent`
link and an optional `message`, which has an author, a content with `parts`
and a `create_time`. The model covers five components:

- **Markdown rendering of conversations** (`utils.py`). It covers:
  - probing for the message container (`get_messages_iter`);
  - filtering out system, tool and hidden messages;
  - rendering one part (`stringify_part`): code fences with a collapse threshold, images, `updates` entries, nested parts, fenced code inside strings, inline JSON;
  - the bracket-stack scanner for inline JSON and its replacement (`extract_json_fragments`, `replace_inline_json`);
  - the document and its table of contents (`conversation_to_md`) and the user-turn count (`thread_msg_count`);
  - bookmarks, anchors and file names;
  - title lookups, record collection, sorting, and chunking.
- **Suggestion analysis** (`suggestions.py`). It finds the text of a message's last meaningful part, checks whether its last line is an assistant offer ("would you like …?"), pairs each offer with the latest user message of the conversation, and exports the pairs as a Markdown table.
- **The stricter suggestion detector** (`json_openai.py`). It accepts only a whole-word key phrase on a line ending in '?'.
- **Partial-thread export** (`commands/export/extract.py`, the `partial` command):
  - a global message index, and search by id or title;
  - auto-detection of the thread root;
  - the ancestor context with a limit;
  - depth-bounded pre-order descendants;
  - the chronological range between a start and an end message;
  - de-duplication and sorting;
  - Markdown or plain-text output.
- **The conversation record and the sort-key enums** (`definitions.py`).

JSON values are a datatype, `JsonValue.Json`. A dict is an ordered list of
fields, so iteration order is insertion order. `str()` and `json.dumps` are
written out. `json.loads` is a parameter: a parser that returns `None` where
Python raises. Timestamp formatting and parsing are also parameters. Python's
`sorted` is modelled as a stable insertion sort (`Sorting.SortBy`), proved to
be a stable, ordered permutation.

Code that builds its result step by step is modelled as methods with loops:
the fragment scanner, the inline-JSON splice, the fenced-code split, the
message walkers, the bookmark, the suggestion analysis and its table, root
detection, the parent climb and the recursive child walk. Each method is
proved equal to a specification function, and the properties are proved
about those functions.

Where the written description and the code disagree, the model follows the
code. `get_parents` reverses the climbed chain and then keeps the first
`context_limit` entries, so a limit keeps the ancestors nearest the root,
not those nearest the start message (`ThreadIndex.ParentsStartAtRoot`).

## Model

| member | source | states |
|---|---|---|
| Names.SanitizeFilename | src/gptctl/utils/utils.py:19-21 | the file name is never empty; it holds only word characters and '-'; it neither starts nor ends with '_' |
| Names.SanitizeFilenameFixes | src/gptctl/utils/utils.py:19-21 | a name that is already clean comes back unchanged |
| Names.SanitizeFilenameIdempotent | src/gptctl/utils/utils.py:19-21 | sanitising twice gives the same as sanitising once |
| Names.MdAnchor | src/gptctl/utils/utils.py:99-111 | the anchor is never empty; it is lower-case word characters and '-' only, with no leading or trailing '-'; a title without word characters gives "untitled" |
| Names.MdAnchorIgnoresLength | src/gptctl/utils/utils.py:99-111 | `truncate_length` has no effect on the anchor |
| Names.MdAnchorNoSpace | src/gptctl/utils/utils.py:109-110 | an anchor contains no whitespace |
| Names.MdAnchorIdempotent | src/gptctl/utils/utils.py:99-111 | the anchor of an anchor is itself |
| Listing.FindByTitle | src/gptctl/utils/utils.py:76-80 | returns the first conversation whose title equals the searched one, or None exactly when no conversation has it |
| Listing.FindMsgByTitle | src/gptctl/utils/utils.py:82-97 | returns the id of the first node whose message title contains the searched text case-insensitively, or None exactly when no node matches |
| Parts.ExtractStringsOccur | src/gptctl/utils/utils.py:145-175 | every string `extract_strings` returns is a string value found inside the object |
| InlineJson.ExtractJsonFragments | src/gptctl/utils/utils.py:178-203 | the stack scanner's result equals the fragment function `Fragments` |
| InlineJson.FragmentsWellFormed | src/gptctl/utils/utils.py:178-203 | every fragment is in bounds, `snippet == text[start:end]`, opens with '{' or '[', closes with the matching closer, and is properly nested by bracket kind in between (`Group`); fragments are strictly increasing and do not overlap |
| InlineJson.NestedIffUnclosed | src/gptctl/utils/utils.py:186-199 | the nesting grammar `Nested` holds exactly when the bracket stack, run over the text, never meets a closer of the wrong kind or an empty stack and ends empty |
| InlineJson.FragmentClosersMatch | src/gptctl/utils/utils.py:190-199 | inside a reported fragment every closer finds an open bracket whose closer it is |
| InlineJson.MismatchDiscards | src/gptctl/utils/utils.py:195-199 | a closer of the wrong kind empties the stack and drops the open fragment: no reported fragment starts at the dropped opener or spans the closer |
| InlineJson.LooksLikeJsonShape | src/gptctl/utils/utils.py:114-119 | the heuristic holds exactly when the stripped text opens with a bracket and ends with the matching one; such text has at least two characters |
| InlineJson.ScanInvariant | src/gptctl/utils/utils.py:186-202 | after any prefix of the text, a fragment is open exactly when the stack is non-empty; the stack is exactly the still-unclosed openers of the text from the open fragment's start, which never closed to empty before; every reported fragment is well formed, in order and before the open one |
| InlineJson.ReplaceInlineJson | src/gptctl/utils/utils.py:206-235 | the out-list loop equals the splice function `ReplaceInline` |
| InlineJson.ReplaceInlineIdentity | src/gptctl/utils/utils.py:210-235 | when no fragment is found, or none parses, the text comes back unchanged |
| InlineJson.ReplaceInlineKeepsEnds | src/gptctl/utils/utils.py:215-235 | the text before the first fragment and after the last one is copied verbatim |
| InlineJson.SpliceUnparsed | src/gptctl/utils/utils.py:226-235 | unparsable fragments are kept as they are, with the text around them |
| InlineJson.FencedBlocks | src/gptctl/utils/utils.py:15 | the non-greedy ``` matches are in bounds, start and end with ```, hold no fence between, and do not overlap |
| InlineJson.FencedBlocksLeftmost | src/gptctl/utils/utils.py:15 | the first match starts at the first fence at or after the search start |
| InlineJson.FencedBlocksNext | src/gptctl/utils/utils.py:357 | each later match of `finditer` starts at the first fence after the previous match ends |
| InlineJson.FencedBlocksExhaustive | src/gptctl/utils/utils.py:357 | after the last match no two non-overlapping fences are left, so no match is missed |
| InlineJson.SplitFenced | src/gptctl/utils/utils.py:353-364 | the `pieces`/`last` loop equals the piece function `FencedPieces` |
| InlineJson.FencedPiecesKeepCode | src/gptctl/utils/utils.py:353-364 | every code block appears among the pieces verbatim and in order |
| Messages.FirstHolding | src/gptctl/utils/utils.py:253-256 | finds the first key, in the probing order, whose value is a dict or a list; no earlier key qualifies |
| Messages.MessagesIter | src/gptctl/utils/utils.py:253-296 | the generator loops yield exactly `MessagesOf(conv)` |
| Messages.MessagesFromChosenKey | src/gptctl/utils/utils.py:255-290 | once a key qualifies, the messages come from that container alone |
| Messages.MessagesFallback | src/gptctl/utils/utils.py:291-296 | with no qualifying key, the messages are exactly the top-level values with an author and a content |
| Messages.EntryMessagesWithin | src/gptctl/utils/utils.py:258-290 | every yielded message is an entry or a value inside one |
| Parts.CodeBlockShape | src/gptctl/utils/utils.py:305-312 | a code part is a fence in its language ("text" when empty) around the stripped code, wrapped in `<details>` naming language and line count exactly when the line count exceeds the threshold |
| Parts.FencedRoundTrip | src/gptctl/utils/utils.py:309 | the code can be read back out of its fence |
| Parts.StringifyCodePart | src/gptctl/utils/utils.py:300-312 | a dict part whose type starts with "code/" renders as that code block |
| Parts.StringifyPlainString | src/gptctl/utils/utils.py:339-368 | a string with no JSON look, no fenced code and no parsable fragment renders as itself, stripped |
| Parts.StringifyJsonString | src/gptctl/utils/utils.py:343-346 | a string holding a JSON object renders as that object does |
| Parts.StringifyOther | src/gptctl/utils/utils.py:370-371 | None, booleans, numbers and lists render as `str(part)` |
| Messages.MakeBookmark | src/gptctl/utils/utils.py:376-396 | the accumulation loop equals `Bookmark` over the five fields in dict order, lists joined by ", " |
| Messages.RenderMessage | src/gptctl/utils/utils.py:409-440 | a message is kept exactly when it is not filtered out and its rendered text is not blank; the kept turn carries that role and text |
| Messages.ConversationToMd | src/gptctl/utils/utils.py:399-473 | the TOC has one entry per kept user turn, and the content is the document built from the blocks of the kept turns |
| Messages.ThreadMsgCount | src/gptctl/utils/utils.py:476-516 | the counter equals the number of kept user turns |
| Messages.TocMatchesCount | src/gptctl/utils/utils.py:442-514 | the TOC from `conversation_to_md` is as long as `thread_msg_count` for the same conversation and skip flag |
| Messages.TurnsFiltered | src/gptctl/utils/utils.py:420-440 | every kept turn has non-blank text; with skipping on, no kept turn is system, error_reporting_system, tool or hidden |
| Messages.SkipNeverAddsTurns | src/gptctl/utils/utils.py:491-498 | turning skipping off never lowers the count |
| Messages.TocLinkResolves | src/gptctl/utils/utils.py:446-447 | a user turn's block opens with the anchor its TOC link points to |
| Listing.SelectConv | src/gptctl/utils/utils.py:525-537 | the first loop of `collect_conv` yields the conversations the titles find, in title order, or all conversations when no title is given |
| Listing.SelectedFromList | src/gptctl/utils/utils.py:526-535 | at most one conversation per title, each from the list and carrying one of the titles |
| Listing.CollectConv | src/gptctl/utils/utils.py:519-549 | one record per selected conversation (all of them when no title is given), in order, with its title, date, user-turn count and the conversation itself; `to_dict` of each record gives back the selected conversation; only the selected conversations need be readable |
| Listing.RecordsToDict | src/gptctl/utils/utils.py:539-547 | `to_dict` over the built records gives back exactly the list they were built from |
| Listing.SortConvCorrect | src/gptctl/utils/utils.py:552-570 | no-sort returns the list unchanged; otherwise the result is a permutation ordered by the key (descending for DESC), equal keys keeping their input order |
| Listing.UnparsableFirst | src/gptctl/utils/utils.py:561 | ascending by creation date, unparsable dates sort first |
| Listing.Batches | src/gptctl/utils/utils.py:631-647 | a chunk size of 0 raises (None), and only then |
| Listing.BatchesConcat | src/gptctl/utils/utils.py:646-647 | for a positive size, the chunks put back together give the list |
| Listing.BatchesSizes | src/gptctl/utils/utils.py:646-647 | no chunk is empty and every chunk but the last holds exactly `chunk_size` items |
| Listing.BatchesCount | src/gptctl/utils/utils.py:646-647 | there are just enough chunks to hold the list |
| Listing.BatchesNegative | src/gptctl/utils/utils.py:646 | a negative size yields no chunks |
| Definitions.ToDict | src/gptctl/definitions.py:29-30 | returns the wrapped dict itself, the conversation the record was built from (see `Listing.RecordsToDict`) |
| Definitions.AttributeWins | src/gptctl/definitions.py:15-20 | for a stored field, `get` returns the attribute, as indexing does |
| Definitions.GetFallsBack | src/gptctl/definitions.py:15-20 | for any other key, `get` reads the wrapped dict, else returns the default, which is "Not found" unless given |
| Definitions.IndexIgnoresDict | src/gptctl/definitions.py:22-23 | indexing never consults the wrapped dict, and a missing attribute gives "<key> not found" |
| Definitions.SortFieldRoundTrip | src/gptctl/definitions.py:33-37 | each of the four sort fields is found again from its value |
| Definitions.SortOrderRoundTrip | src/gptctl/definitions.py:40-42 | each of the two orders is found again from its value |
| Definitions.SortFieldsAreAttributes | src/gptctl/definitions.py:7-37 | every sort field but no_sort names a field the constructor stores |
| Sorting.SortByCorrect | src/gptctl/utils/utils.py:563-567 | `sorted` with a key and `reverse` returns an ordered, stable permutation |
| LastText.ExtractTextNone | src/gptctl/utils/suggestions.py:34-35 | None has no text |
| LastText.ExtractTextNonDict | src/gptctl/utils/json_openai.py:33-47 | a node that is neither None nor a dict reads as `str(node).strip()` |
| LastText.ExtractTextUnwraps | src/gptctl/utils/suggestions.py:38-45 | a `{"message": m}` wrapper reads as `m` |
| LastText.ExtractTextNoParts | src/gptctl/utils/suggestions.py:53-61 | missing content with no parts, or an empty parts list, gives "" |
| LastText.ExtractTextStringParts | src/gptctl/utils/suggestions.py:63-64 | a string `parts` is returned stripped |
| LastText.ExtractTextLastString | src/gptctl/utils/suggestions.py:66-76 | over None and string parts, the result is the last non-blank string, stripped, or "" when there is none; everything after it is skipped |
| LastText.ExtractTextDictPart | src/gptctl/utils/suggestions.py:78-99 | a dict part reached by the reverse scan ends it with its non-empty text |
| LastText.DictText | src/gptctl/utils/suggestions.py:80-99 | a dict part's text (text-like key, nested parts, or the JSON dump) is never empty |
| LastText.QuestionMatchMentions | src/gptctl/utils/suggestions.py:127-131 | a whole-word match of a key phrase is in particular a substring match |
| Suggestions.SuggestionIsLastLine | src/gptctl/utils/suggestions.py:118-132 | the suggestion is "" or exactly the last non-blank stripped line, and it is non-empty exactly when that line contains a key phrase |
| OpenAiSuggestions.StrictIsLastLine | src/gptctl/utils/json_openai.py:117-131 | the suggestion is "" or the last non-blank stripped line; non-empty exactly when a key phrase occurs there as whole words and the line ends in '?' |
| OpenAiSuggestions.StrictPhrasesIncluded | src/gptctl/utils/json_openai.py:4-15 | the strict phrases are among the lenient ones, so a strict match is a lenient match |
| OpenAiSuggestions.StrictImpliesLenient | src/gptctl/utils/json_openai.py:111-131 | whenever the strict detector finds a suggestion, the lenient one finds the same |
| Suggestions.VisitNode | src/gptctl/utils/suggestions.py:151-195 | one node's row and the updated latest user text |
| Suggestions.AnalyzeNodes | src/gptctl/utils/suggestions.py:148-195 | the rows of one conversation, carrying the latest user text across the loop, equal `ConvRows` |
| Suggestions.AnalyzeConversations | src/gptctl/utils/suggestions.py:135-196 | the loop over conversations equals `AllRows` |
| Suggestions.AllRowsWellFormed | src/gptctl/utils/suggestions.py:168-195 | user rows pair with their own text and carry no suggestion; assistant rows carry a non-empty suggestion as their text |
| Suggestions.RowOfUser | src/gptctl/utils/suggestions.py:168-181 | a node gives a user row exactly when it has a user message with text, and the row holds that text |
| Suggestions.LatestUserIsLastUserRow | src/gptctl/utils/suggestions.py:148-169 | the carried `previous_user_msg` is the text of the last user row so far |
| Suggestions.AssistantPairsLatestUser | src/gptctl/utils/suggestions.py:183-195 | an assistant row is paired with the last earlier user row of its conversation, or "" |
| Suggestions.NonDictMappingSkipped | src/gptctl/utils/suggestions.py:140-143 | a conversation whose mapping is not a dict adds no rows |
| Suggestions.MarkdownLines | src/gptctl/utils/suggestions.py:199-210 | three header lines, then one line per row for the first min(50, len(rows)) rows |
| Suggestions.ExportMarkdown | src/gptctl/utils/suggestions.py:199-211 | the appending loop joins exactly those lines with newlines |
| Suggestions.ExportIgnoresTail | src/gptctl/utils/suggestions.py:207 | rows after the fiftieth never reach the output |
| ThreadIndex.IndexHoldsLast | src/gptctl/commands/export/extract.py:33-35 | the index has distinct keys and maps each id to the last admitted node with that id |
| ThreadIndex.IndexEntriesAdmitted | src/gptctl/commands/export/extract.py:34 | every indexed node passes the filter |
| ThreadIndex.FindByKey | src/gptctl/commands/export/extract.py:37-41 | returns the first indexed node whose message id or title equals the key, and None exactly when there is none |
| ThreadIndex.NullRootBreaksSearch | src/gptctl/commands/export/extract.py:33-41 | as written: an index that starts with a `"message": null` node raises on every search |
| ThreadIndex.CorrectedSearchAgrees | src/gptctl/commands/export/extract.py:37-41 | over an index of nodes carrying a message dict, the search never raises and agrees with `FindByKey` |
| ThreadIndex.DetectRoot | src/gptctl/commands/export/extract.py:49-53 | the loop ends at `Top`, a node whose parent is absent or not indexed |
| ThreadIndex.Climb | src/gptctl/commands/export/extract.py:58-63 | the climbing loop collects `Ancestors`, nearest first |
| ThreadIndex.GetParents | src/gptctl/commands/export/extract.py:57-68 | the result is the ancestor chain reversed, then limited by `context_limit` |
| ThreadIndex.AncestorsLinked | src/gptctl/commands/export/extract.py:60-63 | each listed ancestor is the indexed parent of the one before it |
| ThreadIndex.AncestorsReachTop | src/gptctl/commands/export/extract.py:49-63 | the chain ends at the root that auto-detection finds |
| ThreadIndex.ParentsStartAtRoot | src/gptctl/commands/export/extract.py:64-68 | the context starts at the root, and a positive limit keeps the first entries, those nearest the root |
| ThreadIndex.NotOwnAncestor | src/gptctl/commands/export/extract.py:58-63 | when the parent chain ends, the message is not among its own ancestors |
| ThreadIndex.AncestorsDistinct | src/gptctl/commands/export/extract.py:58-63 | when the parent chain ends, no ancestor is listed twice |
| ThreadIndex.ParentsExcludeMessage | src/gptctl/commands/export/extract.py:57-68 | whatever the limit, the context never holds the message itself and never repeats an entry |
| ThreadIndex.SliceTo | src/gptctl/commands/export/extract.py:65 | Python's `[:n]`, including negative `n` |
| PartialExport.GetChildren | src/gptctl/commands/export/extract.py:71-84 | the recursive walk equals `Subtree` over the remaining levels |
| PartialExport.VisitChildren | src/gptctl/commands/export/extract.py:81-83 | the loop over the children equals `Forest` |
| PartialExport.ChildrenSorted | src/gptctl/commands/export/extract.py:74-79 | siblings come in creation order and are exactly the indexed nodes with that parent |
| PartialExport.ChildrenInComplete | src/gptctl/commands/export/extract.py:74-78 | every indexed node with that parent is among the children |
| PartialExport.DepthBounds | src/gptctl/commands/export/extract.py:72-73 | depth 0 or less yields nothing; depth 1 yields the direct children |
| PartialExport.SubtreePreOrder | src/gptctl/commands/export/extract.py:80-84 | pre-order: each listed node's parent is the start message or a node listed before it |
| PartialExport.RangeAfter | src/gptctl/commands/export/extract.py:99 | `xs[s+1:e+1]` has e-s elements when s<e and none otherwise, starting right after s |
| PartialExport.RangeBetween | src/gptctl/commands/export/extract.py:94-99 | in the sorted list the range lies between the start and the end message in time, and it is empty unless the end comes after the start |
| PartialExport.IndexOf | src/gptctl/commands/export/extract.py:97-98 | `list.index`: the first position holding the value |
| PartialExport.AsWrittenDedupRaises | src/gptctl/commands/export/extract.py:105 | as written: `set(exported)` fails on every exported list, since it always holds the start message, a dict |
| PartialExport.DedupDistinct | src/gptctl/commands/export/extract.py:105 | corrected: no two kept messages share an id |
| PartialExport.DedupCovers | src/gptctl/commands/export/extract.py:105 | corrected: every id of the input is kept |
| PartialExport.ChronologicalCorrect | src/gptctl/commands/export/extract.py:105 | the final list is sorted by creation time and is a permutation of the de-duplicated messages |
| PartialExport.Rendered | src/gptctl/commands/export/extract.py:108-118 | Markdown echoes one document; plain text echoes one line per message |
| PartialExport.Render | src/gptctl/commands/export/extract.py:108-118 | the output loops equal `Rendered`: the header, then "**Role:** first-part" per message, or "role: first-part" lines; a string role is required only for Markdown, where it is capitalised |
| PartialExport.LinesAgree | src/gptctl/commands/export/extract.py:113-118 | a plain line starts with `str()` of the role, whatever its type; for a string role it names the same role as the Markdown line (capitalised there); both show the same first part |
| PartialCommand.ThreadPartial | src/gptctl/commands/export/extract.py:32-118 | the command's steps give exactly the echoes and the exit status of `Run` |
| PartialCommand.Export | src/gptctl/commands/export/extract.py:87-118 | collect, de-duplicate, sort and render, as `Run` does on success |
| PartialCommand.RunStatus | src/gptctl/commands/export/extract.py:43-92 | the status is 1 exactly when the start, or a given end, is not found, and the last echo says which; an unknown start echoes nothing else |
| PartialCommand.ExportHoldsStart | src/gptctl/commands/export/extract.py:87-105 | the export holds the start message's id, is in creation order, and holds only indexed messages |
| PartialCommand.RunTextLines | src/gptctl/commands/export/extract.py:87-118 | a successful plain-text export echoes at least one message line |
| PartialCommand.CollectedWithin | src/gptctl/commands/export/extract.py:87-102 | ancestors, range and descendants are all indexed messages |

## Left out

- Python's Unicode-aware `\w`, `str.lower`, `str.capitalize` and `str.isspace`: the model uses ASCII word characters, ASCII case and Python's whitespace list.
- Floating-point numbers: JSON numbers are integers, and `create_time` is an integer key.
- `json.loads` is a parameter (a parser whose results are no longer than their input). `format_timestamp`, `parse_timestamp` and `get_created_date` are parameters too: they read the platform clock and time zone.
- `json.dumps` is written out for `indent=None` and `indent=2` with `ensure_ascii=False`. `repr` of strings, used by `str()` on lists and dicts, uses a simplified escape set.
- A dict with duplicate keys is not modelled: `Get` takes the first field with the key.
- Inputs on which the source raises (`AttributeError` or `TypeError` on unexpected shapes, such as a non-dict author or a non-list `updates`) are excluded by preconditions (`Parts.Renderable`, `Messages.MessageOk`, `Suggestions.NodeOk`, `PartialCommand.EntryOk` and similar).
- FENCED_CODE_RE and SUGGESTION_RE are not modelled as regex engines. They are written as a non-greedy match scan and a "whole-word phrase, ends with '?'" predicate on single lines.
- Console output is not modelled: `print`, `typer.echo`, Rich tables and `create_rich_table`. The partial command's echoes are returned as a list of strings, and the debug print of a skipped message in `analyze_conversations` is not modelled.
- `make_filename`, `get_filepath` and `get_batch_filepath` use the clock and the file system; `windows_to_unix_eol`, `truncate_string_with_ellipsis` (textwrap), `is_jinja_template_string` and `handle_code_content` are not used by the core and are not part of this model.
- Reading the export file and the command-line wiring of the `partial` command are not modelled: the parsed export is the input.
- `PartialExport.Levels`: an unset depth is modelled as as many levels as the index has entries. On acyclic parent links this is the same as unbounded recursion.
- PartialCommand.ThreadPartial: the precondition `CommandOk` asks every indexed message to be readable and every parent chain to end. The source needs this only for the messages it actually reads. Cyclic parent chains, on which the source never terminates, are ruled out this way.
- Suggestions.NodeOk: a node whose `create_time` is a bool, which Python compares as 0 or 1, is excluded along with other non-numeric times.
- Listing.MsgCount: a conversation the walkers cannot read gets the count 0. The source would raise there; `Listing.CollectConv` requires every selected conversation to be readable, so it never builds such a record.

## Findings

| source | as written | input that shows it | evidently intended | confidence | as-written member | corrected member |
|---|---|---|---|---|---|---|
| src/gptctl/commands/export/extract.py:33-41 | the index admits every node with a `message` key, including `"message": null`, and `find_by_key` then calls `.get` on `None` | an export whose first node is the usual root node `{"id": "r", "message": null, "parent": null}`: every search raises `AttributeError` | index only nodes whose message is a dict | not executed | ThreadIndex.NullRootBreaksSearch | ThreadIndex.CorrectedSearchAgrees |
| src/gptctl/commands/export/extract.py:105 | `sorted(set(exported), ...)` puts dicts into a set | any run that reaches line 105: `exported` always holds the start message, a dict, so `TypeError: unhashable type` | keep each message once, by id, then sort by creation time | not executed | PartialExport.AsWrittenDedupRaises | PartialExport.ChronologicalCorrect |
