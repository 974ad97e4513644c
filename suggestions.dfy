/** Assistant follow-up offers and the user messages they answer
    (suggestions.py): the lenient `extract_suggestion`, the
    `analyze_conversations` pass over every conversation's messages, and the
    Markdown table `export_markdown` writes. */
module Suggestions {
  import opened Text
  import opened Options
  import opened JsonValue
  import opened Sorting
  import opened LastText

  /** The key phrases of an offer, lower case. */
  const Phrases: seq<string> := [
    "would you like", "should i", "do you want", "want me to", "shall i",
    "do you want me to", "would you like me to", "let me know"
  ]

  /** `extract_suggestion(node)`: the last non-blank line of the node's text
      when it is a question built on a key phrase, or merely mentions one. */
  function ExtractSuggestion(node: Json): string {
    SuggestionIn(ExtractText(node))
  }

  function SuggestionIn(text: string): string {
    if text == "" then ""
    else
      var last := LastLine(text);
      if last.None? then ""
      else if QuestionMatch(last.value, Phrases) then last.value
      else if MentionsPhrase(last.value, Phrases) then last.value
      else ""
  }

  /** The suggestion is the text's last non-blank line exactly when that line
      mentions a key phrase; otherwise there is none. The question test adds
      nothing to the phrase test. */
  lemma SuggestionIsLastLine(text: string)
    ensures SuggestionIn(text) == "" || LastLine(text) == Some(SuggestionIn(text))
    ensures SuggestionIn(text) != "" <==> LastLine(text).Some? && MentionsPhrase(LastLine(text).value, Phrases)
  {
    if text == "" {
      assert SplitLines(text) == [];
    } else if LastLine(text).Some? && QuestionMatch(LastLine(text).value, Phrases) {
      QuestionMatchMentions(LastLine(text).value, Phrases);
    }
  }

  /** One row of the analysis: the conversation title, the message id, who
      spoke, the text shown, the user message it answers and the offer. */
  datatype Row = Row(title: Json, id: Json, role: string, text: string, paired: string, suggestion: string)

  /** `msg.get("message", {})` */
  function MessageOf(node: Json): Json {
    node.GetOr("message", Obj([]))
  }

  /** `m_obj.get("author", {}).get("role")` */
  function AuthorRole(m: Json): Json {
    m.GetOr("author", Obj([])).GetOr("role", Null)
  }

  /** `x.get("create_time", 0)`, the sort key of a mapping node. */
  function CreateTime(node: Json): Key {
    var t := node.GetOr("create_time", Num(0));
    Number(if t.Num? then t.n else 0)
  }

  /** A mapping node the pass reads without raising: a dict with a numeric
      (or no) creation time whose message is `None` or a dict whose author,
      if given, is a dict. */
  predicate NodeOk(node: Json) {
    node.Obj? && node.GetOr("create_time", Num(0)).Num?
    && (MessageOf(node).Null? || (MessageOf(node).Obj? && MessageOf(node).GetOr("author", Obj([])).Obj?))
  }

  /** A conversation the pass reads without raising: a dict whose mapping,
      when it is a dict, holds only readable nodes. */
  predicate ConvOk(conv: Json) {
    conv.Obj? && (conv.GetOr("mapping", Obj([])).Obj? ==>
      forall k :: 0 <= k < |conv.GetOr("mapping", Obj([])).fields| ==> NodeOk(conv.GetOr("mapping", Obj([])).fields[k].1))
  }

  /** The text of a node spoken by the user, if it has any. */
  function UserText(node: Json): Option<string> {
    var m := MessageOf(node);
    if m.Null? then None
    else
      var text := ExtractText(m);
      if text != "" && AuthorRole(m) == Str("user") then Some(text) else None
  }

  /** `previous_user_msg` after the given nodes. */
  function LatestUser(nodes: seq<Json>): Option<string> {
    if nodes == [] then None
    else
      var u := UserText(nodes[|nodes| - 1]);
      if u.Some? then u else LatestUser(nodes[..|nodes| - 1])
  }

  /** The row a node adds, given the latest user text before it. */
  function RowOf(title: Json, node: Json, previous: Option<string>): Option<Row> {
    var m := MessageOf(node);
    if m.Null? then None
    else
      var text := ExtractText(m);
      var id := node.GetOr("id", Str("unknown"));
      if text == "" then None
      else if AuthorRole(m) == Str("user") then Some(Row(title, id, "user", text, text, ""))
      else if AuthorRole(m) == Str("assistant") then
        var suggestion := ExtractSuggestion(node);
        if suggestion != "" then Some(Row(title, id, "assistant", suggestion, previous.GetOr(""), suggestion))
        else None
      else None
  }

  function AsList(r: Option<Row>): seq<Row> {
    if r.Some? then [r.value] else []
  }

  /** The rows of one conversation's nodes, taken in order. */
  function ConvRows(title: Json, nodes: seq<Json>): seq<Row> {
    if nodes == [] then []
    else
      var init := nodes[..|nodes| - 1];
      ConvRows(title, init) + AsList(RowOf(title, nodes[|nodes| - 1], LatestUser(init)))
  }

  /** The mapping's nodes by creation time, ties in mapping order. */
  function SortedNodes(mapping: Json): seq<Json>
    requires mapping.Obj?
  {
    SortBy(mapping.Values(), CreateTime, false)
  }

  /** The rows of one conversation; none when its mapping is not a dict. */
  function RowsOfConv(conv: Json): seq<Row> {
    var mapping := conv.GetOr("mapping", Obj([]));
    if !mapping.Obj? then [] else ConvRows(conv.GetOr("title", Str("Untitled")), SortedNodes(mapping))
  }

  function AllRows(data: seq<Json>): seq<Row> {
    if data == [] then [] else AllRows(data[..|data| - 1]) + RowsOfConv(data[|data| - 1])
  }

  lemma AllRowsSnoc(data: seq<Json>, i: nat)
    requires i < |data|
    ensures AllRows(data[..i + 1]) == AllRows(data[..i]) + RowsOfConv(data[i])
  {
    assert data[..i + 1][..i] == data[..i];
  }

  lemma ConvRowsSnoc(title: Json, nodes: seq<Json>, j: nat)
    requires j < |nodes|
    ensures ConvRows(title, nodes[..j + 1]) == ConvRows(title, nodes[..j]) + AsList(RowOf(title, nodes[j], LatestUser(nodes[..j])))
    ensures LatestUser(nodes[..j + 1]) == if UserText(nodes[j]).Some? then UserText(nodes[j]) else LatestUser(nodes[..j])
  {
    assert nodes[..j + 1][..j] == nodes[..j];
  }

  /** The loop body for one node: the row it adds and the latest user text
      after it. */
  method VisitNode(title: Json, msg: Json, previous: Option<string>) returns (row: Option<Row>, latest: Option<string>)
    requires NodeOk(msg)
    ensures row == RowOf(title, msg, previous)
    ensures latest == if UserText(msg).Some? then UserText(msg) else previous
  {
    var m := msg.GetOr("message", Obj([]));
    var id := msg.GetOr("id", Str("unknown"));
    row, latest := None, previous;
    if m.Null? {
      return;
    }
    var role := m.GetOr("author", Obj([])).GetOr("role", Null);
    var text := ExtractText(m);
    if text == "" {
      return;
    }
    if role == Str("user") {
      latest := Some(text);
      row := Some(Row(title, id, "user", text, text, ""));
    } else if role == Str("assistant") {
      var suggestion := ExtractSuggestion(msg);
      if suggestion != "" {
        row := Some(Row(title, id, "assistant", suggestion, previous.GetOr(""), suggestion));
      }
    }
  }

  /** The inner loop over one conversation's sorted nodes. */
  method AnalyzeNodes(title: Json, msgs: seq<Json>) returns (rows: seq<Row>)
    requires forall k :: 0 <= k < |msgs| ==> NodeOk(msgs[k])
    ensures rows == ConvRows(title, msgs)
  {
    rows := [];
    var previous: Option<string> := None;
    for j := 0 to |msgs|
      invariant rows == ConvRows(title, msgs[..j])
      invariant previous == LatestUser(msgs[..j])
    {
      var row;
      ConvRowsSnoc(title, msgs, j);
      row, previous := VisitNode(title, msgs[j], previous);
      rows := rows + AsList(row);
    }
    assert msgs[..|msgs|] == msgs;
  }

  /** `analyze_conversations(data)` */
  method AnalyzeConversations(data: seq<Json>) returns (rows: seq<Row>)
    requires forall k :: 0 <= k < |data| ==> ConvOk(data[k])
    ensures rows == AllRows(data)
  {
    rows := [];
    for i := 0 to |data|
      invariant rows == AllRows(data[..i])
    {
      AllRowsSnoc(data, i);
      var conv := data[i];
      var title := conv.GetOr("title", Str("Untitled"));
      var mapping := conv.GetOr("mapping", Obj([]));
      if !mapping.Obj? {
        continue;
      }
      var msgs := SortBy(mapping.Values(), CreateTime, false);
      SortedNodesOk(mapping);
      var convRows := AnalyzeNodes(title, msgs);
      rows := rows + convRows;
    }
    assert data[..|data|] == data;
  }

  /** Sorting keeps every node of the mapping, so all stay readable. */
  lemma SortedNodesOk(mapping: Json)
    requires mapping.Obj? && forall k :: 0 <= k < |mapping.fields| ==> NodeOk(mapping.fields[k].1)
    ensures forall k :: 0 <= k < |SortedNodes(mapping)| ==> NodeOk(SortedNodes(mapping)[k])
  {
    var vals := mapping.Values();
    SortByCorrect(vals, CreateTime, false);
    forall k | 0 <= k < |SortedNodes(mapping)|
      ensures NodeOk(SortedNodes(mapping)[k])
    {
      var x := SortedNodes(mapping)[k];
      assert x in multiset(SortedNodes(mapping));
      assert x in vals;
    }
  }

  /** What every row satisfies: its text is not empty; a user row pairs with
      itself and offers nothing; an assistant row shows its offer. */
  predicate WellFormedRow(r: Row) {
    r.text != ""
    && ((r.role == "user" && r.paired == r.text && r.suggestion == "")
        || (r.role == "assistant" && r.suggestion == r.text))
  }

  lemma RowOfWellFormed(title: Json, node: Json, previous: Option<string>)
    ensures RowOf(title, node, previous).Some? ==>
      WellFormedRow(RowOf(title, node, previous).value) && RowOf(title, node, previous).value.title == title
  {
  }

  /** Every row of a conversation is well formed and carries its title. */
  lemma {:induction false} ConvRowsWellFormed(title: Json, nodes: seq<Json>)
    ensures forall k :: 0 <= k < |ConvRows(title, nodes)| ==>
      WellFormedRow(ConvRows(title, nodes)[k]) && ConvRows(title, nodes)[k].title == title
  {
    if nodes != [] {
      var init := nodes[..|nodes| - 1];
      ConvRowsWellFormed(title, init);
      RowOfWellFormed(title, nodes[|nodes| - 1], LatestUser(init));
    }
  }

  /** Every row of the analysis is well formed. */
  lemma {:induction false} AllRowsWellFormed(data: seq<Json>)
    ensures forall k :: 0 <= k < |AllRows(data)| ==> WellFormedRow(AllRows(data)[k])
  {
    if data != [] {
      var conv := data[|data| - 1];
      AllRowsWellFormed(data[..|data| - 1]);
      var mapping := conv.GetOr("mapping", Obj([]));
      if mapping.Obj? {
        ConvRowsWellFormed(conv.GetOr("title", Str("Untitled")), SortedNodes(mapping));
      }
    }
  }

  /** The text of the last user row, if any. */
  function LastUserRow(rows: seq<Row>): Option<string> {
    if rows == [] then None
    else if rows[|rows| - 1].role == "user" then Some(rows[|rows| - 1].text)
    else LastUserRow(rows[..|rows| - 1])
  }

  lemma LastUserRowSnoc(rows: seq<Row>, x: Option<Row>)
    ensures LastUserRow(rows + AsList(x)) ==
      if x.Some? && x.value.role == "user" then Some(x.value.text) else LastUserRow(rows)
  {
    if x.Some? {
      assert (rows + [x.value])[..|rows|] == rows;
    } else {
      assert rows + AsList(x) == rows;
    }
  }

  /** A node adds a user row exactly when it has user text, and that row
      shows the text. */
  lemma RowOfUser(title: Json, node: Json, previous: Option<string>)
    ensures UserText(node).Some? <==> RowOf(title, node, previous).Some? && RowOf(title, node, previous).value.role == "user"
    ensures UserText(node).Some? ==> RowOf(title, node, previous).value.text == UserText(node).value
  {
  }

  /** The carried `previous_user_msg` is always the text of the last user
      row emitted so far in the conversation. */
  lemma {:induction false} LatestUserIsLastUserRow(title: Json, nodes: seq<Json>)
    ensures LatestUser(nodes) == LastUserRow(ConvRows(title, nodes))
  {
    if nodes != [] {
      var init := nodes[..|nodes| - 1];
      LatestUserIsLastUserRow(title, init);
      RowOfUser(title, nodes[|nodes| - 1], LatestUser(init));
      LastUserRowSnoc(ConvRows(title, init), RowOf(title, nodes[|nodes| - 1], LatestUser(init)));
    }
  }

  /** An assistant row is paired with the latest user row before it in the
      same conversation, or with "" when there is none. */
  lemma {:induction false} AssistantPairsLatestUser(title: Json, nodes: seq<Json>)
    ensures forall k :: 0 <= k < |ConvRows(title, nodes)| && ConvRows(title, nodes)[k].role == "assistant" ==>
      ConvRows(title, nodes)[k].paired == LastUserRow(ConvRows(title, nodes)[..k]).GetOr("")
  {
    if nodes != [] {
      var init := nodes[..|nodes| - 1];
      var before := ConvRows(title, init);
      var x := RowOf(title, nodes[|nodes| - 1], LatestUser(init));
      AssistantPairsLatestUser(title, init);
      LatestUserIsLastUserRow(title, init);
      forall k | 0 <= k < |ConvRows(title, nodes)| && ConvRows(title, nodes)[k].role == "assistant"
        ensures ConvRows(title, nodes)[k].paired == LastUserRow(ConvRows(title, nodes)[..k]).GetOr("")
      {
        assert ConvRows(title, nodes) == before + AsList(x);
        if k < |before| {
          assert ConvRows(title, nodes)[..k] == before[..k];
        } else {
          assert ConvRows(title, nodes)[..k] == before;
        }
      }
    }
  }

  /** A conversation whose mapping is not a dict adds no rows. */
  lemma NonDictMappingSkipped(data: seq<Json>, conv: Json)
    requires !conv.GetOr("mapping", Obj([])).Obj?
    ensures AllRows(data + [conv]) == AllRows(data)
  {
    assert (data + [conv])[..|data|] == data;
  }

  /** The lines above the table. */
  const Header: seq<string> := [
    "### \U{1F9E9} User \U{2194} Assistant Suggestion Pairs\n",
    "| Conversation | Role | Message ID | Message Text | Paired User Message | Assistant Suggestion |",
    "|--------------|------|-------------|---------------|----------------------|----------------------|"
  ]

  /** At most this many rows are exported, each text cell cut to `CellWidth`. */
  const RowLimit: nat := 50
  const CellWidth: nat := 40

  /** One table line. */
  function RowLine(r: Row): string {
    "| " + PyStr(r.title) + " | " + r.role + " | " + PyStr(r.id)
    + " | " + Take(r.text, CellWidth) + " | " + Take(r.paired, CellWidth) + " | " + Take(r.suggestion, CellWidth) + " |"
  }

  function Shown(rows: seq<Row>): (r: seq<Row>)
    ensures |r| == if |rows| < RowLimit then |rows| else RowLimit
    ensures r == rows[..|r|]
  {
    if |rows| < RowLimit then rows else rows[..RowLimit]
  }

  /** `md_lines`: the header, then one line per shown row, in order. */
  function MarkdownLines(rows: seq<Row>): (r: seq<string>)
    ensures |r| == |Header| + |Shown(rows)|
    ensures r[..|Header|] == Header
    ensures forall k :: 0 <= k < |Shown(rows)| ==> r[|Header| + k] == RowLine(rows[k])
  {
    HeadedLines(Header, rows, Shown(rows), RowLine);
    Header + Map(Shown(rows), RowLine)
  }

  /** Lines for the shown prefix of the rows, after a header. */
  lemma HeadedLines(header: seq<string>, rows: seq<Row>, shown: seq<Row>, line: Row -> string)
    requires |shown| <= |rows| && shown == rows[..|shown|]
    ensures forall k :: 0 <= k < |shown| ==> (header + Map(shown, line))[|header| + k] == line(rows[k])
  {
    var m := Map(shown, line);
    forall k | 0 <= k < |shown|
      ensures (header + m)[|header| + k] == line(rows[k])
    {
      assert shown[k] == rows[k];
    }
  }

  /** `export_markdown(rows)` */
  method ExportMarkdown(rows: seq<Row>) returns (md: string)
    ensures md == Join("\n", MarkdownLines(rows))
  {
    var lines := Header;
    var shown := Shown(rows);
    for i := 0 to |shown|
      invariant lines == Header + Map(shown[..i], RowLine)
    {
      MapSnoc(shown, i, RowLine);
      lines := lines + [RowLine(shown[i])];
    }
    assert shown[..|shown|] == shown;
    md := Join("\n", lines);
  }

  /** Rows past the limit never reach the table. */
  lemma ExportIgnoresTail(rows: seq<Row>, more: seq<Row>)
    requires |rows| >= RowLimit
    ensures MarkdownLines(rows + more) == MarkdownLines(rows)
  {
    assert (rows + more)[..RowLimit] == rows[..RowLimit];
  }
}
