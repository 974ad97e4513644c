/** Walking a conversation's messages (`get_messages_iter`), turning the kept
    messages into a Markdown document with a table of contents
    (`conversation_to_md`) and counting the user turns (`thread_msg_count`),
    all in utils.py. */
module Messages {
  import opened Text
  import opened Options
  import opened JsonValue
  import opened Parts
  import opened Names

  /** The keys probed, in order, for the container of messages. */
  const MessageKeys: seq<string> := ["mapping", "messages", "items", "chat", "message_list", "updates"]

  /** `key in conv and conv[key] is not None` with a dict or list value there. */
  predicate HoldsMessages(conv: Json, key: string) {
    conv.Get(key).Some? && (conv.Get(key).value.Obj? || conv.Get(key).value.Arr?)
  }

  /** The index of the first probed key, from `i` on, whose value is a dict or a list. */
  function FirstHolding(conv: Json, i: nat): (r: Option<nat>)
    requires i <= |MessageKeys|
    decreases |MessageKeys| - i
    ensures r.Some? ==> i <= r.value < |MessageKeys| && HoldsMessages(conv, MessageKeys[r.value])
    ensures forall j :: i <= j < |MessageKeys| && (r.None? || j < r.value) ==> !HoldsMessages(conv, MessageKeys[j])
  {
    if i == |MessageKeys| then None
    else if HoldsMessages(conv, MessageKeys[i]) then Some(i)
    else FirstHolding(conv, i + 1)
  }

  /** A dict holding both an author and a content. */
  predicate IsMessageLike(v: Json) {
    v.Obj? && v.Has("author") && v.Has("content")
  }

  /** The first message-like value (the inner `for v in entry.values()` with its `break`). */
  function FirstMessageLike(vals: seq<Json>): (r: Option<Json>)
    ensures r.Some? ==> exists k :: 0 <= k < |vals| && vals[k] == r.value && IsMessageLike(vals[k])
                                      && forall j :: 0 <= j < k ==> !IsMessageLike(vals[j])
    ensures r.None? ==> forall k :: 0 <= k < |vals| ==> !IsMessageLike(vals[k])
  {
    if vals == [] then None
    else if IsMessageLike(vals[0]) then Some(vals[0])
    else
      var r := FirstMessageLike(vals[1..]);
      assert forall k :: 1 <= k < |vals| ==> vals[k] == vals[1..][k - 1];
      r
  }

  /** The message one entry of the container yields, if any: its `message`
      dict, or the entry itself when it has an author and a content, or else
      the first message-like value inside it. */
  function EntryMessage(entry: Json): (r: Option<Json>)
    ensures r.Some? ==> r.value.Obj?
  {
    if !entry.Obj? then None
    else if entry.Has("message") && entry.Get("message").value.Obj? then entry.Get("message")
    else if IsMessageLike(entry) then Some(entry)
    else FirstMessageLike(entry.Values())
  }

  function EntryMessages(entries: seq<Json>): (r: seq<Json>)
    ensures forall k :: 0 <= k < |r| ==> r[k].Obj?
  {
    if entries == [] then []
    else
      var m := EntryMessage(entries[|entries| - 1]);
      EntryMessages(entries[..|entries| - 1]) + (if m.Some? then [m.value] else [])
  }

  /** The top-level values that are messages themselves (the fallback scan). */
  function MessageLikeValues(vals: seq<Json>): (r: seq<Json>)
    ensures forall k :: 0 <= k < |r| ==> IsMessageLike(r[k]) && r[k] in vals
  {
    if vals == [] then []
    else
      MessageLikeValues(vals[..|vals| - 1])
      + (if IsMessageLike(vals[|vals| - 1]) then [vals[|vals| - 1]] else [])
  }

  /** The messages `get_messages_iter(conv)` yields. */
  function MessagesOf(conv: Json): (r: seq<Json>)
    requires conv.Obj?
    ensures forall k :: 0 <= k < |r| ==> r[k].Obj?
  {
    match FirstHolding(conv, 0)
    case Some(i) =>
      var val := conv.Get(MessageKeys[i]).value;
      EntryMessages(if val.Obj? then val.Values() else val.items)
    case None => MessageLikeValues(conv.Values())
  }

  /** The messages of the entries of one container, in order. */
  method CollectEntries(entries: seq<Json>) returns (msgs: seq<Json>)
    ensures msgs == EntryMessages(entries)
  {
    msgs := [];
    for i := 0 to |entries|
      invariant msgs == EntryMessages(entries[..i])
    {
      assert entries[..i + 1][..i] == entries[..i];
      var m := EntryMessage(entries[i]);
      if m.Some? {
        msgs := msgs + [m.value];
      }
    }
    TakeWhole(entries);
  }

  /** `get_messages_iter(conv)`: the first probed key holding a dict or a
      list supplies the messages; only when none does are the top-level
      message-like values taken. */
  method MessagesIter(conv: Json) returns (msgs: seq<Json>)
    requires conv.Obj?
    ensures msgs == MessagesOf(conv)
  {
    var i := 0;
    while i < |MessageKeys|
      invariant 0 <= i <= |MessageKeys|
      invariant FirstHolding(conv, 0) == FirstHolding(conv, i)
    {
      var key := MessageKeys[i];
      if conv.Has(key) && !conv.Get(key).value.Null? {
        var val := conv.Get(key).value;
        if val.Obj? {
          msgs := CollectEntries(val.Values());
          return;
        } else if val.Arr? {
          msgs := CollectEntries(val.items);
          return;
        }
      }
      i := i + 1;
    }
    msgs := CollectMessageLike(conv.Values());
  }

  /** The fallback scan over the top-level values. */
  method CollectMessageLike(vals: seq<Json>) returns (msgs: seq<Json>)
    ensures msgs == MessageLikeValues(vals)
  {
    msgs := [];
    for k := 0 to |vals|
      invariant msgs == MessageLikeValues(vals[..k])
    {
      assert vals[..k + 1][..k] == vals[..k];
      if IsMessageLike(vals[k]) {
        msgs := msgs + [vals[k]];
      }
    }
    TakeWhole(vals);
  }

  /** `m` is one of the entries or a value inside one of them. */
  predicate Within(m: Json, entries: seq<Json>) {
    exists j :: 0 <= j < |entries| && (m == entries[j] || (entries[j].Obj? && m in entries[j].Values()))
  }

  lemma EntryMessageWithin(entry: Json)
    requires EntryMessage(entry).Some?
    ensures Within(EntryMessage(entry).value, [entry])
  {
    var m := EntryMessage(entry).value;
    if entry.Has("message") && entry.Get("message").value.Obj? {
      var i :| 0 <= i < |entry.fields| && entry.fields[i] == ("message", m);
      assert entry.Values()[i] == m;
    } else if !IsMessageLike(entry) {
      var k :| 0 <= k < |entry.Values()| && entry.Values()[k] == m;
    }
    assert [entry][0] == entry;
  }

  lemma {:induction false} EntryMessagesWithin(entries: seq<Json>)
    ensures forall k :: 0 <= k < |EntryMessages(entries)| ==> Within(EntryMessages(entries)[k], entries)
  {
    if entries != [] {
      var init, last := entries[..|entries| - 1], entries[|entries| - 1];
      EntryMessagesWithin(init);
      var r := EntryMessages(entries);
      forall k | 0 <= k < |r| ensures Within(r[k], entries) {
        if k < |EntryMessages(init)| {
          var j :| 0 <= j < |init| && (r[k] == init[j] || (init[j].Obj? && r[k] in init[j].Values()));
          assert entries[j] == init[j];
        } else {
          EntryMessageWithin(last);
          assert [last][0] == entries[|entries| - 1];
        }
      }
    }
  }

  /** Once a probed key holds a container, every message comes from that
      container (an entry or a value of an entry) and nothing else is scanned. */
  lemma MessagesFromChosenKey(conv: Json, i: nat)
    requires conv.Obj? && FirstHolding(conv, 0) == Some(i)
    ensures var val := conv.Get(MessageKeys[i]).value;
      var entries := if val.Obj? then val.Values() else val.items;
      forall k :: 0 <= k < |MessagesOf(conv)| ==> Within(MessagesOf(conv)[k], entries)
  {
    var val := conv.Get(MessageKeys[i]).value;
    EntryMessagesWithin(if val.Obj? then val.Values() else val.items);
  }

  /** With no probed key holding a container, the messages are exactly the
      top-level values that carry an author and a content. */
  lemma MessagesFallback(conv: Json)
    requires conv.Obj? && FirstHolding(conv, 0).None?
    ensures forall j :: 0 <= j < |MessageKeys| ==> !HoldsMessages(conv, MessageKeys[j])
    ensures forall k :: 0 <= k < |MessagesOf(conv)| ==>
      IsMessageLike(MessagesOf(conv)[k]) && MessagesOf(conv)[k] in conv.Values()
  {
  }

  /** The author's role: `author["role"]` (default "unknown") for a dict
      author, otherwise the author value itself (default "unknown"). */
  function Role(msg: Json): Json {
    var author := msg.Get("author");
    if author.Some? && author.value.Obj? then author.value.GetOr("role", Str("unknown"))
    else msg.GetOr("author", Str("unknown"))
  }

  function Metadata(msg: Json): Json {
    msg.GetOr("metadata", Obj([]))
  }

  predicate Hidden(msg: Json) {
    Metadata(msg).GetOr("is_visually_hidden_from_conversation", Bool(false)).Truthy()
  }

  predicate SystemRole(role: Json) {
    role == Str("system") || role == Str("error_reporting_system") || role == Str("tool")
  }

  /** The message is left out of the document and the count. */
  predicate Skipped(msg: Json, skip: bool) {
    skip && (SystemRole(Role(msg)) || Hidden(msg))
  }

  /** `msg.get("content", msg)` */
  function Content(msg: Json): Json {
    msg.GetOr("content", msg)
  }

  /** A dict content's `parts or [content]`. */
  function DictParts(content: Json): Json {
    Or(content.GetOr("parts", Null), Arr([content]))
  }

  /** The parts value can be iterated (a dict content's parts value is a list,
      a string or a dict). */
  predicate PartsIterable(msg: Json) {
    var c := Content(msg);
    c.Obj? ==> DictParts(c).Arr? || DictParts(c).Str? || DictParts(c).Obj?
  }

  /** The parts of a message: a dict content's `parts` (or the content
      itself), a list content, a string content, and none otherwise. */
  function PartsOf(msg: Json): seq<Json>
    requires PartsIterable(msg)
  {
    var c := Content(msg);
    if c.Obj? then Iterate(DictParts(c))
    else if c.Arr? then c.items
    else if c.Str? then [c]
    else []
  }

  predicate AllRenderable(parts: seq<Json>, loads: Parser) {
    forall k :: 0 <= k < |parts| && parts[k].Truthy() ==> Renderable(parts[k], loads)
  }

  /** `[stringify_part(p) for p in parts if p]` */
  function RenderParts(parts: seq<Json>, loads: Parser): (r: seq<string>)
    requires AllRenderable(parts, loads)
    ensures |r| <= |parts|
  {
    if parts == [] then []
    else
      var p := parts[|parts| - 1];
      RenderParts(parts[..|parts| - 1], loads)
      + (if p.Truthy() then [Stringify(p, DefaultCollapse, loads)] else [])
  }

  predicate PartsOk(msg: Json, loads: Parser) {
    PartsIterable(msg) && AllRenderable(PartsOf(msg), loads)
  }

  /** The message's rendered parts joined by blank lines. */
  function MessageText(msg: Json, loads: Parser): string
    requires PartsOk(msg, loads)
  {
    Join("\n\n", RenderParts(PartsOf(msg), loads))
  }

  /** The message shapes both walkers handle without raising: a dict
      metadata, and renderable parts for every message not skipped. */
  predicate MessageOk(msg: Json, skip: bool, loads: Parser) {
    Metadata(msg).Obj? && (!Skipped(msg, skip) ==> PartsOk(msg, loads))
  }

  predicate AllOk(msgs: seq<Json>, skip: bool, loads: Parser) {
    forall k :: 0 <= k < |msgs| ==> MessageOk(msgs[k], skip, loads)
  }

  predicate Convertible(conv: Json, skip: bool, loads: Parser) {
    conv.Obj? && AllOk(MessagesOf(conv), skip, loads)
  }

  /** A message that makes it into the document. */
  datatype Turn = Turn(msg: Json, role: Json, text: string)

  function TurnOf(msg: Json, skip: bool, loads: Parser): Option<Turn>
    requires MessageOk(msg, skip, loads)
  {
    if Skipped(msg, skip) then None
    else
      var text := MessageText(msg, loads);
      if IsBlank(text) then None else Some(Turn(msg, Role(msg), text))
  }

  /** The messages kept, in order: neither skipped nor blank once rendered. */
  function Turns(msgs: seq<Json>, skip: bool, loads: Parser): seq<Turn>
    requires AllOk(msgs, skip, loads)
  {
    if msgs == [] then []
    else
      var t := TurnOf(msgs[|msgs| - 1], skip, loads);
      Turns(msgs[..|msgs| - 1], skip, loads) + (if t.Some? then [t.value] else [])
  }

  predicate IsUser(t: Turn) { t.role == Str("user") }

  /** The number of user turns. */
  function UserCount(turns: seq<Turn>): nat {
    if turns == [] then 0
    else UserCount(turns[..|turns| - 1]) + (if IsUser(turns[|turns| - 1]) then 1 else 0)
  }

  datatype TocEntry = TocEntry(content: string, created: string, link: string)

  /** The text of a user turn on one line. */
  function TocText(text: string): string {
    Strip(ReplaceChar(text, '\n', ' '))
  }

  function TocEntryOf(t: Turn, fmt: Json -> string, truncateLength: int): TocEntry {
    var line := TocText(t.text);
    TocEntry(line, fmt(t.msg.GetOr("create_time", Str(""))), MdAnchor(line, truncateLength))
  }

  /** One table-of-contents entry per user turn. */
  function Toc(turns: seq<Turn>, fmt: Json -> string, truncateLength: int): seq<TocEntry> {
    if turns == [] then []
    else
      var t := turns[|turns| - 1];
      Toc(turns[..|turns| - 1], fmt, truncateLength)
      + (if IsUser(t) then [TocEntryOf(t, fmt, truncateLength)] else [])
  }

  /** The Markdown block of one turn: user turns carry an anchor and "You",
      assistant turns "Assistant", others their capitalised role. */
  function Block(t: Turn): string {
    if IsUser(t) then AnchorTag(MdAnchor(TocText(t.text), 80)) + ("\n**You:**\n" + t.text + "\n")
    else if t.role == Str("assistant") then "**Assistant:**\n" + t.text + "\n"
    else "**" + Capitalize(PyStr(t.role)) + ":**\n" + t.text + "\n"
  }

  function Blocks(turns: seq<Turn>): (r: seq<string>)
    ensures |r| == |turns|
    ensures forall k :: 0 <= k < |r| ==> r[k] == Block(turns[k])
  {
    seq(|turns|, k requires 0 <= k < |turns| => Block(turns[k]))
  }

  /** `conv.get("title") or conv.get("name") or "Untitled"` */
  function Title(conv: Json): Json {
    Or(Or(conv.GetOr("title", Null), conv.GetOr("name", Null)), Str("Untitled"))
  }

  /** `conv.get("create_time") or conv.get("created") or ""` */
  function Created(conv: Json): Json {
    Or(Or(conv.GetOr("create_time", Null), conv.GetOr("created", Null)), Str(""))
  }

  /** One `**key**: value` line of a bookmark; a list value is joined with ", ". */
  function BookmarkLine(key: string, value: Json): string
    requires StringList(value)
  {
    var shown := if value.Arr? then Join(", ", seq(|value.items|, k requires 0 <= k < |value.items| => value.items[k].s))
                 else PyStr(value);
    "**" + key + "**: " + shown + "\n\n"
  }

  predicate StringList(v: Json) {
    v.Arr? ==> forall k :: 0 <= k < |v.items| ==> v.items[k].Str?
  }

  /** The bookmark dict, in its key order. */
  function BookmarkFields(title: Json, created: Json, url: Json, tags: Json, keywords: Json): seq<(string, Json)> {
    [("title", title), ("url", url), ("tags", tags), ("keywords", keywords), ("created", created)]
  }

  function Bookmark(fields: seq<(string, Json)>): string
    requires forall k :: 0 <= k < |fields| ==> StringList(fields[k].1)
  {
    if fields == [] then []
    else
      var f := fields[|fields| - 1];
      Bookmark(fields[..|fields| - 1]) + BookmarkLine(f.0, f.1)
  }

  /** `make_bookmark(...)`; absent tags and keywords are `None`. */
  method MakeBookmark(title: Json, created: Json, url: Json, tags: Json, keywords: Json) returns (bkm: string)
    requires StringList(title) && StringList(created) && StringList(url) && StringList(tags) && StringList(keywords)
    ensures bkm == Bookmark(BookmarkFields(title, created, url, tags, keywords))
  {
    var bookmark := BookmarkFields(title, created, url, tags, keywords);
    bkm := "";
    for i := 0 to |bookmark|
      invariant bkm == Bookmark(bookmark[..i])
    {
      BookmarkSnoc(bookmark, i);
      var (key, value) := bookmark[i];
      var line;
      if value.Arr? {
        var names := seq(|value.items|, k requires 0 <= k < |value.items| => value.items[k].s);
        line := "**" + key + "**: " + Join(", ", names) + "\n\n";
      } else {
        line := "**" + key + "**: " + PyStr(value) + "\n\n";
      }
      assert line == BookmarkLine(key, value);
      bkm := bkm + line;
    }
    assert bookmark[..|bookmark|] == bookmark;
  }

  lemma BookmarkSnoc(fields: seq<(string, Json)>, i: nat)
    requires i < |fields| && forall k :: 0 <= k < |fields| ==> StringList(fields[k].1)
    ensures Bookmark(fields[..i + 1]) == Bookmark(fields[..i]) + BookmarkLine(fields[i].0, fields[i].1)
  {
    assert fields[..i + 1][..i] == fields[..i];
  }

  /** The bookmark `conversation_to_md` writes under the title. */
  function ConvBookmark(conv: Json, anchor: string, fmt: Json -> string): string
    requires StringList(Title(conv))
  {
    Bookmark(BookmarkFields(Title(conv), Str(fmt(Created(conv))), Str("#" + anchor),
                            Arr([Str("to be implemented"), Str("another-tag")]),
                            Arr([Str("keyword1"), Str("keyword2")])))
  }

  /** The document: an optional anchor, the title heading, the bookmark, the
      TOC heading and the blocks, joined by newlines, stripped, and ended
      with one newline. */
  function Document(conv: Json, anchor: string, blocks: seq<string>, fmt: Json -> string): string
    requires StringList(Title(conv))
  {
    var body := ["# " + PyStr(Title(conv)) + "\n"] + ([ConvBookmark(conv, anchor, fmt)] + (["## Conversation TOC"] + blocks));
    var lines := if anchor != "" then [AnchorTag(anchor) + "\n"] + body else body;
    Strip(Join("\n", lines)) + "\n"
  }

  function AnchorTag(id: string): string {
    "<a id=\"" + id + "\"></a>"
  }

  lemma TurnsSnoc(msgs: seq<Json>, i: nat, skip: bool, loads: Parser)
    requires i < |msgs| && AllOk(msgs, skip, loads)
    ensures AllOk(msgs[..i], skip, loads) && AllOk(msgs[..i + 1], skip, loads)
    ensures MessageOk(msgs[i], skip, loads)
    ensures var t := TurnOf(msgs[i], skip, loads);
      Turns(msgs[..i + 1], skip, loads) == Turns(msgs[..i], skip, loads) + (if t.Some? then [t.value] else [])
  {
    assert msgs[..i + 1][..i] == msgs[..i];
  }

  lemma TocSnoc(turns: seq<Turn>, t: Turn, fmt: Json -> string, n: int)
    ensures Toc(turns + [t], fmt, n) == Toc(turns, fmt, n) + (if IsUser(t) then [TocEntryOf(t, fmt, n)] else [])
  {
    assert (turns + [t])[..|turns|] == turns;
  }

  lemma UserCountSnoc(turns: seq<Turn>, t: Turn)
    ensures UserCount(turns + [t]) == UserCount(turns) + (if IsUser(t) then 1 else 0)
  {
    assert (turns + [t])[..|turns|] == turns;
  }

  lemma BlocksSnoc(turns: seq<Turn>, t: Turn)
    ensures Blocks(turns + [t]) == Blocks(turns) + [Block(t)]
  {
  }

  /** What one more message adds to the count. */
  lemma CountStep(msgs: seq<Json>, i: nat, skip: bool, loads: Parser, kept: bool, role: Json, text: string)
    requires i < |msgs| && AllOk(msgs, skip, loads)
    requires kept <==> TurnOf(msgs[i], skip, loads).Some?
    requires kept ==> TurnOf(msgs[i], skip, loads) == Some(Turn(msgs[i], role, text))
    ensures AllOk(msgs[..i], skip, loads) && AllOk(msgs[..i + 1], skip, loads)
    ensures UserCount(Turns(msgs[..i + 1], skip, loads))
            == UserCount(Turns(msgs[..i], skip, loads)) + (if kept && role == Str("user") then 1 else 0)
  {
    TurnsSnoc(msgs, i, skip, loads);
    if kept {
      UserCountSnoc(Turns(msgs[..i], skip, loads), Turn(msgs[i], role, text));
    } else {
      assert Turns(msgs[..i + 1], skip, loads) == Turns(msgs[..i], skip, loads);
    }
  }

  /** What one more message adds to the table of contents and the blocks. */
  lemma DocStep(msgs: seq<Json>, i: nat, skip: bool, loads: Parser, kept: bool, role: Json, text: string,
                fmt: Json -> string, n: int)
    requires i < |msgs| && AllOk(msgs, skip, loads)
    requires kept <==> TurnOf(msgs[i], skip, loads).Some?
    requires kept ==> TurnOf(msgs[i], skip, loads) == Some(Turn(msgs[i], role, text))
    ensures AllOk(msgs[..i], skip, loads) && AllOk(msgs[..i + 1], skip, loads)
    ensures Toc(Turns(msgs[..i + 1], skip, loads), fmt, n)
            == Toc(Turns(msgs[..i], skip, loads), fmt, n)
               + (if kept && role == Str("user") then [TocEntryOf(Turn(msgs[i], role, text), fmt, n)] else [])
    ensures Blocks(Turns(msgs[..i + 1], skip, loads))
            == Blocks(Turns(msgs[..i], skip, loads)) + (if kept then [Block(Turn(Null, role, text))] else [])
  {
    TurnsSnoc(msgs, i, skip, loads);
    var t := Turn(msgs[i], role, text);
    if kept {
      TocSnoc(Turns(msgs[..i], skip, loads), t, fmt, n);
      BlocksSnoc(Turns(msgs[..i], skip, loads), t);
      BlockIgnoresMessage(msgs[i], role, text);
    } else {
      assert Turns(msgs[..i + 1], skip, loads) == Turns(msgs[..i], skip, loads);
    }
  }

  /** One message through the shared body of both walkers: whether it is
      kept, with its role and rendered text. */
  method RenderMessage(msg: Json, skipSystem: bool, loads: Parser) returns (kept: bool, role: Json, text: string)
    requires MessageOk(msg, skipSystem, loads)
    ensures kept <==> TurnOf(msg, skipSystem, loads).Some?
    ensures kept ==> TurnOf(msg, skipSystem, loads) == Some(Turn(msg, role, text))
  {
    role := Role(msg);
    text := "";
    kept := false;
    if !(skipSystem && (SystemRole(role) || Hidden(msg))) {
      var parts := PartsOf(msg);
      text := Join("\n\n", RenderParts(parts, loads));
      kept := !IsBlank(text);
    }
  }

  /** The table-of-contents entry a kept turn adds: one for a user turn,
      none otherwise. */
  method TocEntries(msg: Json, role: Json, text: string, fmt: Json -> string, truncateLength: int)
    returns (entries: seq<TocEntry>)
    ensures entries == if role == Str("user") then [TocEntryOf(Turn(msg, role, text), fmt, truncateLength)] else []
  {
    entries := [];
    if role == Str("user") {
      var msgText := Strip(ReplaceChar(text, '\n', ' '));
      var msgCreated := fmt(msg.GetOr("create_time", Str("")));
      entries := [TocEntry(msgText, msgCreated, MdAnchor(msgText, truncateLength))];
    }
  }

  /** The block of a kept turn, as `conversation_to_md` writes it. */
  method TurnBlock(role: Json, text: string) returns (line: string)
    ensures line == Block(Turn(Null, role, text))
  {
    if role == Str("user") {
      var msgText := Strip(ReplaceChar(text, '\n', ' '));
      line := AnchorTag(MdAnchor(msgText, 80)) + ("\n**You:**\n" + text + "\n");
    } else if role == Str("assistant") {
      line := "**Assistant:**\n" + text + "\n";
    } else {
      line := "**" + Capitalize(PyStr(role)) + ":**\n" + text + "\n";
    }
  }

  lemma BlockIgnoresMessage(msg: Json, role: Json, text: string)
    ensures Block(Turn(msg, role, text)) == Block(Turn(Null, role, text))
  {
  }

  /** The head of the document and the final join. */
  method Assemble(conv: Json, anchor: string, blocks: seq<string>, fmt: Json -> string) returns (content: string)
    requires StringList(Title(conv))
    ensures content == Document(conv, anchor, blocks, fmt)
  {
    var title := Title(conv);
    var created := Created(conv);
    var lines := ["## Conversation TOC"] + blocks;
    var bkm := MakeBookmark(title, Str(fmt(created)), Str("#" + anchor),
                            Arr([Str("to be implemented"), Str("another-tag")]),
                            Arr([Str("keyword1"), Str("keyword2")]));
    lines := [bkm] + lines;
    lines := ["# " + PyStr(title) + "\n"] + lines;
    if anchor != "" {
      lines := [AnchorTag(anchor) + "\n"] + lines;
    }
    content := Strip(Join("\n", lines)) + "\n";
  }

  /** One iteration of `conversation_to_md`'s loop: render the message and
      extend the table of contents and the blocks by its turn. */
  method MdStep(msgs: seq<Json>, i: nat, skipSystem: bool, loads: Parser, fmt: Json -> string,
                truncateLength: int, toc0: seq<TocEntry>, lines0: seq<string>)
    returns (toc: seq<TocEntry>, lines: seq<string>)
    requires i < |msgs| && AllOk(msgs, skipSystem, loads)
    requires AllOk(msgs[..i], skipSystem, loads)
    requires toc0 == Toc(Turns(msgs[..i], skipSystem, loads), fmt, truncateLength)
    requires lines0 == Blocks(Turns(msgs[..i], skipSystem, loads))
    ensures AllOk(msgs[..i + 1], skipSystem, loads)
    ensures toc == Toc(Turns(msgs[..i + 1], skipSystem, loads), fmt, truncateLength)
    ensures lines == Blocks(Turns(msgs[..i + 1], skipSystem, loads))
  {
    var msg := msgs[i];
    toc, lines := toc0, lines0;
    var kept, role, text := RenderMessage(msg, skipSystem, loads);
    DocStep(msgs, i, skipSystem, loads, kept, role, text, fmt, truncateLength);
    if kept {
      var entries := TocEntries(msg, role, text, fmt, truncateLength);
      toc := toc + entries;
      var line := TurnBlock(role, text);
      lines := lines + [line];
    }
  }

  /** `conversation_to_md(conv, anchor, skip_system, truncate_length)`: the
      table of contents of the user turns and the Markdown document. */
  method ConversationToMd(conv: Json, anchor: string, skipSystem: bool, truncateLength: int,
                          loads: Parser, fmt: Json -> string)
    returns (toc: seq<TocEntry>, content: string)
    requires Convertible(conv, skipSystem, loads) && StringList(Title(conv))
    ensures toc == Toc(Turns(MessagesOf(conv), skipSystem, loads), fmt, truncateLength)
    ensures content == Document(conv, anchor, Blocks(Turns(MessagesOf(conv), skipSystem, loads)), fmt)
  {
    var msgs := MessagesIter(conv);
    toc := [];
    var lines: seq<string> := [];
    for i := 0 to |msgs|
      invariant AllOk(msgs[..i], skipSystem, loads)
      invariant toc == Toc(Turns(msgs[..i], skipSystem, loads), fmt, truncateLength)
      invariant lines == Blocks(Turns(msgs[..i], skipSystem, loads))
    {
      toc, lines := MdStep(msgs, i, skipSystem, loads, fmt, truncateLength, toc, lines);
    }
    TakeWhole(msgs);
    content := Assemble(conv, anchor, lines, fmt);
  }

  /** One iteration of `thread_msg_count`'s loop: render the message and
      count it when it is a kept user turn. */
  method CountMessage(msgs: seq<Json>, i: nat, skipSystem: bool, loads: Parser, count0: nat)
    returns (count: nat)
    requires i < |msgs| && AllOk(msgs, skipSystem, loads)
    requires AllOk(msgs[..i], skipSystem, loads)
    requires count0 == UserCount(Turns(msgs[..i], skipSystem, loads))
    ensures AllOk(msgs[..i + 1], skipSystem, loads)
    ensures count == UserCount(Turns(msgs[..i + 1], skipSystem, loads))
  {
    var kept, role, text := RenderMessage(msgs[i], skipSystem, loads);
    CountStep(msgs, i, skipSystem, loads, kept, role, text);
    count := if kept && role == Str("user") then count0 + 1 else count0;
  }

  /** `thread_msg_count(conv, anchor, skip_system)`: the user turns that
      `conversation_to_md` would keep. */
  method ThreadMsgCount(conv: Json, anchor: string, skipSystem: bool, loads: Parser) returns (count: nat)
    requires Convertible(conv, skipSystem, loads)
    ensures count == UserCount(Turns(MessagesOf(conv), skipSystem, loads))
  {
    var msgs := MessagesIter(conv);
    count := 0;
    for i := 0 to |msgs|
      invariant AllOk(msgs[..i], skipSystem, loads)
      invariant count == UserCount(Turns(msgs[..i], skipSystem, loads))
    {
      count := CountMessage(msgs, i, skipSystem, loads, count);
    }
    TakeWhole(msgs);
  }

  /** The table of contents has one entry per user turn, so it is as long as
      the count `thread_msg_count` returns for the same arguments. */
  lemma {:induction false} TocMatchesCount(turns: seq<Turn>, fmt: Json -> string, n: int)
    ensures |Toc(turns, fmt, n)| == UserCount(turns)
  {
    if turns != [] {
      TocMatchesCount(turns[..|turns| - 1], fmt, n);
    }
  }

  /** A kept turn: non-blank text, the role of its message, and with
      skipping on neither a system, error-reporting or tool role nor hidden. */
  predicate KeptTurn(t: Turn, skip: bool) {
    !IsBlank(t.text) && t.role == Role(t.msg) && (skip ==> !SystemRole(t.role) && !Hidden(t.msg))
  }

  lemma TurnOfKept(msg: Json, skip: bool, loads: Parser)
    requires MessageOk(msg, skip, loads)
    ensures TurnOf(msg, skip, loads).Some? ==>
      TurnOf(msg, skip, loads).value.msg == msg && KeptTurn(TurnOf(msg, skip, loads).value, skip)
  {
  }

  /** Every kept turn has non-blank text, and with skipping on no kept turn
      is a system, error-reporting, tool or hidden message. */
  function Kept(t: Option<Turn>): seq<Turn> {
    if t.Some? then [t.value] else []
  }

  lemma KeptSnoc(a: seq<Turn>, t: Option<Turn>, skip: bool)
    requires forall k :: 0 <= k < |a| ==> KeptTurn(a[k], skip)
    requires t.Some? ==> KeptTurn(t.value, skip)
    ensures forall k :: 0 <= k < |a + Kept(t)| ==> KeptTurn((a + Kept(t))[k], skip)
  {
    forall k | 0 <= k < |a + Kept(t)|
      ensures KeptTurn((a + Kept(t))[k], skip)
    {
      if k < |a| {
        assert (a + Kept(t))[k] == a[k];
      }
    }
  }

  lemma FromSnoc(a: seq<Turn>, t: Option<Turn>, msgs: seq<Json>)
    requires msgs != []
    requires forall k :: 0 <= k < |a| ==> a[k].msg in msgs[..|msgs| - 1]
    requires t.Some? ==> t.value.msg == msgs[|msgs| - 1]
    ensures forall k :: 0 <= k < |a + Kept(t)| ==> (a + Kept(t))[k].msg in msgs
  {
    var init := msgs[..|msgs| - 1];
    forall k | 0 <= k < |a + Kept(t)|
      ensures (a + Kept(t))[k].msg in msgs
    {
      if k < |a| {
        assert (a + Kept(t))[k] == a[k];
        var j :| 0 <= j < |init| && init[j] == a[k].msg;
        assert msgs[j] == init[j];
      }
    }
  }

  lemma TurnsLast(msgs: seq<Json>, skip: bool, loads: Parser)
    requires msgs != [] && AllOk(msgs, skip, loads)
    ensures AllOk(msgs[..|msgs| - 1], skip, loads) && MessageOk(msgs[|msgs| - 1], skip, loads)
    ensures Turns(msgs, skip, loads) == Turns(msgs[..|msgs| - 1], skip, loads) + Kept(TurnOf(msgs[|msgs| - 1], skip, loads))
  {
  }

  lemma {:induction false} TurnsFiltered(msgs: seq<Json>, skip: bool, loads: Parser)
    requires AllOk(msgs, skip, loads)
    ensures forall k :: 0 <= k < |Turns(msgs, skip, loads)| ==> KeptTurn(Turns(msgs, skip, loads)[k], skip)
  {
    if msgs != [] {
      var i := |msgs| - 1;
      TurnsLast(msgs, skip, loads);
      TurnsFiltered(msgs[..i], skip, loads);
      TurnOfKept(msgs[i], skip, loads);
      KeptSnoc(Turns(msgs[..i], skip, loads), TurnOf(msgs[i], skip, loads), skip);
    }
  }

  /** Every kept turn is one of the messages. */
  lemma {:induction false} TurnsFromMessages(msgs: seq<Json>, skip: bool, loads: Parser)
    requires AllOk(msgs, skip, loads)
    ensures forall k :: 0 <= k < |Turns(msgs, skip, loads)| ==> Turns(msgs, skip, loads)[k].msg in msgs
  {
    if msgs != [] {
      var i := |msgs| - 1;
      TurnsLast(msgs, skip, loads);
      TurnsFromMessages(msgs[..i], skip, loads);
      TurnOfKept(msgs[i], skip, loads);
      FromSnoc(Turns(msgs[..i], skip, loads), TurnOf(msgs[i], skip, loads), msgs);
    }
  }

  /** A message kept with skipping on is kept, unchanged, with it off. */
  lemma SkipOffKeeps(msg: Json, loads: Parser)
    requires MessageOk(msg, false, loads)
    ensures MessageOk(msg, true, loads)
    ensures TurnOf(msg, true, loads).Some? ==> TurnOf(msg, false, loads) == TurnOf(msg, true, loads)
  {
  }

  /** Turning skipping off keeps every turn that was kept with it on (and
      possibly more), so it never lowers the count. */
  lemma {:induction false} SkipNeverAddsTurns(msgs: seq<Json>, loads: Parser)
    requires AllOk(msgs, false, loads)
    ensures AllOk(msgs, true, loads)
    ensures UserCount(Turns(msgs, true, loads)) <= UserCount(Turns(msgs, false, loads))
  {
    if msgs != [] {
      var i := |msgs| - 1;
      SkipOffKeeps(msgs[i], loads);
      assert AllOk(msgs, true, loads);
      CountLast(msgs, false, loads);
      CountLast(msgs, true, loads);
      SkipNeverAddsTurns(msgs[..i], loads);
    }
  }

  lemma CountLast(msgs: seq<Json>, skip: bool, loads: Parser)
    requires msgs != [] && AllOk(msgs, skip, loads)
    ensures AllOk(msgs[..|msgs| - 1], skip, loads)
    ensures var t := TurnOf(msgs[|msgs| - 1], skip, loads);
      UserCount(Turns(msgs, skip, loads))
      == UserCount(Turns(msgs[..|msgs| - 1], skip, loads)) + (if t.Some? && IsUser(t.value) then 1 else 0)
  {
    var i := |msgs| - 1;
    TurnsSnoc(msgs, i, skip, loads);
    assert msgs[..i + 1] == msgs;
    var t := TurnOf(msgs[i], skip, loads);
    if t.Some? {
      UserCountSnoc(Turns(msgs[..i], skip, loads), t.value);
    } else {
      assert Turns(msgs, skip, loads) == Turns(msgs[..i], skip, loads);
    }
  }

  /** The link of a user turn's TOC entry is the anchor its block opens
      with, whatever truncation length was asked for. */
  lemma TocLinkResolves(t: Turn, fmt: Json -> string, n: int)
    requires IsUser(t)
    ensures StartsWith(Block(t), "<a id=\"" + TocEntryOf(t, fmt, n).link + "\"></a>")
  {
    var line := TocText(t.text);
    MdAnchorIgnoresLength(line, n, 80);
    StartsWithConcat(AnchorTag(MdAnchor(line, 80)), "\n**You:**\n" + t.text + "\n");
  }

  lemma StartsWithConcat(p: string, rest: string)
    ensures StartsWith(p + rest, p)
  {
    assert (p + rest)[..|p|] == p;
  }
}
