/** The text of a message's last meaningful part (`extract_text`, written
    identically in suggestions.py and json_openai.py) and the line-level
    matching both `extract_suggestion` variants build on. */
module LastText {
  import opened Text
  import opened Options
  import opened JsonValue

  /** The message a node stands for: the dict under "message" of a wrapper,
      or the dict itself. */
  function Unwrap(node: Json): (msg: Json)
    requires node.Obj?
    ensures msg.Obj?
  {
    var m := node.Get("message");
    if m.Some? && m.value.Obj? then m.value else node
  }

  /** Where the parts live: the content dict's `parts`, else (when that is
      falsy) the message's own `parts`. */
  function PartsValue(msg: Json): Json {
    var content := msg.GetOr("content", Null);
    var parts := if content.Obj? then content.GetOr("parts", Null) else Null;
    if parts.Truthy() then parts else msg.GetOr("parts", Null)
  }

  /** The first of `keys` whose value is a non-blank string, or a non-empty
      list ending in a non-blank string; that string, stripped. */
  function KeyText(part: Json, keys: seq<string>): (r: Option<string>)
    ensures r.Some? ==> r.value != []
  {
    if keys == [] then None
    else
      var v := part.Get(keys[0]);
      if v.Some? && v.value.Str? && !IsBlank(v.value.s) then Some(Strip(v.value.s))
      else if v.Some? && v.value.Arr? && v.value.items != []
              && v.value.items[|v.value.items| - 1].Str? && !IsBlank(v.value.items[|v.value.items| - 1].s)
      then Some(Strip(v.value.items[|v.value.items| - 1].s))
      else KeyText(part, keys[1..])
  }

  /** The last non-blank string of a list, stripped. */
  function LastString(items: seq<Json>): (r: Option<string>)
    ensures r.Some? ==> r.value != []
  {
    if items == [] then None
    else
      var p := items[|items| - 1];
      if p.Str? && !IsBlank(p.s) then Some(Strip(p.s)) else LastString(items[..|items| - 1])
  }

  const TextKeys: seq<string> := ["text", "content", "replacement", "message"]

  /** The text of a dict part: a text-like key, else the last non-blank
      string of its nested `parts`, else the part as compact JSON. */
  function DictText(part: Json): (r: string)
    requires part.Obj?
    ensures r != []
  {
    var byKey := KeyText(part, TextKeys);
    if byKey.Some? then byKey.value
    else
      var nested := part.GetOr("parts", Null);
      var inner := if nested.Arr? then LastString(nested.items) else None;
      if inner.Some? then inner.value else Dumps(part, None)
  }

  /** The reverse scan: the last part that is neither `None` nor a blank
      string decides the text. */
  function ScanParts(parts: seq<Json>): string {
    if parts == [] then ""
    else
      var p := parts[|parts| - 1];
      if p.Null? then ScanParts(parts[..|parts| - 1])
      else if p.Str? then (if !IsBlank(p.s) then Strip(p.s) else ScanParts(parts[..|parts| - 1]))
      else if p.Obj? then DictText(p)
      else Strip(PyStr(p))
  }

  /** `extract_text(node)` */
  function ExtractText(node: Json): string {
    if node.Null? then ""
    else if !node.Obj? then Strip(PyStr(node))
    else
      var parts := PartsValue(Unwrap(node));
      if !parts.Truthy() then ""
      else if parts.Str? then Strip(parts.s)
      else if !parts.Arr? then ""
      else ScanParts(parts.items)
  }

  /** `None` has no text. */
  lemma ExtractTextNone()
    ensures ExtractText(Null) == ""
  {
  }

  /** A wrapper reads as the message it wraps (unless that message is itself
      a wrapper). */
  lemma ExtractTextUnwraps(node: Json, msg: Json)
    requires node.Obj? && node.Get("message") == Some(msg) && msg.Obj?
    requires !(msg.Get("message").Some? && msg.Get("message").value.Obj?)
    ensures ExtractText(node) == ExtractText(msg)
  {
  }

  /** Missing or null content with no parts on the message, or an empty
      parts list, gives no text. */
  lemma ExtractTextNoParts(msg: Json)
    requires msg.Obj? && !(msg.Get("message").Some? && msg.Get("message").value.Obj?)
    requires !msg.GetOr("content", Null).Obj? || !msg.GetOr("content", Null).GetOr("parts", Null).Truthy()
    requires !msg.GetOr("parts", Null).Truthy()
    ensures ExtractText(msg) == ""
  {
  }

  /** A `parts` value that is a string (not a list) is returned stripped. */
  lemma ExtractTextStringParts(msg: Json, s: string)
    requires msg.Obj? && !(msg.Get("message").Some? && msg.Get("message").value.Obj?)
    requires PartsValue(msg) == Str(s) && s != []
    ensures ExtractText(msg) == Strip(s)
  {
  }

  /** A part the reverse scan passes over. */
  predicate Skipped(p: Json) {
    p.Null? || (p.Str? && IsBlank(p.s))
  }

  lemma ScanSkips(parts: seq<Json>)
    requires parts != [] && Skipped(parts[|parts| - 1])
    ensures ScanParts(parts) == ScanParts(parts[..|parts| - 1])
  {
  }

  lemma ScanStops(parts: seq<Json>)
    requires parts != [] && parts[|parts| - 1].Str? && !IsBlank(parts[|parts| - 1].s)
    ensures ScanParts(parts) == Strip(parts[|parts| - 1].s)
  {
  }

  /** Over `None` and string parts the scan returns the last non-blank
      string, stripped (at index `k`), or "" when there is none (`k == -1`). */
  lemma {:induction false} ScanStrings(parts: seq<Json>) returns (k: int)
    requires forall j :: 0 <= j < |parts| ==> parts[j].Null? || parts[j].Str?
    ensures -1 <= k < |parts|
    ensures k == -1 ==> ScanParts(parts) == "" && forall j :: 0 <= j < |parts| ==> Skipped(parts[j])
    ensures k >= 0 ==> parts[k].Str? && !IsBlank(parts[k].s) && ScanParts(parts) == Strip(parts[k].s)
    ensures forall j :: k < j < |parts| ==> Skipped(parts[j])
  {
    if parts == [] {
      return -1;
    }
    var init := parts[..|parts| - 1];
    var p := parts[|parts| - 1];
    if p.Str? && !IsBlank(p.s) {
      ScanStops(parts);
      return |parts| - 1;
    }
    ScanSkips(parts);
    k := ScanStrings(init);
    assert Skipped(parts[|parts| - 1]);
    forall j | k < j < |parts|
      ensures Skipped(parts[j])
    {
      if j < |init| {
        assert parts[j] == init[j];
      }
    }
  }

  /** A dict part reached by the scan ends it with a non-empty text. */
  lemma {:induction false} ScanReachesDict(parts: seq<Json>, k: nat)
    requires k < |parts| && parts[k].Obj?
    requires forall j :: k < j < |parts| ==> Skipped(parts[j])
    ensures ScanParts(parts) == DictText(parts[k]) && ScanParts(parts) != ""
    decreases |parts|
  {
    if k < |parts| - 1 {
      ScanReachesDict(parts[..|parts| - 1], k);
    }
  }

  /** A node that is neither `None` nor a dict reads as its `str()`, stripped. */
  lemma ExtractTextNonDict(node: Json)
    requires !node.Null? && !node.Obj?
    ensures ExtractText(node) == Strip(PyStr(node))
  {
  }

  /** A parts list of `None` and strings yields its last non-blank string,
      stripped, or "" when there is none. */
  lemma ExtractTextLastString(msg: Json, items: seq<Json>) returns (k: int)
    requires msg.Obj? && PartsValue(Unwrap(msg)) == Arr(items)
    requires forall j :: 0 <= j < |items| ==> items[j].Null? || items[j].Str?
    ensures -1 <= k < |items|
    ensures k == -1 ==> ExtractText(msg) == "" && forall j :: 0 <= j < |items| ==> Skipped(items[j])
    ensures k >= 0 ==> items[k].Str? && !IsBlank(items[k].s) && ExtractText(msg) == Strip(items[k].s)
    ensures forall j :: k < j < |items| ==> Skipped(items[j])
  {
    k := ScanStrings(items);
  }

  /** When the scan reaches a dict part, that part's text is the result and
      is never empty. */
  lemma ExtractTextDictPart(msg: Json, items: seq<Json>, k: nat)
    requires msg.Obj? && PartsValue(Unwrap(msg)) == Arr(items)
    requires k < |items| && items[k].Obj?
    requires forall j :: k < j < |items| ==> Skipped(items[j])
    ensures ExtractText(msg) == DictText(items[k]) && ExtractText(msg) != ""
  {
    ScanReachesDict(items, k);
  }

  /** `[ln.strip() for ln in text.splitlines() if ln.strip()]` */
  function NonBlankLines(lines: seq<string>): (r: seq<string>)
    ensures forall k :: 0 <= k < |r| ==> r[k] != []
  {
    if lines == [] then []
    else
      var s := Strip(lines[|lines| - 1]);
      NonBlankLines(lines[..|lines| - 1]) + (if s != [] then [s] else [])
  }

  /** The last non-blank line of the text, stripped. */
  function LastLine(text: string): (r: Option<string>)
    ensures r.Some? ==> r.value != []
  {
    var lines := NonBlankLines(SplitLines(text));
    if lines == [] then None else Some(lines[|lines| - 1])
  }

  /** `\b` before position `i` of a line, where the next character is a
      word character. */
  predicate BoundaryBefore(s: string, i: nat)
    requires i <= |s|
  {
    i == 0 || !IsWordChar(s[i - 1])
  }

  /** `\b` after a word character ending at `e`. */
  predicate BoundaryAfter(s: string, e: nat)
    requires e <= |s|
  {
    e == |s| || !IsWordChar(s[e])
  }

  /** The phrase occurs in the line at `i`, ignoring case, as whole words. */
  predicate PhraseAt(line: string, phrase: string, i: nat) {
    var low := Lower(line);
    OccursAt(low, phrase, i) && BoundaryBefore(low, i) && BoundaryAfter(low, i + |phrase|)
  }

  /** `SUGGESTION_RE.search(line)` for a line without line breaks: one of the
      phrases as whole words, anywhere, and the line ends with '?'. */
  predicate QuestionMatch(line: string, phrases: seq<string>) {
    line != [] && line[|line| - 1] == '?'
    && exists p, i :: 0 <= p < |phrases| && 0 <= i <= |line| && PhraseAt(line, phrases[p], i)
  }

  /** `any(k in line.lower() for k in phrases)` */
  predicate MentionsPhrase(line: string, phrases: seq<string>) {
    exists p :: 0 <= p < |phrases| && Contains(Lower(line), phrases[p])
  }

  /** A whole-word match is in particular a substring match. */
  lemma QuestionMatchMentions(line: string, phrases: seq<string>)
    requires QuestionMatch(line, phrases)
    ensures MentionsPhrase(line, phrases)
  {
    var p, i :| 0 <= p < |phrases| && 0 <= i <= |line| && PhraseAt(line, phrases[p], i);
    assert 0 <= i <= |Lower(line)| - |phrases[p]| && OccursAt(Lower(line), phrases[p], i);
  }
}
