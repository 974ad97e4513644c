/** Rendering one message part as Markdown (`stringify_part`) and collecting
    the strings inside a nested value (`extract_strings`), both in utils.py. */
module Parts {
  import opened Text
  import opened Options
  import opened JsonValue
  import opened InlineJson

  /** The default `collapse_threshold`. */
  const DefaultCollapse: int := 40

  /** `part.get("type") or part.get("content_type", "")` */
  function PartType(part: Json): Json {
    Or(part.GetOr("type", Null), part.GetOr("content_type", Str("")))
  }

  /** `part.get("content") or part.get("text") or ""` */
  function PartContent(part: Json): Json {
    Or(Or(part.GetOr("content", Null), part.GetOr("text", Null)), Str(""))
  }

  /** `part.get("image_url") or part.get("url")` */
  function PartUrl(part: Json): Json {
    Or(part.GetOr("image_url", Null), part.GetOr("url", Null))
  }

  predicate IsCodeType(t: Json) {
    t.Truthy() && t.Str? && StartsWith(t.s, "code/")
  }

  /** `key in part and isinstance(part[key], list)` */
  predicate HasListField(part: Json, key: string) {
    part.Get(key).Some? && part.Get(key).value.Arr?
  }

  /** The part shapes `stringify_part` renders without raising: a truthy
      `type` is a string, the code and inline-JSON branches find a string
      `content`, every `updates` entry is a dict, and nested parts (and a
      dict parsed out of a string) are renderable in turn. */
  predicate Renderable(part: Json, loads: Parser)
    decreases Weight(part), 1
  {
    match part
    case Obj(_) => DictRenderable(part, loads)
    case Str(s) => StringRenderable(s, loads)
    case _ => true
  }

  predicate DictRenderable(part: Json, loads: Parser)
    requires part.Obj?
    decreases Weight(part), 0
  {
    var t := PartType(part);
    var content := PartContent(part);
    (t.Truthy() ==> t.Str?)
    && if IsCodeType(t) then content.Str?
       else if PartUrl(part).Truthy() then true
       else if HasListField(part, "updates") then
         var updates := ListField(part, "updates");
         forall k :: 0 <= k < |updates| ==> updates[k].Obj?
       else if HasListField(part, "parts") then
         var items := ListField(part, "parts");
         forall k :: 0 <= k < |items| ==> Renderable(items[k], loads)
       else content.Truthy() ==> content.Str?
  }

  predicate StringRenderable(s: string, loads: Parser)
    decreases Weight(Str(s)), 0
  {
    ParsedLighter(s, loads);
    var t := Strip(s);
    var obj := Parse(loads, t);
    LooksLikeJson(t) && obj.Some? && obj.value.Obj? ==> Renderable(obj.value, loads)
  }

  /** A value parsed out of a stripped string weighs less than the string. */
  lemma ParsedLighter(s: string, loads: Parser)
    ensures Parse(loads, Strip(s)).Some? ==> Weight(Parse(loads, Strip(s)).value) < Weight(Str(s))
  {
  }

  /** The language of a `code/...` type: what follows the first '/', or "text". */
  function CodeLang(t: string): (lang: string)
    requires StartsWith(t, "code/")
    ensures lang != []
    ensures lang == t[5..] || (t[5..] == [] && lang == "text")
  {
    if t[5..] == [] then "text" else t[5..]
  }

  /** A fenced code block. */
  function Fenced(lang: string, code: string): string {
    "```" + lang + "\n" + code + "\n```"
  }

  /** The code can be read back out of its fence. */
  lemma FencedRoundTrip(lang: string, code: string)
    ensures var f := Fenced(lang, code);
      |f| == |lang| + |code| + 8
      && f[..3] == "```" && f[3..3 + |lang|] == lang && f[3 + |lang|] == '\n'
      && f[4 + |lang|..|f| - 4] == code && f[|f| - 4..] == "\n```"
  {
  }

  /** A fenced block folded into a `<details>` element. */
  function Collapsed(lang: string, lines: nat, fenced: string): string {
    "<details><summary>Show " + lang + " code (" + NatToString(lines) + " lines)</summary>\n\n"
    + fenced + "\n\n</details>"
  }

  /** The code branch: the stripped code fenced in its language, collapsed
      when it has more lines than the threshold. */
  function CodeBlock(t: string, content: string, threshold: int): string
    requires StartsWith(t, "code/")
  {
    var lang := CodeLang(t);
    var code := Strip(content);
    var n := |SplitLines(code)|;
    if n > threshold then Collapsed(lang, n, Fenced(lang, code)) else Fenced(lang, code)
  }

  /** The `updates` branch: one block per entry with a truthy replacement. */
  function UpdateBlocks(updates: seq<Json>): seq<string>
    requires forall k :: 0 <= k < |updates| ==> updates[k].Obj?
  {
    if updates == [] then []
    else
      var upd := updates[|updates| - 1];
      var rep := upd.GetOr("replacement", Null);
      var pattern := upd.GetOr("pattern", Str("N/A"));
      UpdateBlocks(updates[..|updates| - 1])
      + (if rep.Truthy()
         then ["**Updated Pattern:** `" + PyStr(pattern) + "`\n\n```text\n" + PyStr(rep) + "\n```"]
         else [])
  }

  /** `stringify_part(part, collapse_threshold)`. */
  function Stringify(part: Json, threshold: int, loads: Parser): string
    requires Renderable(part, loads)
    decreases Weight(part), 2
  {
    match part
    case Obj(_) => StringifyDict(part, threshold, loads)
    case Str(s) => StringifyString(s, threshold, loads)
    case _ => PyStr(part)
  }

  /** The dict branch: code, image, `updates`, nested parts, text, JSON dump. */
  function StringifyDict(part: Json, threshold: int, loads: Parser): string
    requires part.Obj? && DictRenderable(part, loads)
    decreases Weight(part), 1
  {
    var t := PartType(part);
    var content := PartContent(part);
    if IsCodeType(t) then CodeBlock(t.s, content.s, threshold)
    else if PartUrl(part).Truthy() then
      "![" + PyStr(part.GetOr("alt_text", Str(""))) + "](" + PyStr(PartUrl(part)) + ")"
    else if HasListField(part, "updates") then
      Join("\n\n", UpdateBlocks(ListField(part, "updates")))
    else if HasListField(part, "parts") then
      Join("\n\n", StringifyItems(ListField(part, "parts"), Weight(part), threshold, loads))
    else if content.Truthy() then ReplaceInline(content.s, loads)
    else Dumps(part, Some(2))
  }

  /** Each nested part rendered in turn. */
  function StringifyItems(items: seq<Json>, bound: nat, threshold: int, loads: Parser): (r: seq<string>)
    requires forall k :: 0 <= k < |items| ==> Weight(items[k]) < bound && Renderable(items[k], loads)
    decreases bound, 0
    ensures |r| == |items|
  {
    seq(|items|, k requires 0 <= k < |items| => Stringify(items[k], threshold, loads))
  }

  /** The string branch: a whole JSON value, fenced code kept verbatim, or
      inline JSON replaced. */
  function StringifyString(s: string, threshold: int, loads: Parser): string
    requires StringRenderable(s, loads)
    decreases Weight(Str(s)), 1
  {
    ParsedLighter(s, loads);
    var t := Strip(s);
    if LooksLikeJson(t) then
      var obj := Parse(loads, t);
      if obj.Some? && obj.value.Obj? then Stringify(obj.value, threshold, loads)
      else if obj.Some? && !obj.value.Null? then "```json\n" + Dumps(obj.value, Some(2)) + "\n```"
      else t
    else if FencedBlocks(t, 0) != [] then FencedText(t, loads)
    else ReplaceInline(t, loads)
  }

  /** The code branch: the stripped code fenced in the language after the
      '/', "text" when that is empty, folded into `<details>` exactly when it
      has more lines than the threshold. */
  lemma CodeBlockShape(t: string, content: string, threshold: int)
    requires StartsWith(t, "code/")
    ensures var lang := CodeLang(t);
      var code := Strip(content);
      var n := |SplitLines(code)|;
      && lang != []
      && (n > threshold ==> CodeBlock(t, content, threshold) == Collapsed(lang, n, Fenced(lang, code)))
      && (n <= threshold ==> CodeBlock(t, content, threshold) == Fenced(lang, code))
  {
  }

  lemma RenderableDict(part: Json, loads: Parser)
    requires part.Obj?
    ensures Renderable(part, loads) == DictRenderable(part, loads)
  {
  }

  /** A dict part renders through the dict branch. */
  lemma DictDispatch(part: Json, threshold: int, loads: Parser)
    requires part.Obj?
    ensures Renderable(part, loads) == DictRenderable(part, loads)
    ensures DictRenderable(part, loads) ==> Stringify(part, threshold, loads) == StringifyDict(part, threshold, loads)
  {
    RenderableDict(part, loads);
  }

  /** A dict whose type starts with "code/" renders as a code block of its
      content, which is then a string. */
  lemma StringifyCodePart(part: Json, threshold: int, loads: Parser)
    requires Renderable(part, loads) && part.Obj? && IsCodeType(PartType(part))
    ensures PartContent(part).Str?
    ensures Stringify(part, threshold, loads) == CodeBlock(PartType(part).s, PartContent(part).s, threshold)
  {
    DictDispatch(part, threshold, loads);
  }

  /** A string part renders through the string branch. */
  lemma StringDispatch(s: string, threshold: int, loads: Parser)
    ensures Renderable(Str(s), loads) == StringRenderable(s, loads)
    ensures StringRenderable(s, loads) ==> Stringify(Str(s), threshold, loads) == StringifyString(s, threshold, loads)
  {
    RenderableString(s, loads);
  }

  lemma RenderableString(s: string, loads: Parser)
    ensures Renderable(Str(s), loads) == StringRenderable(s, loads)
  {
  }

  /** A string that does not look like JSON, holds no fenced code and no
      inline JSON that parses renders as itself, stripped. */
  lemma StringifyPlainString(s: string, threshold: int, loads: Parser)
    requires !LooksLikeJson(Strip(s)) && FencedBlocks(Strip(s), 0) == []
    requires NoInlineJson(Strip(s), loads)
    ensures Renderable(Str(s), loads)
    ensures Stringify(Str(s), threshold, loads) == Strip(s)
  {
    StringDispatch(s, threshold, loads);
    ReplaceInlineIdentity(Strip(s), loads);
  }

  /** A string holding a JSON object renders as that object does. */
  lemma StringifyJsonString(s: string, threshold: int, loads: Parser)
    requires Renderable(Str(s), loads) && LooksLikeJson(Strip(s))
    requires loads(Strip(s)).Some? && loads(Strip(s)).value.Obj?
    ensures Renderable(loads(Strip(s)).value, loads)
    ensures Stringify(Str(s), threshold, loads) == Stringify(loads(Strip(s)).value, threshold, loads)
  {
    StringDispatch(s, threshold, loads);
    assert Parse(loads, Strip(s)) == loads(Strip(s));
  }

  /** `None`, booleans, numbers and lists render as `str(part)`. */
  lemma StringifyOther(part: Json, threshold: int, loads: Parser)
    requires !part.Obj? && !part.Str?
    ensures Stringify(part, threshold, loads) == PyStr(part)
  {
  }

  const TextKeys: seq<string> := ["text", "description", "title", "body"]

  /** The first of `keys` whose value is a non-blank string. */
  function TextField(obj: Json, keys: seq<string>): (r: Option<string>)
    ensures r.Some? ==> exists k :: 0 <= k < |keys| && obj.Get(keys[k]) == Some(Str(r.value)) && !IsBlank(r.value)
    ensures r.None? ==> forall k :: 0 <= k < |keys| && obj.Get(keys[k]).Some? && obj.Get(keys[k]).value.Str?
                          ==> IsBlank(obj.Get(keys[k]).value.s)
  {
    if keys == [] then None
    else
      var v := obj.Get(keys[0]);
      if v.Some? && v.value.Str? && !IsBlank(v.value.s) then Some(v.value.s)
      else
        var r := TextField(obj, keys[1..]);
        assert forall k :: 1 <= k < |keys| ==> keys[k] == keys[1..][k - 1];
        r
  }

  /** The value shapes `extract_strings` handles without raising: an
      `updates` value it iterates is a list of dicts (or empty), and the
      values it descends into are such shapes in turn. */
  predicate Extractable(obj: Json)
    decreases Weight(obj)
  {
    match obj
    case Obj(_) =>
      if TextField(obj, TextKeys).Some? then true
      else if obj.Has("content") then Extractable(FieldOf(obj, "content"))
      else if obj.Has("parts") then Extractable(FieldOf(obj, "parts"))
      else if obj.Has("updates") then
        var u := FieldOf(obj, "updates");
        if u.Arr? then
          var updates := ItemsOf(u);
          forall k :: 0 <= k < |updates| ==>
            updates[k].Obj? && (updates[k].Has("replacement") ==> Extractable(FieldOf(updates[k], "replacement")))
        else u == Str("") || u == Obj([])
      else
        var vals := ValuesOf(obj);
        forall k :: 0 <= k < |vals| ==> Extractable(vals[k])
    case Arr(_) =>
      var items := ItemsOf(obj);
      forall k :: 0 <= k < |items| ==> Extractable(items[k])
    case _ => true
  }

  /** `extract_strings(obj)` */
  function ExtractStrings(obj: Json): seq<string>
    requires Extractable(obj)
    decreases Weight(obj)
  {
    match obj
    case Str(s) => [s]
    case Obj(_) =>
      var first := TextField(obj, TextKeys);
      if first.Some? then [first.value]
      else if obj.Has("content") then ExtractStrings(FieldOf(obj, "content"))
      else if obj.Has("parts") then ExtractStrings(FieldOf(obj, "parts"))
      else if obj.Has("updates") then
        var u := FieldOf(obj, "updates");
        if u.Arr? then
          var updates := ItemsOf(u);
          Flatten(seq(|updates|, k requires 0 <= k < |updates| =>
            if updates[k].Has("replacement") then ExtractStrings(FieldOf(updates[k], "replacement")) else []))
        else []
      else
        var vals := ValuesOf(obj);
        Flatten(seq(|vals|, k requires 0 <= k < |vals| =>
          if vals[k].Obj? || vals[k].Arr? then ExtractStrings(vals[k]) else []))
    case Arr(_) =>
      var items := ItemsOf(obj);
      Flatten(seq(|items|, k requires 0 <= k < |items| => ExtractStrings(items[k])))
    case _ => []
  }

  /** `s` is a string somewhere inside `j` (as a value, not as a key). */
  predicate OccursIn(s: string, j: Json)
    decreases Weight(j)
  {
    match j
    case Str(t) => t == s
    case Arr(_) =>
      var items := ItemsOf(j);
      exists k :: 0 <= k < |items| && OccursIn(s, items[k])
    case Obj(_) =>
      var vals := ValuesOf(j);
      exists k :: 0 <= k < |vals| && OccursIn(s, vals[k])
    case _ => false
  }

  lemma {:induction false} FlattenIndex<T>(xs: seq<seq<T>>, i: nat) returns (k: nat, j: nat)
    requires i < |Flatten(xs)|
    ensures k < |xs| && j < |xs[k]| && xs[k][j] == Flatten(xs)[i]
  {
    var init := xs[..|xs| - 1];
    if i < |Flatten(init)| {
      k, j := FlattenIndex(init, i);
    } else {
      k, j := |xs| - 1, i - |Flatten(init)|;
    }
  }

  lemma OccursInField(s: string, obj: Json, key: string)
    requires obj.Has(key) && OccursIn(s, FieldOf(obj, key))
    ensures OccursIn(s, obj)
  {
    var i :| 0 <= i < |obj.fields| && obj.fields[i] == (key, FieldOf(obj, key));
    assert ValuesOf(obj)[i] == FieldOf(obj, key);
  }

  /** Every string `extract_strings` returns is a string value found inside
      its argument. */
  lemma {:induction false} ExtractStringsOccur(obj: Json)
    requires Extractable(obj)
    ensures forall i :: 0 <= i < |ExtractStrings(obj)| ==> OccursIn(ExtractStrings(obj)[i], obj)
    decreases Weight(obj)
  {
    var r := ExtractStrings(obj);
    forall i | 0 <= i < |r| ensures OccursIn(r[i], obj) {
      ExtractedOccurs(obj, i);
    }
  }

  lemma {:induction false} ExtractedOccurs(obj: Json, i: nat)
    requires Extractable(obj) && i < |ExtractStrings(obj)|
    ensures OccursIn(ExtractStrings(obj)[i], obj)
    decreases Weight(obj), 0
  {
    var r := ExtractStrings(obj);
    match obj
    case Str(_) =>
    case Obj(_) =>
      var first := TextField(obj, TextKeys);
      if first.Some? {
        var k :| 0 <= k < |TextKeys| && obj.Get(TextKeys[k]) == Some(Str(first.value));
        OccursInField(first.value, obj, TextKeys[k]);
      } else if obj.Has("content") {
        ExtractedOccurs(FieldOf(obj, "content"), i);
        OccursInField(r[i], obj, "content");
      } else if obj.Has("parts") {
        ExtractedOccurs(FieldOf(obj, "parts"), i);
        OccursInField(r[i], obj, "parts");
      } else if obj.Has("updates") {
        var u := FieldOf(obj, "updates");
        var updates := ItemsOf(u);
        var xs := seq(|updates|, k requires 0 <= k < |updates| =>
            if updates[k].Has("replacement") then ExtractStrings(FieldOf(updates[k], "replacement")) else []);
        var k, j := FlattenIndex(xs, i);
        var upd := updates[k];
        var rep := FieldOf(upd, "replacement");
        ExtractedOccurs(rep, j);
        OccursInField(r[i], upd, "replacement");
        assert OccursIn(r[i], u);
        OccursInField(r[i], obj, "updates");
      } else {
        var vals := ValuesOf(obj);
        var xs := seq(|vals|, k requires 0 <= k < |vals| =>
          if vals[k].Obj? || vals[k].Arr? then ExtractStrings(vals[k]) else []);
        var k, j := FlattenIndex(xs, i);
        ExtractedOccurs(vals[k], j);
      }
    case Arr(_) =>
      var items := ItemsOf(obj);
      var xs := seq(|items|, k requires 0 <= k < |items| => ExtractStrings(items[k]));
      var k, j := FlattenIndex(xs, i);
      ExtractedOccurs(items[k], j);
  }
}
