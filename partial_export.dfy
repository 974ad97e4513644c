/** The `partial` export command (extract.py): the start message's ancestors,
    an optional chronological range up to an end message, optional
    descendants to a depth, then one entry per message in creation order,
    printed as Markdown or as plain lines. */
module PartialExport {
  import opened Text
  import opened Options
  import opened JsonValue
  import opened Sorting
  import opened ThreadIndex

  /** `x["message"]["create_time"]`, the chronological key. */
  function MessageTime(node: Json): Key {
    var t := MessageField(node, "create_time");
    Number(if t.Num? then t.n else 0)
  }

  function Second(e: (string, Json)): Json {
    e.1
  }

  /** `messages.values()` */
  function IndexValues(idx: Index): (r: seq<Json>)
    ensures |r| == |idx| && forall k :: 0 <= k < |idx| ==> r[k] == idx[k].1
  {
    Map(idx, Second)
  }

  /** `node.get("parent")` */
  function ParentField(node: Json): Json {
    node.GetOr("parent", Null)
  }

  /** `node["id"]` */
  function NodeId(node: Json): Json {
    node.GetOr("id", Null)
  }

  /** The indexed nodes whose parent is `id`, in index order. */
  function ChildrenIn(idx: Index, id: Json): (r: seq<Json>)
    ensures forall k :: 0 <= k < |r| ==> ParentField(r[k]) == id
  {
    if idx == [] then []
    else
      var v := idx[|idx| - 1].1;
      ChildrenIn(idx[..|idx| - 1], id) + (if ParentField(v) == id then [v] else [])
  }

  /** The children of a node, ordered by creation time (ties in index order). */
  function ChildrenOf(idx: Index, node: Json): seq<Json> {
    SortBy(ChildrenIn(idx, NodeId(node)), MessageTime, false)
  }

  /** The descendants within `left` more levels, each child followed at once
      by its own descendants. */
  function Subtree(idx: Index, node: Json, left: nat): seq<Json>
    decreases left, 1
  {
    if left == 0 then [] else Forest(idx, ChildrenOf(idx, node), left)
  }

  function Forest(idx: Index, cs: seq<Json>, left: nat): seq<Json>
    requires left > 0
    decreases left, 0, |cs|
  {
    if cs == [] then []
    else Forest(idx, cs[..|cs| - 1], left) + [cs[|cs| - 1]] + Subtree(idx, cs[|cs| - 1], left - 1)
  }

  /** How many more levels `get_children` descends at `level`: `depth` minus
      the level, none once `level >= depth`; an unset depth is unbounded,
      which on acyclic links is the same as the index size. */
  function Levels(idx: Index, depth: Option<int>, level: nat): nat {
    var d := if depth.Some? then depth.value else |idx|;
    if level >= d then 0 else d - level
  }

  lemma ForestSnoc(idx: Index, cs: seq<Json>, i: nat, left: nat)
    requires i < |cs| && left > 0
    ensures Forest(idx, cs[..i + 1], left) == Forest(idx, cs[..i], left) + [cs[i]] + Subtree(idx, cs[i], left - 1)
  {
    assert cs[..i + 1][..i] == cs[..i];
  }

  lemma LevelsStep(idx: Index, depth: Option<int>, level: nat)
    requires Levels(idx, depth, level) > 0
    ensures Levels(idx, depth, level + 1) == Levels(idx, depth, level) - 1
  {
  }

  /** `get_children(msg, level)` */
  method GetChildren(idx: Index, msg: Json, depth: Option<int>, level: nat) returns (result: seq<Json>)
    ensures result == Subtree(idx, msg, Levels(idx, depth, level))
    decreases Levels(idx, depth, level), 1
  {
    if Levels(idx, depth, level) == 0 {
      return [];
    }
    var children := ChildrenOf(idx, msg);
    result := VisitChildren(idx, children, depth, level);
  }

  /** The loop of `get_children`: each child, then its own descendants. */
  method VisitChildren(idx: Index, children: seq<Json>, depth: Option<int>, level: nat) returns (result: seq<Json>)
    requires Levels(idx, depth, level) > 0
    ensures result == Forest(idx, children, Levels(idx, depth, level))
    decreases Levels(idx, depth, level), 0
  {
    var left := Levels(idx, depth, level);
    LevelsStep(idx, depth, level);
    result := [];
    for i := 0 to |children|
      invariant result == Forest(idx, children[..i], left)
    {
      ForestSnoc(idx, children, i, left);
      var sub := GetChildren(idx, children[i], depth, level + 1);
      result := result + [children[i]] + sub;
    }
    assert children[..|children|] == children;
  }

  /** Siblings come in creation order, and they are exactly the indexed
      nodes with that parent. */
  lemma ChildrenSorted(idx: Index, node: Json)
    ensures SortedBy(ChildrenOf(idx, node), MessageTime, false)
    ensures multiset(ChildrenOf(idx, node)) == multiset(ChildrenIn(idx, NodeId(node)))
  {
    SortByCorrect(ChildrenIn(idx, NodeId(node)), MessageTime, false);
  }

  /** Every indexed node with that parent is among the children. */
  lemma {:induction false} ChildrenInComplete(idx: Index, id: Json)
    ensures forall k :: 0 <= k < |idx| && ParentField(idx[k].1) == id ==> idx[k].1 in ChildrenIn(idx, id)
  {
    if idx != [] {
      var init := idx[..|idx| - 1];
      ChildrenInComplete(init, id);
      assert forall k :: 0 <= k < |init| ==> idx[k] == init[k];
    }
  }

  /** One level is the children alone. */
  lemma {:induction false} ForestOneLevel(idx: Index, cs: seq<Json>)
    ensures Forest(idx, cs, 1) == cs
  {
    if cs != [] {
      ForestOneLevel(idx, cs[..|cs| - 1]);
    }
  }

  /** Depth 0 (or less) yields nothing and depth 1 the direct children. */
  lemma DepthBounds(idx: Index, node: Json, depth: int)
    ensures depth <= 0 ==> Subtree(idx, node, Levels(idx, Some(depth), 0)) == []
    ensures depth == 1 ==> Subtree(idx, node, Levels(idx, Some(depth), 0)) == ChildrenOf(idx, node)
  {
    if depth == 1 {
      ForestOneLevel(idx, ChildrenOf(idx, node));
    }
  }

  /** Pre-order: every node's parent is the root of the walk or a node
      listed before it. */
  predicate HangsBelow(xs: seq<Json>, id: Json) {
    forall k :: 0 <= k < |xs| ==>
      ParentField(xs[k]) == id || exists j :: 0 <= j < k && ParentField(xs[k]) == NodeId(xs[j])
  }

  lemma ChildrenOfParent(idx: Index, node: Json)
    ensures forall k :: 0 <= k < |ChildrenOf(idx, node)| ==> ParentField(ChildrenOf(idx, node)[k]) == NodeId(node)
  {
    ChildrenSorted(idx, node);
    forall k | 0 <= k < |ChildrenOf(idx, node)|
      ensures ParentField(ChildrenOf(idx, node)[k]) == NodeId(node)
    {
      assert ChildrenOf(idx, node)[k] in multiset(ChildrenIn(idx, NodeId(node)));
    }
  }

  lemma {:induction false} SubtreePreOrder(idx: Index, node: Json, left: nat)
    ensures HangsBelow(Subtree(idx, node, left), NodeId(node))
    decreases left, 1
  {
    if left > 0 {
      ChildrenOfParent(idx, node);
      ForestPreOrder(idx, ChildrenOf(idx, node), left, NodeId(node));
    }
  }

  lemma {:induction false} ForestPreOrder(idx: Index, cs: seq<Json>, left: nat, id: Json)
    requires left > 0
    requires forall k :: 0 <= k < |cs| ==> ParentField(cs[k]) == id
    ensures HangsBelow(Forest(idx, cs, left), id)
    decreases left, 0, |cs|
  {
    if cs != [] {
      var init, last := cs[..|cs| - 1], cs[|cs| - 1];
      ForestPreOrder(idx, init, left, id);
      SubtreePreOrder(idx, last, left - 1);
      var a := Forest(idx, init, left);
      var b := Subtree(idx, last, left - 1);
      assert Forest(idx, cs, left) == a + [last] + b;
      HangsConcat(a, last, b, id);
    }
  }

  /** A node hanging from the root, followed by its own pre-ordered
      descendants, extends a pre-order. */
  lemma HangsConcat(a: seq<Json>, last: Json, b: seq<Json>, id: Json)
    requires HangsBelow(a, id) && ParentField(last) == id && HangsBelow(b, NodeId(last))
    ensures HangsBelow(a + [last] + b, id)
  {
    var r := a + [last] + b;
    forall k | 0 <= k < |r|
      ensures ParentField(r[k]) == id || exists j :: 0 <= j < k && ParentField(r[k]) == NodeId(r[j])
    {
      if k < |a| {
        HangsInLeft(a, last, b, id, k);
      } else if k > |a| {
        HangsInRight(a, last, b, k);
      }
    }
  }

  lemma HangsInLeft(a: seq<Json>, last: Json, b: seq<Json>, id: Json, k: nat)
    requires HangsBelow(a, id) && k < |a|
    ensures var r := a + [last] + b;
      ParentField(r[k]) == id || exists j :: 0 <= j < k && ParentField(r[k]) == NodeId(r[j])
  {
    var r := a + [last] + b;
    assert r[k] == a[k];
    if ParentField(a[k]) != id {
      var j :| 0 <= j < k && ParentField(a[k]) == NodeId(a[j]);
      assert r[j] == a[j];
    }
  }

  lemma HangsInRight(a: seq<Json>, last: Json, b: seq<Json>, k: nat)
    requires HangsBelow(b, NodeId(last)) && |a| < k < |a| + 1 + |b|
    ensures var r := a + [last] + b;
      exists j :: 0 <= j < k && ParentField(r[k]) == NodeId(r[j])
  {
    var r := a + [last] + b;
    var m := k - |a| - 1;
    assert r[k] == b[m];
    if ParentField(b[m]) == NodeId(last) {
      assert r[|a|] == last;
    } else {
      var j :| 0 <= j < m && ParentField(b[m]) == NodeId(b[j]);
      assert r[|a| + 1 + j] == b[j];
    }
  }

  /** `xs.index(x)`: the first position holding `x`. */
  function IndexOf(xs: seq<Json>, x: Json): (r: nat)
    requires x in xs
    ensures r < |xs| && xs[r] == x
    ensures forall j :: 0 <= j < r ==> xs[j] != x
  {
    if xs[0] == x then 0 else 1 + IndexOf(xs[1..], x)
  }

  /** `xs[s + 1 : e + 1]` */
  function RangeAfter(xs: seq<Json>, s: nat, e: nat): (r: seq<Json>)
    requires s < |xs| && e < |xs|
    ensures |r| == if s < e then e - s else 0
    ensures forall k :: 0 <= k < |r| ==> r[k] == xs[s + 1 + k]
  {
    if s < e then xs[s + 1..e + 1] else []
  }

  /** In a chronological list the range lies between the start and the end
      message in time, and it is empty unless the end comes after the start. */
  lemma RangeBetween(xs: seq<Json>, s: nat, e: nat)
    requires s < |xs| && e < |xs| && SortedBy(xs, MessageTime, false)
    ensures forall k :: 0 <= k < |RangeAfter(xs, s, e)| ==>
      KeyLe(MessageTime(xs[s]), MessageTime(RangeAfter(xs, s, e)[k]))
      && KeyLe(MessageTime(RangeAfter(xs, s, e)[k]), MessageTime(xs[e]))
    ensures e <= s ==> RangeAfter(xs, s, e) == []
  {
    forall k | 0 <= k < |RangeAfter(xs, s, e)|
      ensures KeyLe(MessageTime(xs[s]), MessageTime(RangeAfter(xs, s, e)[k]))
      ensures KeyLe(MessageTime(RangeAfter(xs, s, e)[k]), MessageTime(xs[e]))
    {
      var i := s + 1 + k;
      assert Before(MessageTime(xs[s]), MessageTime(xs[i]), false);
      if i < e {
        assert Before(MessageTime(xs[i]), MessageTime(xs[e]), false);
      } else {
        KeyLeTotalOrder(MessageTime(xs[e]), MessageTime(xs[e]), MessageTime(xs[e]));
      }
    }
  }

  /** Whether some listed node has that id. */
  predicate HasId(xs: seq<Json>, id: Json) {
    exists k :: 0 <= k < |xs| && NodeId(xs[k]) == id
  }

  /** Each message once: the first entry with a given id, in order. */
  function DedupById(xs: seq<Json>): (r: seq<Json>)
    ensures forall k :: 0 <= k < |r| ==> r[k] in xs
  {
    if xs == [] then []
    else
      var d := DedupById(xs[..|xs| - 1]);
      if HasId(d, NodeId(xs[|xs| - 1])) then d else d + [xs[|xs| - 1]]
  }

  /** No two kept entries share an id. */
  lemma {:induction false} DedupDistinct(xs: seq<Json>)
    ensures forall i, j :: 0 <= i < j < |DedupById(xs)| ==> NodeId(DedupById(xs)[i]) != NodeId(DedupById(xs)[j])
  {
    if xs != [] {
      DedupDistinct(xs[..|xs| - 1]);
    }
  }

  /** Every id of the input is kept. */
  lemma {:induction false} DedupCovers(xs: seq<Json>)
    ensures forall k :: 0 <= k < |xs| ==> HasId(DedupById(xs), NodeId(xs[k]))
  {
    if xs != [] {
      var init := xs[..|xs| - 1];
      DedupCovers(init);
      var d := DedupById(init);
      var r := DedupById(xs);
      assert r[..|d|] == d;
      forall k | 0 <= k < |xs|
        ensures HasId(r, NodeId(xs[k]))
      {
        if k < |init| {
          assert xs[k] == init[k];
          var m :| 0 <= m < |d| && NodeId(d[m]) == NodeId(init[k]);
          assert r[m] == d[m];
        } else if !HasId(d, NodeId(xs[k])) {
          assert r[|d|] == xs[k];
        }
      }
    }
  }

  /** The exported messages, each once, in creation order (ties keep their
      first position). */
  function Chronological(xs: seq<Json>): seq<Json> {
    SortBy(DedupById(xs), MessageTime, false)
  }

  /** The final list holds the deduplicated messages, ordered by time. */
  lemma ChronologicalCorrect(xs: seq<Json>)
    ensures SortedBy(Chronological(xs), MessageTime, false)
    ensures multiset(Chronological(xs)) == multiset(DedupById(xs))
    ensures forall k :: 0 <= k < |Chronological(xs)| ==> Chronological(xs)[k] in xs
  {
    SortByCorrect(DedupById(xs), MessageTime, false);
    forall k | 0 <= k < |Chronological(xs)|
      ensures Chronological(xs)[k] in xs
    {
      assert Chronological(xs)[k] in multiset(DedupById(xs));
    }
  }

  /** What line 105 does as written: `set()` of the exported entries, which
      raises as soon as one is a dict or a list (they are not hashable). */
  predicate Hashable(j: Json) {
    !j.Arr? && !j.Obj?
  }

  function ChronologicalAsWritten(xs: seq<Json>): Option<seq<Json>> {
    if exists k :: 0 <= k < |xs| && !Hashable(xs[k]) then None else Some(SortBy(xs, MessageTime, false))
  }

  /** The exported list always holds the start message, a dict, so the
      deduplication as written never returns. */
  lemma AsWrittenDedupRaises(parents: seq<Json>, start: Json, more: seq<Json>)
    requires start.Obj?
    ensures ChronologicalAsWritten(parents + [start] + more) == None
  {
    assert (parents + [start] + more)[|parents|] == start;
  }

  /** `msg["message"]["author"]["role"]` */
  function RoleValue(node: Json): Json {
    MessageField(node, "author").GetOr("role", Null)
  }

  /** The role as the text `capitalize` is called on (Markdown output only). */
  function RoleOf(node: Json): string {
    var r := RoleValue(node);
    if r.Str? then r.s else ""
  }

  /** `msg["message"]["content"].get("parts", [""])[0]` */
  function FirstPart(node: Json): Json {
    var parts := MessageField(node, "content").GetOr("parts", Arr([Str("")]));
    if parts.Arr? && parts.items != [] then parts.items[0]
    else if parts.Str? && parts.s != "" then Str([parts.s[0]])
    else Null
  }

  /** A message the output lines of `format` read without raising: the role
      must be there, and a string only where Markdown capitalises it. */
  predicate Printable(node: Json, format: string) {
    var parts := MessageField(node, "content").GetOr("parts", Arr([Str("")]));
    MessageField(node, "author").Obj? && MessageField(node, "author").Has("role")
    && (format == "markdown" ==> RoleValue(node).Str?)
    && MessageField(node, "content").Obj?
    && ((parts.Arr? && parts.items != []) || (parts.Str? && parts.s != ""))
  }

  function MarkdownLine(node: Json): string {
    "**" + Capitalize(RoleOf(node)) + ":** " + PyStr(FirstPart(node)) + "\n"
  }

  function TextLine(node: Json): string {
    PyStr(RoleValue(node)) + ": " + PyStr(FirstPart(node))
  }

  const MarkdownHeader: string := "# Exported Conversation\n"

  /** What the output step echoes: one Markdown document, or one line per
      message. */
  function Rendered(exported: seq<Json>, format: string): (r: seq<string>)
    ensures format != "markdown" ==> |r| == |exported|
    ensures format == "markdown" ==> |r| == 1
  {
    if format == "markdown" then [Join("\n", [MarkdownHeader] + Map(exported, MarkdownLine))]
    else Map(exported, TextLine)
  }

  /** The output step. */
  method Render(exported: seq<Json>, format: string) returns (echoes: seq<string>)
    requires forall k :: 0 <= k < |exported| ==> Printable(exported[k], format)
    ensures echoes == Rendered(exported, format)
  {
    if format == "markdown" {
      var lines := [MarkdownHeader];
      for i := 0 to |exported|
        invariant lines == [MarkdownHeader] + Map(exported[..i], MarkdownLine)
      {
        MapSnoc(exported, i, MarkdownLine);
        lines := lines + [MarkdownLine(exported[i])];
      }
      assert exported[..|exported|] == exported;
      echoes := [Join("\n", lines)];
    } else {
      echoes := [];
      for i := 0 to |exported|
        invariant echoes == Map(exported[..i], TextLine)
      {
        MapSnoc(exported, i, TextLine);
        echoes := echoes + [TextLine(exported[i])];
      }
      assert exported[..|exported|] == exported;
    }
  }

  /** A plain line names the role, whatever its type, and shows the same
      first part as the Markdown line, whose role is capitalised; for a
      string role both lines name the same text. */
  lemma LinesAgree(node: Json)
    ensures StartsWith(TextLine(node), PyStr(RoleValue(node)) + ": ")
    ensures RoleValue(node).Str? ==> PyStr(RoleValue(node)) == RoleOf(node)
    ensures StartsWith(MarkdownLine(node), "**" + Capitalize(RoleOf(node)) + ":** ")
    ensures EndsWith(TextLine(node), PyStr(FirstPart(node)))
  {
    var t := TextLine(node);
    var role := PyStr(RoleValue(node)) + ": ";
    assert t[..|role|] == role;
    assert t[|t| - |PyStr(FirstPart(node))|..] == PyStr(FirstPart(node));
    var m := MarkdownLine(node);
    var head := "**" + Capitalize(RoleOf(node)) + ":** ";
    assert m == head + (PyStr(FirstPart(node)) + "\n");
    assert m[..|head|] == head;
  }
}
