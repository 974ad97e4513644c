/** `thread_partial` (extract.py:9-118), the `partial` command as a whole:
    what it echoes and the status it exits with. The deduplication uses the
    corrected definition (`Chronological`); the index keeps only nodes that
    carry a message dict. */
module PartialCommand {
  import opened Text
  import opened Options
  import opened JsonValue
  import opened Sorting
  import opened ThreadIndex
  import opened PartialExport

  /** What the command echoes, and its exit status. */
  datatype Outcome = Outcome(echoes: seq<string>, status: int)

  /** An indexed message the command reads without raising. */
  predicate EntryOk(node: Json, format: string) {
    NodeId(node).Str?
    && !ParentField(node).Arr? && !ParentField(node).Obj?
    && MessageField(node, "create_time").Num?
    && node.GetOr("message", Null).Has("id")
    && Printable(node, format)
  }

  /** The input the command handles: a readable export whose indexed messages
      are all readable and whose parent chains all end. */
  predicate CommandOk(data: seq<Json>, format: string) {
    DataOk(data)
    && (forall k :: 0 <= k < |MessageIndex(data)| ==> EntryOk(MessageIndex(data)[k].1, format))
    && (forall k :: 0 <= k < |MessageIndex(data)| ==> ChainEnds(MessageIndex(data), MessageIndex(data)[k].1))
  }

  /** All listed nodes are indexed messages. */
  predicate Within(xs: seq<Json>, idx: Index) {
    forall k :: 0 <= k < |xs| ==> xs[k] in IndexValues(idx)
  }

  /** `messages.values()` sorted by creation time. */
  function AllSorted(idx: Index): (r: seq<Json>)
    ensures multiset(r) == multiset(IndexValues(idx))
  {
    SortByCorrect(IndexValues(idx), MessageTime, false);
    SortBy(IndexValues(idx), MessageTime, false)
  }

  /** The messages strictly after the start and up to the end, in time order. */
  function Range(idx: Index, s: Json, e: Json): seq<Json>
    requires s in IndexValues(idx) && e in IndexValues(idx)
  {
    var all := AllSorted(idx);
    assert s in multiset(all) && e in multiset(all);
    RangeAfter(all, IndexOf(all, s), IndexOf(all, e))
  }

  /** `exported` before the deduplication: the context, the start message,
      the range and the descendants. */
  function Collected(idx: Index, s: Json, e: Option<Json>, includeChildren: bool, depth: Option<int>, contextLimit: Option<int>): seq<Json>
    requires s in IndexValues(idx) && (e.Some? ==> e.value in IndexValues(idx))
  {
    var parents := Limited(Reverse(Ancestors(idx, s, |idx|)), contextLimit);
    var range := if e.Some? then Range(idx, s, e.value) else [];
    var kids := if includeChildren then Subtree(idx, s, Levels(idx, depth, 0)) else [];
    parents + [s] + range + kids
  }

  function StartMissing(start: string): string {
    "Start message '" + start + "' not found"
  }

  function EndMissing(end: string): string {
    "End message '" + end + "' not found"
  }

  /** The echo of the auto-detected thread root, when no thread is given. */
  function Detected(idx: Index, s: Json, thread: Option<string>): seq<string> {
    if thread.None? || thread.value == "" then ["Auto-detected thread ID: " + PyStr(MessageField(Top(idx, s, |idx|), "id"))]
    else []
  }

  lemma FoundIsIndexed(idx: Index, key: string)
    ensures FindByKey(idx, key).Some? ==> FindByKey(idx, key).value in IndexValues(idx)
  {
    if FindByKey(idx, key).Some? {
      var i :| 0 <= i < |idx| && idx[i].1 == FindByKey(idx, key).value;
      assert IndexValues(idx)[i] == idx[i].1;
    }
  }

  /** The whole command. */
  function Run(data: seq<Json>, thread: Option<string>, start: string, end: Option<string>,
               includeChildren: bool, depth: Option<int>, contextLimit: Option<int>, format: string): Outcome
  {
    var idx := MessageIndex(data);
    var s := FindByKey(idx, start);
    var hasEnd := end.Some? && end.value != "";
    if s.None? then Outcome([StartMissing(start)], 1)
    else if hasEnd && FindByKey(idx, end.value).None? then Outcome(Detected(idx, s.value, thread) + [EndMissing(end.value)], 1)
    else
      FoundIsIndexed(idx, start);
      var e := if hasEnd then FindByKey(idx, end.value) else None;
      FoundIsIndexed(idx, if end.Some? then end.value else "");
      Outcome(Detected(idx, s.value, thread)
              + Rendered(Chronological(Collected(idx, s.value, e, includeChildren, depth, contextLimit)), format), 0)
  }

  lemma LookupIndexed(idx: Index, key: string)
    ensures Lookup(idx, key).Some? ==> Lookup(idx, key).value in IndexValues(idx)
  {
    if Lookup(idx, key).Some? {
      var i :| 0 <= i < |idx| && idx[i] == (key, Lookup(idx, key).value);
      assert IndexValues(idx)[i] == idx[i].1;
    }
  }

  lemma {:induction false} AncestorsWithin(idx: Index, node: Json, fuel: nat)
    ensures Within(Ancestors(idx, node, fuel), idx)
    decreases fuel
  {
    if fuel > 0 && ParentOf(idx, node).Some? {
      var p := node.GetOr("parent", Null);
      LookupIndexed(idx, p.s);
      AncestorsWithin(idx, ParentOf(idx, node).value, fuel - 1);
    }
  }

  lemma ContextWithin(idx: Index, xs: seq<Json>, contextLimit: Option<int>)
    requires Within(xs, idx)
    ensures Within(Limited(Reverse(xs), contextLimit), idx)
  {
    var r := Reverse(xs);
    assert Within(r, idx);
    if contextLimit.Some? && contextLimit.value != 0 {
      var t := SliceTo(r, contextLimit.value);
      assert forall k :: 0 <= k < |t| ==> t[k] == r[k];
    }
  }

  lemma ChildrenWithin(idx: Index, node: Json)
    ensures Within(ChildrenOf(idx, node), idx)
  {
    ChildrenSorted(idx, node);
    ChildrenInWithin(idx, NodeId(node));
    forall k | 0 <= k < |ChildrenOf(idx, node)|
      ensures ChildrenOf(idx, node)[k] in IndexValues(idx)
    {
      assert ChildrenOf(idx, node)[k] in multiset(ChildrenIn(idx, NodeId(node)));
    }
  }

  lemma {:induction false} ChildrenInWithin(idx: Index, id: Json)
    ensures Within(ChildrenIn(idx, id), idx)
  {
    if idx != [] {
      var init := idx[..|idx| - 1];
      ChildrenInWithin(init, id);
      assert forall k :: 0 <= k < |init| ==> IndexValues(init)[k] == IndexValues(idx)[k];
      assert IndexValues(idx)[|idx| - 1] == idx[|idx| - 1].1;
    }
  }

  lemma {:induction false} SubtreeWithin(idx: Index, node: Json, left: nat)
    ensures Within(Subtree(idx, node, left), idx)
    decreases left, 1
  {
    if left > 0 {
      ChildrenWithin(idx, node);
      ForestWithin(idx, ChildrenOf(idx, node), left);
    }
  }

  lemma {:induction false} ForestWithin(idx: Index, cs: seq<Json>, left: nat)
    requires left > 0 && Within(cs, idx)
    ensures Within(Forest(idx, cs, left), idx)
    decreases left, 0, |cs|
  {
    if cs != [] {
      ForestWithin(idx, cs[..|cs| - 1], left);
      SubtreeWithin(idx, cs[|cs| - 1], left - 1);
    }
  }

  lemma RangeWithin(idx: Index, s: Json, e: Json)
    requires s in IndexValues(idx) && e in IndexValues(idx)
    ensures Within(Range(idx, s, e), idx)
  {
    var all := AllSorted(idx);
    forall k | 0 <= k < |Range(idx, s, e)|
      ensures Range(idx, s, e)[k] in IndexValues(idx)
    {
      assert Range(idx, s, e)[k] in multiset(all);
    }
  }

  lemma WithinConcat(a: seq<Json>, b: seq<Json>, idx: Index)
    requires Within(a, idx) && Within(b, idx)
    ensures Within(a + b, idx)
  {
    forall k | 0 <= k < |a + b|
      ensures (a + b)[k] in IndexValues(idx)
    {
      if k < |a| {
        assert (a + b)[k] == a[k];
      } else {
        assert (a + b)[k] == b[k - |a|];
      }
    }
  }

  /** The command exports only indexed messages. */
  lemma CollectedWithin(idx: Index, s: Json, e: Option<Json>, includeChildren: bool, depth: Option<int>, contextLimit: Option<int>)
    requires s in IndexValues(idx) && (e.Some? ==> e.value in IndexValues(idx))
    ensures Within(Collected(idx, s, e, includeChildren, depth, contextLimit), idx)
  {
    var parents := Limited(Reverse(Ancestors(idx, s, |idx|)), contextLimit);
    var range := if e.Some? then Range(idx, s, e.value) else [];
    var kids := if includeChildren then Subtree(idx, s, Levels(idx, depth, 0)) else [];
    AncestorsWithin(idx, s, |idx|);
    ContextWithin(idx, Ancestors(idx, s, |idx|), contextLimit);
    if e.Some? {
      RangeWithin(idx, s, e.value);
    }
    if includeChildren {
      SubtreeWithin(idx, s, Levels(idx, depth, 0));
    }
    WithinConcat(parents, [s], idx);
    WithinConcat(parents + [s], range, idx);
    WithinConcat(parents + [s] + range, kids, idx);
  }

  lemma ChronologicalWithin(xs: seq<Json>, idx: Index)
    requires Within(xs, idx)
    ensures Within(Chronological(xs), idx)
  {
    ChronologicalCorrect(xs);
  }

  /** A property of every indexed message holds of every listed one. */
  lemma WithinHolds(xs: seq<Json>, idx: Index, p: Json -> bool)
    requires Within(xs, idx) && forall k :: 0 <= k < |idx| ==> p(idx[k].1)
    ensures forall k :: 0 <= k < |xs| ==> p(xs[k])
  {
    forall k | 0 <= k < |xs|
      ensures p(xs[k])
    {
      var vals := IndexValues(idx);
      assert xs[k] in vals;
      var i :| 0 <= i < |vals| && vals[i] == xs[k];
      assert vals[i] == idx[i].1;
    }
  }

  /** The start message (or the one sharing its id) is always exported, the
      export is in creation order, and it holds only indexed messages. */
  lemma ExportHoldsStart(idx: Index, s: Json, e: Option<Json>, includeChildren: bool, depth: Option<int>, contextLimit: Option<int>)
    requires s in IndexValues(idx) && (e.Some? ==> e.value in IndexValues(idx))
    ensures HasId(Chronological(Collected(idx, s, e, includeChildren, depth, contextLimit)), NodeId(s))
    ensures SortedBy(Chronological(Collected(idx, s, e, includeChildren, depth, contextLimit)), MessageTime, false)
    ensures Within(Chronological(Collected(idx, s, e, includeChildren, depth, contextLimit)), idx)
  {
    var xs := Collected(idx, s, e, includeChildren, depth, contextLimit);
    var parents := Limited(Reverse(Ancestors(idx, s, |idx|)), contextLimit);
    assert xs[|parents|] == s;
    DedupCovers(xs);
    var d := DedupById(xs);
    var m :| 0 <= m < |d| && NodeId(d[m]) == NodeId(s);
    ChronologicalCorrect(xs);
    assert d[m] in multiset(Chronological(xs));
    var j :| 0 <= j < |Chronological(xs)| && Chronological(xs)[j] == d[m];
    CollectedWithin(idx, s, e, includeChildren, depth, contextLimit);
    ChronologicalWithin(xs, idx);
  }

  /** `exported` as the command builds it: the context, the start message,
      the range up to the end message and the descendants. */
  method Gather(idx: Index, s: Json, e: Option<Json>, includeChildren: bool, depth: Option<int>, contextLimit: Option<int>)
    returns (exported: seq<Json>)
    requires ChainEnds(idx, s)
    requires s in IndexValues(idx) && (e.Some? ==> e.value in IndexValues(idx))
    ensures exported == Collected(idx, s, e, includeChildren, depth, contextLimit)
  {
    var parents := GetParents(idx, s, contextLimit);
    exported := parents + [s];
    if e.Some? {
      var all := AllSorted(idx);
      assert s in multiset(all) && e.value in multiset(all);
      exported := exported + RangeAfter(all, IndexOf(all, s), IndexOf(all, e.value));
    } else {
      exported := exported + [];
    }
    if includeChildren {
      var kids := GetChildren(idx, s, depth, 0);
      exported := exported + kids;
    } else {
      exported := exported + [];
    }
  }

  /** The export once both ends are resolved: collect, deduplicate, sort and
      render. */
  method Export(idx: Index, s: Json, e: Option<Json>, includeChildren: bool, depth: Option<int>,
                contextLimit: Option<int>, format: string)
    returns (out: seq<string>)
    requires forall k :: 0 <= k < |idx| ==> EntryOk(idx[k].1, format)
    requires ChainEnds(idx, s)
    requires s in IndexValues(idx) && (e.Some? ==> e.value in IndexValues(idx))
    ensures out == Rendered(Chronological(Collected(idx, s, e, includeChildren, depth, contextLimit)), format)
  {
    var exported := Gather(idx, s, e, includeChildren, depth, contextLimit);
    var final := Chronological(exported);
    CollectedWithin(idx, s, e, includeChildren, depth, contextLimit);
    ChronologicalWithin(exported, idx);
    WithinHolds(final, idx, n => EntryOk(n, format));
    out := Render(final, format);
  }

  /** `thread_partial(...)` */
  method ThreadPartial(data: seq<Json>, thread: Option<string>, start: string, end: Option<string>,
                       includeChildren: bool, depth: Option<int>, contextLimit: Option<int>, format: string)
    returns (echoes: seq<string>, status: int)
    requires CommandOk(data, format)
    ensures Outcome(echoes, status) == Run(data, thread, start, end, includeChildren, depth, contextLimit, format)
  {
    var idx := MessageIndex(data);
    var startMsg := FindByKey(idx, start);
    if startMsg.None? {
      return [StartMissing(start)], 1;
    }
    echoes, status := PartialFrom(data, thread, start, end, includeChildren, depth, contextLimit, format, startMsg.value);
  }

  /** The command once the start message is found: the detected root, the
      end message lookup, and the export. */
  method PartialFrom(data: seq<Json>, thread: Option<string>, start: string, end: Option<string>,
                     includeChildren: bool, depth: Option<int>, contextLimit: Option<int>, format: string, s: Json)
    returns (echoes: seq<string>, status: int)
    requires CommandOk(data, format) && FindByKey(MessageIndex(data), start) == Some(s)
    ensures Outcome(echoes, status) == Run(data, thread, start, end, includeChildren, depth, contextLimit, format)
  {
    var idx := MessageIndex(data);
    StartIndexed(data, start);
    echoes := DetectEcho(idx, s, thread);
    var e: Option<Json> := None;
    if end.Some? && end.value != "" {
      e := FindByKey(idx, end.value);
      if e.None? {
        return echoes + [EndMissing(end.value)], 1;
      }
      FoundIsIndexed(idx, end.value);
    }
    var out := Export(idx, s, e, includeChildren, depth, contextLimit, format);
    RunExports(data, thread, start, end, includeChildren, depth, contextLimit, format, s, e);
    echoes, status := echoes + out, 0;
  }

  /** A found start message is indexed and its parent chain ends. */
  lemma StartIndexed(data: seq<Json>, start: string)
    requires forall k :: 0 <= k < |MessageIndex(data)| ==> ChainEnds(MessageIndex(data), MessageIndex(data)[k].1)
    requires FindByKey(MessageIndex(data), start).Some?
    ensures FindByKey(MessageIndex(data), start).value in IndexValues(MessageIndex(data))
    ensures ChainEnds(MessageIndex(data), FindByKey(MessageIndex(data), start).value)
  {
    var idx := MessageIndex(data);
    var s := FindByKey(idx, start).value;
    FoundIsIndexed(idx, start);
    var i :| 0 <= i < |idx| && IndexValues(idx)[i] == s;
    assert idx[i].1 == s;
  }

  /** The echo of the auto-detected thread root, when no thread is given. */
  method DetectEcho(idx: Index, s: Json, thread: Option<string>) returns (echoes: seq<string>)
    requires ChainEnds(idx, s)
    ensures echoes == Detected(idx, s, thread)
  {
    echoes := [];
    if thread.None? || thread.value == "" {
      var root := DetectRoot(idx, s);
      echoes := ["Auto-detected thread ID: " + PyStr(MessageField(root, "id"))];
    }
  }

  /** When both messages are found the command exports. */
  lemma RunExports(data: seq<Json>, thread: Option<string>, start: string, end: Option<string>,
                   includeChildren: bool, depth: Option<int>, contextLimit: Option<int>, format: string,
                   s: Json, e: Option<Json>)
    requires FindByKey(MessageIndex(data), start) == Some(s)
    requires e == if end.Some? && end.value != "" then FindByKey(MessageIndex(data), end.value) else None
    requires e.Some? || !(end.Some? && end.value != "")
    requires s in IndexValues(MessageIndex(data)) && (e.Some? ==> e.value in IndexValues(MessageIndex(data)))
    ensures Run(data, thread, start, end, includeChildren, depth, contextLimit, format)
            == Outcome(Detected(MessageIndex(data), s, thread)
                       + Rendered(Chronological(Collected(MessageIndex(data), s, e, includeChildren, depth, contextLimit)), format), 0)
  {
  }

  /** The command fails (status 1) exactly when the start message, or a given
      end message, is not found; an unknown start echoes nothing else. */
  lemma RunStatus(data: seq<Json>, thread: Option<string>, start: string, end: Option<string>,
                  includeChildren: bool, depth: Option<int>, contextLimit: Option<int>, format: string)
    ensures var o := Run(data, thread, start, end, includeChildren, depth, contextLimit, format);
      var idx := MessageIndex(data);
      (o.status == 0 <==> FindByKey(idx, start).Some? && (end.Some? && end.value != "" ==> FindByKey(idx, end.value).Some?))
      && (o.status != 0 ==>
            (o.status == 1 && o.echoes != []
             && o.echoes[|o.echoes| - 1] == (if FindByKey(idx, start).None? then StartMissing(start) else EndMissing(end.value))))
      && (FindByKey(idx, start).None? ==> o.echoes == [StartMissing(start)])
  {
  }

  /** A successful plain-text export echoes at least one line beyond the
      detected root: the start message is always among the exported ones. */
  lemma RunTextLines(data: seq<Json>, thread: Option<string>, start: string, end: Option<string>,
                     includeChildren: bool, depth: Option<int>, contextLimit: Option<int>, format: string)
    requires format != "markdown"
    ensures var o := Run(data, thread, start, end, includeChildren, depth, contextLimit, format);
      o.status == 0 ==> |o.echoes| > |Detected(MessageIndex(data), FindByKey(MessageIndex(data), start).value, thread)|
  {
    var idx := MessageIndex(data);
    var o := Run(data, thread, start, end, includeChildren, depth, contextLimit, format);
    if o.status == 0 {
      var hasEnd := end.Some? && end.value != "";
      FoundIsIndexed(idx, start);
      FoundIsIndexed(idx, if end.Some? then end.value else "");
      var s := FindByKey(idx, start).value;
      var e := if hasEnd then FindByKey(idx, end.value) else None;
      ExportHoldsStart(idx, s, e, includeChildren, depth, contextLimit);
    }
  }
}
