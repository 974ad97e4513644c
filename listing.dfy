/** Finding conversations and messages by title, building the records a
    listing shows (`collect_conv`), ordering them (`sort_conv`) and cutting a
    list into batches (`get_batch_list`), all in utils.py. */
module Listing {
  import opened Text
  import opened Options
  import opened JsonValue
  import opened Sorting
  import opened Messages
  import opened Definitions

  /** `conv.get("title") == title` */
  predicate TitleIs(conv: Json, title: string) {
    conv.Get("title") == Some(Str(title))
  }

  /** The conversations `find_by_title` reads: up to and including the first
      match, each a dict. */
  predicate TitleScanOk(convs: seq<Json>, title: string) {
    TitleScanFrom(convs, title, 0)
  }

  predicate TitleScanFrom(convs: seq<Json>, title: string, from: nat)
    requires from <= |convs|
    decreases |convs| - from
  {
    from == |convs| || (convs[from].Obj? && (TitleIs(convs[from], title) || TitleScanFrom(convs, title, from + 1)))
  }

  /** `find_by_title(conversations, title)`: the first conversation with that
      title, `None` when there is none. */
  function FindByTitle(convs: seq<Json>, title: string): (r: Option<Json>)
    requires TitleScanOk(convs, title)
    ensures r.Some? ==> exists k :: 0 <= k < |convs| && convs[k] == r.value && TitleIs(convs[k], title)
                                      && forall j :: 0 <= j < k ==> !TitleIs(convs[j], title)
    ensures r.None? ==> forall k :: 0 <= k < |convs| ==> !TitleIs(convs[k], title)
  {
    FindTitleFrom(convs, title, 0)
  }

  /** The scan of `find_by_title` from position `from` on. */
  function FindTitleFrom(convs: seq<Json>, title: string, from: nat): (r: Option<Json>)
    requires from <= |convs| && TitleScanFrom(convs, title, from)
    decreases |convs| - from
    ensures r.Some? ==> exists k :: from <= k < |convs| && convs[k] == r.value && TitleIs(convs[k], title)
                                      && forall j :: from <= j < k ==> !TitleIs(convs[j], title)
    ensures r.None? ==> forall k :: from <= k < |convs| ==> !TitleIs(convs[k], title)
  {
    if from == |convs| then None
    else if TitleIs(convs[from], title) then Some(convs[from])
    else FindTitleFrom(convs, title, from + 1)
  }

  /** The title in a node's message metadata, `None` when absent. */
  function MessageTitle(node: Json): Json {
    node.GetOr("message", Obj([])).GetOr("metadata", Obj([])).GetOr("title", Null)
  }

  /** The title, lower-cased, contains the searched text, lower-cased. */
  predicate TitleHit(node: Json, title: string) {
    var t := MessageTitle(node);
    t.Truthy() && t.Str? && Contains(Lower(t.s), Lower(title))
  }

  /** A node `find_msg_by_title` can read: a dict whose message (if any) and
      metadata (if any) are dicts and whose truthy title is a string. */
  predicate NodeReadable(node: Json) {
    node.Obj? && node.GetOr("message", Obj([])).Obj?
    && node.GetOr("message", Obj([])).GetOr("metadata", Obj([])).Obj?
    && (MessageTitle(node).Truthy() ==> MessageTitle(node).Str?)
  }

  predicate MsgScanOk(nodes: seq<(string, Json)>, title: string) {
    MsgScanFrom(nodes, title, 0)
  }

  predicate MsgScanFrom(nodes: seq<(string, Json)>, title: string, from: nat)
    requires from <= |nodes|
    decreases |nodes| - from
  {
    from == |nodes|
    || (NodeReadable(nodes[from].1) && (TitleHit(nodes[from].1, title) || MsgScanFrom(nodes, title, from + 1)))
  }

  /** `find_msg_by_title(mapping, title)`: the id of the first node whose
      message title contains `title`, ignoring case. */
  function FindMsgByTitle(nodes: seq<(string, Json)>, title: string): (r: Option<string>)
    requires MsgScanOk(nodes, title)
    ensures r.Some? ==> exists k :: 0 <= k < |nodes| && nodes[k].0 == r.value && TitleHit(nodes[k].1, title)
                                      && forall j :: 0 <= j < k ==> !TitleHit(nodes[j].1, title)
    ensures r.None? ==> forall k :: 0 <= k < |nodes| ==> !TitleHit(nodes[k].1, title)
  {
    var hit := (node: Json) => TitleHit(node, title);
    var r := FirstKeyWhere(nodes, hit, 0);
    assert forall k :: 0 <= k < |nodes| ==> hit(nodes[k].1) == TitleHit(nodes[k].1, title);
    r
  }

  /** The key of the first entry from position `from` on whose value
      satisfies `hit`. */
  function FirstKeyWhere(nodes: seq<(string, Json)>, hit: Json -> bool, from: nat): (r: Option<string>)
    requires from <= |nodes|
    decreases |nodes| - from
    ensures r.Some? ==> exists k :: from <= k < |nodes| && nodes[k].0 == r.value && hit(nodes[k].1)
                                      && forall j :: from <= j < k ==> !hit(nodes[j].1)
    ensures r.None? ==> forall k :: from <= k < |nodes| ==> !hit(nodes[k].1)
  {
    if from == |nodes| then None
    else if hit(nodes[from].1) then Some(nodes[from].0)
    else FirstKeyWhere(nodes, hit, from + 1)
  }

  /** The conversations found for the titles, in title order; titles with no
      match are passed over. */
  function Selected(convs: seq<Json>, titles: seq<string>): seq<Json>
    requires forall k :: 0 <= k < |titles| ==> TitleScanOk(convs, titles[k])
  {
    if titles == [] then []
    else
      var found := FindByTitle(convs, titles[|titles| - 1]);
      Selected(convs, titles[..|titles| - 1]) + (if found.Some? then [found.value] else [])
  }

  /** The number of user turns `thread_msg_count` reports for a
      conversation it accepts (0 stands for the others, which `CollectConv`
      never receives). */
  function MsgCount(conv: Json, skip: bool, loads: Parser): nat {
    if Convertible(conv, skip, loads) then UserCount(Turns(MessagesOf(conv), skip, loads)) else 0
  }

  /** The record `collect_conv` builds for one conversation. */
  function Record(conv: Json, skip: bool, loads: Parser, dateOf: Json -> string): Conversation {
    Conversation(Or(conv.GetOr("title", Null), conv.GetOr("name", Str("Untitled"))), dateOf(conv),
                 MsgCount(conv, skip, loads), conv)
  }

  predicate AllConvertible(convs: seq<Json>, skip: bool, loads: Parser) {
    forall k :: 0 <= k < |convs| ==> Convertible(convs[k], skip, loads)
  }

  function RecordFn(skip: bool, loads: Parser, dateOf: Json -> string): Json -> Conversation {
    conv => Record(conv, skip, loads, dateOf)
  }

  /** One record per conversation, in order. */
  function Records(convs: seq<Json>, skip: bool, loads: Parser, dateOf: Json -> string): (r: seq<Conversation>)
    ensures |r| == |convs|
    ensures forall k :: 0 <= k < |convs| ==> r[k] == Record(convs[k], skip, loads, dateOf)
  {
    Map(convs, RecordFn(skip, loads, dateOf))
  }

  /** Every conversation a title search could return is in the list. */
  lemma {:induction false} SelectedFromList(convs: seq<Json>, titles: seq<string>)
    requires forall k :: 0 <= k < |titles| ==> TitleScanOk(convs, titles[k])
    ensures |Selected(convs, titles)| <= |titles|
    ensures forall k :: 0 <= k < |Selected(convs, titles)| ==> Selected(convs, titles)[k] in convs
    ensures forall k :: 0 <= k < |Selected(convs, titles)| ==>
      exists j :: 0 <= j < |titles| && TitleIs(Selected(convs, titles)[k], titles[j])
  {
    if titles != [] {
      var init := titles[..|titles| - 1];
      SelectedFromList(convs, init);
      var s := Selected(convs, titles);
      forall k | 0 <= k < |s|
        ensures exists j :: 0 <= j < |titles| && TitleIs(s[k], titles[j])
      {
        if k < |Selected(convs, init)| {
          var j :| 0 <= j < |init| && TitleIs(s[k], init[j]);
          assert titles[j] == init[j];
        } else {
          assert TitleIs(s[k], titles[|titles| - 1]);
        }
      }
    }
  }

  /** The first loop of `collect_conv`: the conversations the titles find,
      or all of them when no title is given. The console report of a title
      not found is left out. */
  method SelectConv(convs: seq<Json>, titles: seq<string>) returns (coll: seq<Json>)
    requires forall k :: 0 <= k < |titles| ==> TitleScanOk(convs, titles[k])
    ensures coll == if titles != [] then Selected(convs, titles) else convs
  {
    coll := [];
    if |titles| > 0 {
      for i := 0 to |titles|
        invariant coll == Selected(convs, titles[..i])
      {
        assert titles[..i + 1][..i] == titles[..i];
        var verified := FindByTitle(convs, titles[i]);
        if verified.None? {
          continue;
        }
        coll := coll + [verified.value];
      }
      assert titles[..|titles|] == titles;
    } else {
      coll := convs;
    }
  }

  /** `collect_conv(conversations, titles, skip_system)`: one record per
      selected conversation, each with its title (or name, or "Untitled"),
      creation date, user-turn count and the conversation itself. */
  method CollectConv(convs: seq<Json>, titles: seq<string>, skipSystem: bool, loads: Parser,
                     dateOf: Json -> string)
    returns (objs: seq<Conversation>)
    requires forall k :: 0 <= k < |titles| ==> TitleScanOk(convs, titles[k])
    requires AllConvertible(if titles != [] then Selected(convs, titles) else convs, skipSystem, loads)
    ensures objs == Records(if titles != [] then Selected(convs, titles) else convs, skipSystem, loads, dateOf)
    ensures var coll := if titles != [] then Selected(convs, titles) else convs;
      |objs| == |coll| && forall k :: 0 <= k < |objs| ==> ToDict(objs[k]) == coll[k]
  {
    var coll := SelectConv(convs, titles);
    objs := [];
    for i := 0 to |coll|
      invariant objs == Records(coll[..i], skipSystem, loads, dateOf)
    {
      MapSnoc(coll, i, RecordFn(skipSystem, loads, dateOf));
      var conv := coll[i];
      assert Convertible(conv, skipSystem, loads);
      var count := ThreadMsgCount(conv, "", skipSystem, loads);
      objs := objs + [Conversation(Or(conv.GetOr("title", Null), conv.GetOr("name", Str("Untitled"))),
                                   dateOf(conv), count, conv)];
    }
    assert coll[..|coll|] == coll;
    RecordsBack(coll, skipSystem, loads, dateOf);
  }

  /** Record by record, `to_dict` returns the conversation it was built from. */
  lemma RecordsBack(convs: seq<Json>, skip: bool, loads: Parser, dateOf: Json -> string)
    ensures var r := Records(convs, skip, loads, dateOf);
      |r| == |convs| && forall k :: 0 <= k < |r| ==> ToDict(r[k]) == convs[k]
  {
    var r := Records(convs, skip, loads, dateOf);
    forall k | 0 <= k < |r| ensures ToDict(r[k]) == convs[k] {
      assert r[k] == Record(convs[k], skip, loads, dateOf);
    }
  }

  /** `to_dict` gives back, record by record, the conversations the records
      were built from. */
  lemma RecordsToDict(convs: seq<Json>, skip: bool, loads: Parser, dateOf: Json -> string)
    ensures var r := Records(convs, skip, loads, dateOf);
      seq(|r|, k requires 0 <= k < |r| => ToDict(r[k])) == convs
  {
    var r := Records(convs, skip, loads, dateOf);
    var back := seq(|r|, k requires 0 <= k < |r| => ToDict(r[k]));
    RecordsBack(convs, skip, loads, dateOf);
    assert forall k :: 0 <= k < |convs| ==> back[k] == convs[k];
  }

  /** The sort key of a record: its title, its count, or its parsed
      creation date (an unparsable one standing below every date). */
  function SortKey(c: Conversation, field: SortField, parseTs: string -> Option<int>): Key {
    match field
    case CountField => Number(c.count)
    case CreatedField => Instant(parseTs(c.created))
    case _ => Text(if c.title.Str? then c.title.s else [])
  }

  function KeyOf(field: SortField, parseTs: string -> Option<int>): Conversation -> Key {
    c => SortKey(c, field, parseTs)
  }

  /** `sort_conv(data, sort, order)`: unchanged for no sort; otherwise
      Python's stable `sorted` by the field, reversed for descending order. */
  function SortConv(data: seq<Conversation>, field: SortField, order: SortOrder,
                    parseTs: string -> Option<int>): seq<Conversation>
    requires field == TitleField ==> forall k :: 0 <= k < |data| ==> data[k].title.Str?
  {
    if field != NoSort then SortBy(data, KeyOf(field, parseTs), order == Desc) else data
  }

  /** Sorted output is a permutation of the input, ordered by the key
      (descending for `desc`), with records of equal key in input order. */
  lemma SortConvCorrect(data: seq<Conversation>, field: SortField, order: SortOrder,
                        parseTs: string -> Option<int>)
    requires field == TitleField ==> forall k :: 0 <= k < |data| ==> data[k].title.Str?
    ensures var r := SortConv(data, field, order, parseTs);
      && (field == NoSort ==> r == data)
      && multiset(r) == multiset(data)
      && (field != NoSort ==> SortedBy(r, KeyOf(field, parseTs), order == Desc))
      && (field != NoSort ==> forall k :: WithKey(r, KeyOf(field, parseTs), k) == WithKey(data, KeyOf(field, parseTs), k))
  {
    if field != NoSort {
      SortByCorrect(data, KeyOf(field, parseTs), order == Desc);
    }
  }

  /** Sorting by creation date in ascending order puts every record whose
      date does not parse before every record whose date does. */
  lemma UnparsableFirst(data: seq<Conversation>, parseTs: string -> Option<int>, i: nat, j: nat)
    requires i < j < |SortConv(data, CreatedField, Asc, parseTs)|
    requires parseTs(SortConv(data, CreatedField, Asc, parseTs)[j].created).None?
    ensures parseTs(SortConv(data, CreatedField, Asc, parseTs)[i].created).None?
  {
    SortConvCorrect(data, CreatedField, Asc, parseTs);
    var r := SortConv(data, CreatedField, Asc, parseTs);
    assert Before(KeyOf(CreatedField, parseTs)(r[i]), KeyOf(CreatedField, parseTs)(r[j]), false);
  }

  /** `list(get_batch_list(lst, chunk_size))`: `None` where `range` raises
      (a zero step); no chunk for a negative size. */
  function Batches<T>(lst: seq<T>, size: int): (r: Option<seq<seq<T>>>)
    ensures r.None? <==> size == 0
    decreases |lst|
  {
    if size == 0 then None
    else if size < 0 || lst == [] then Some([])
    else if |lst| <= size then Some([lst])
    else Some([lst[..size]] + Batches(lst[size..], size).value)
  }

  /** For a positive size the chunks put back together give the list. */
  lemma {:induction false} BatchesConcat<T>(lst: seq<T>, size: int)
    requires size > 0
    ensures Flatten(Batches(lst, size).value) == lst
    decreases |lst|
  {
    var chunks := Batches(lst, size).value;
    if |lst| > size {
      BatchesConcat(lst[size..], size);
      FlattenCons(lst[..size], Batches(lst[size..], size).value);
      assert lst[..size] + lst[size..] == lst;
    } else if lst != [] {
      var none: seq<seq<T>> := [];
      assert chunks == [lst] && chunks[..0] == none;
    }
  }

  /** No chunk is empty, each holds at most `size` items, and each but the
      last exactly `size`. */
  lemma {:induction false} BatchesSizes<T>(lst: seq<T>, size: int)
    requires size > 0
    ensures forall k :: 0 <= k < |Batches(lst, size).value| ==> 0 < |Batches(lst, size).value[k]| <= size
    ensures forall k :: 0 <= k < |Batches(lst, size).value| - 1 ==> |Batches(lst, size).value[k]| == size
    decreases |lst|
  {
    if |lst| > size {
      BatchesSizes(lst[size..], size);
      var rest := Batches(lst[size..], size).value;
      var chunks := [lst[..size]] + rest;
      assert Batches(lst, size).value == chunks;
      forall k | 0 <= k < |chunks|
        ensures 0 < |chunks[k]| <= size && (k < |chunks| - 1 ==> |chunks[k]| == size)
      {
        if k > 0 {
          assert chunks[k] == rest[k - 1];
        }
      }
    }
  }

  /** There are `ceil(len(lst) / size)` chunks: just enough to hold the list. */
  lemma {:induction false} BatchesCount<T>(lst: seq<T>, size: int)
    requires size > 0
    ensures var n := |Batches(lst, size).value|;
      |lst| <= n * size < |lst| + size
    decreases |lst|
  {
    if |lst| > size {
      BatchesCount(lst[size..], size);
      var m := |Batches(lst[size..], size).value|;
      assert |Batches(lst, size).value| == m + 1;
      assert (m + 1) * size == m * size + size;
    }
  }

  lemma {:induction false} FlattenCons<T>(x: seq<T>, xs: seq<seq<T>>)
    ensures Flatten([x] + xs) == x + Flatten(xs)
    decreases |xs|
  {
    if xs == [] {
      assert [x] + xs == [x];
      var none: seq<seq<T>> := [];
      assert [x][..0] == none;
    } else {
      var init := xs[..|xs| - 1];
      FlattenCons(x, init);
      assert ([x] + xs)[..|xs|] == [x] + init;
    }
  }

  /** A negative size gives no chunks. */
  lemma BatchesNegative<T>(lst: seq<T>, size: int)
    requires size < 0
    ensures Batches(lst, size) == Some([])
  {
  }
}
