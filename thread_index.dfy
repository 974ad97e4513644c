/** The message index of the `partial` export command (extract.py): every
    mapping node of every conversation keyed by its id, the search for a
    start or end message, and the walk up the parent links to the thread
    root and the ancestor chain. */
module ThreadIndex {
  import opened Text
  import opened Options
  import opened JsonValue

  /** `messages`: node id to mapping node, keys in first-insertion order. */
  type Index = seq<(string, Json)>

  /** Every mapping node of every conversation, in order. */
  function Nodes(data: seq<Json>): seq<Json> {
    if data == [] then []
    else
      var mapping := data[|data| - 1].GetOr("mapping", Null);
      Nodes(data[..|data| - 1]) + (if mapping.Obj? then mapping.Values() else [])
  }

  /** The input the index is built from without raising: conversation dicts
      with a dict mapping of dict nodes. */
  predicate DataOk(data: seq<Json>) {
    forall k :: 0 <= k < |data| ==>
      data[k].Obj? && data[k].GetOr("mapping", Null).Obj?
      && forall j :: 0 <= j < |data[k].GetOr("mapping", Null).fields| ==> data[k].GetOr("mapping", Null).fields[j].1.Obj?
  }

  /** `m["id"]` for the string ids of an export. */
  function IdOf(node: Json): string {
    var id := node.GetOr("id", Null);
    if id.Str? then id.s else ""
  }

  /** The test the comprehension applies as written: `"message" in m`. */
  predicate HasMessageKey(node: Json) {
    node.Has("message")
  }

  /** The corrected test: the node carries a message dict. */
  predicate Carries(node: Json) {
    node.GetOr("message", Null).Obj?
  }

  function Lookup(idx: Index, key: string): (r: Option<Json>)
    ensures r.Some? <==> exists i :: 0 <= i < |idx| && idx[i].0 == key
    ensures r.Some? ==> exists i :: 0 <= i < |idx| && idx[i] == (key, r.value)
  {
    FieldValue(idx, key, 0)
  }

  predicate KeysDistinct(idx: Index) {
    forall i, j :: 0 <= i < j < |idx| ==> idx[i].0 != idx[j].0
  }

  /** Where the key sits, -1 when absent. */
  function KeyPos(idx: Index, key: string): (r: int)
    ensures -1 <= r < |idx|
    ensures r >= 0 ==> idx[r].0 == key
    ensures r == -1 ==> forall i :: 0 <= i < |idx| ==> idx[i].0 != key
  {
    if idx == [] then -1
    else if idx[|idx| - 1].0 == key then |idx| - 1
    else KeyPos(idx[..|idx| - 1], key)
  }

  /** `d[key] = v`: an existing key keeps its place, a new one goes last. */
  function Upsert(idx: Index, key: string, v: Json): Index {
    var p := KeyPos(idx, key);
    if p >= 0 then idx[p := (key, v)] else idx + [(key, v)]
  }

  /** The dict comprehension over the nodes `keep` admits. */
  function BuildIndex(nodes: seq<Json>, keep: Json -> bool): Index {
    if nodes == [] then []
    else
      var idx := BuildIndex(nodes[..|nodes| - 1], keep);
      var last := nodes[|nodes| - 1];
      if keep(last) then Upsert(idx, IdOf(last), last) else idx
  }

  /** Reference: the last admitted node with that id. */
  function LastWithId(nodes: seq<Json>, keep: Json -> bool, key: string): Option<Json> {
    if nodes == [] then None
    else
      var last := nodes[|nodes| - 1];
      if keep(last) && IdOf(last) == key then Some(last) else LastWithId(nodes[..|nodes| - 1], keep, key)
  }

  lemma LookupAt(idx: Index, i: nat)
    requires KeysDistinct(idx) && i < |idx|
    ensures Lookup(idx, idx[i].0) == Some(idx[i].1)
  {
    LookupFrom(idx, i, 0);
  }

  lemma {:induction false} LookupFrom(idx: Index, i: nat, j: nat)
    requires KeysDistinct(idx) && j <= i < |idx|
    ensures FieldValue(idx, idx[i].0, j) == Some(idx[i].1)
    decreases i - j
  {
    if j < i {
      assert idx[j].0 != idx[i].0;
      LookupFrom(idx, i, j + 1);
    }
  }

  lemma LookupMissing(idx: Index, key: string)
    requires forall i :: 0 <= i < |idx| ==> idx[i].0 != key
    ensures Lookup(idx, key) == None
  {
  }

  lemma UpsertLookup(idx: Index, key: string, v: Json, other: string)
    requires KeysDistinct(idx)
    ensures KeysDistinct(Upsert(idx, key, v))
    ensures Lookup(Upsert(idx, key, v), other) == if other == key then Some(v) else Lookup(idx, other)
  {
    var r := Upsert(idx, key, v);
    var p := KeyPos(idx, key);
    if other == key {
      LookupAt(r, if p >= 0 then p else |idx|);
    } else if Lookup(idx, other).Some? {
      var i :| 0 <= i < |idx| && idx[i] == (other, Lookup(idx, other).value);
      LookupAt(r, i);
    } else {
      LookupMissing(r, other);
    }
  }

  /** Looking a key up in the index gives the last admitted node with that
      id: a later duplicate replaces the value but keeps the first place. */
  lemma {:induction false} IndexHoldsLast(nodes: seq<Json>, keep: Json -> bool, key: string)
    ensures KeysDistinct(BuildIndex(nodes, keep))
    ensures Lookup(BuildIndex(nodes, keep), key) == LastWithId(nodes, keep, key)
  {
    if nodes != [] {
      var init := nodes[..|nodes| - 1];
      IndexHoldsLast(init, keep, key);
      if keep(nodes[|nodes| - 1]) {
        UpsertLookup(BuildIndex(init, keep), IdOf(nodes[|nodes| - 1]), nodes[|nodes| - 1], key);
      }
    }
  }

  /** Every entry is an admitted node stored under its own id. */
  lemma {:induction false} IndexEntriesAdmitted(nodes: seq<Json>, keep: Json -> bool)
    ensures forall i :: 0 <= i < |BuildIndex(nodes, keep)| ==>
      keep(BuildIndex(nodes, keep)[i].1) && IdOf(BuildIndex(nodes, keep)[i].1) == BuildIndex(nodes, keep)[i].0
  {
    if nodes != [] {
      IndexEntriesAdmitted(nodes[..|nodes| - 1], keep);
    }
  }

  /** The index the command works on. */
  function MessageIndex(data: seq<Json>): Index {
    BuildIndex(Nodes(data), Carries)
  }

  /** `msg["message"].get(key)` */
  function MessageField(node: Json, key: string): Json {
    node.GetOr("message", Null).GetOr(key, Null)
  }

  predicate Matches(node: Json, key: string) {
    MessageField(node, "id") == Str(key) || MessageField(node, "title") == Str(key)
  }

  /** The first position at or after `i` whose node satisfies `p`. */
  function FirstFrom(idx: Index, p: Json -> bool, i: nat): (r: nat)
    requires i <= |idx|
    ensures i <= r <= |idx|
    ensures r < |idx| ==> p(idx[r].1)
    ensures forall j :: i <= j < r ==> !p(idx[j].1)
    decreases |idx| - i
  {
    if i == |idx| then i
    else if p(idx[i].1) then i
    else FirstFrom(idx, p, i + 1)
  }

  function MatchesKey(key: string): Json -> bool {
    node => Matches(node, key)
  }

  /** `find_by_key(key)`: the first indexed node whose message has that id
      or title. */
  function FindByKey(idx: Index, key: string): (r: Option<Json>)
    ensures r.None? <==> forall i :: 0 <= i < |idx| ==> !Matches(idx[i].1, key)
    ensures r.Some? ==> exists i :: (0 <= i < |idx| && idx[i].1 == r.value && Matches(r.value, key)
      && forall j :: 0 <= j < i ==> !Matches(idx[j].1, key))
  {
    var p := FirstFrom(idx, MatchesKey(key), 0);
    if p < |idx| then Some(idx[p].1) else None
  }

  /** What `find_by_key` does as written: `msg["message"].get(...)` raises
      on an entry whose message is not a dict. */
  datatype Search = Found(node: Json) | Missing | Raises

  function FindAsWrittenFrom(idx: Index, key: string, i: nat): Search
    requires i <= |idx|
    decreases |idx| - i
  {
    if i == |idx| then Missing
    else if !idx[i].1.GetOr("message", Null).Obj? then Raises
    else if Matches(idx[i].1, key) then Found(idx[i].1)
    else FindAsWrittenFrom(idx, key, i + 1)
  }

  function FindByKeyAsWritten(idx: Index, key: string): Search {
    FindAsWrittenFrom(idx, key, 0)
  }

  /** The root node of an export carries `"message": null`; when it comes
      first in the mapping, every search raises before looking at any real
      message. */
  lemma NullRootBreaksSearch(root: Json, rest: seq<Json>, key: string)
    requires root.Obj? && root.Get("message") == Some(Null)
    requires forall k :: 0 <= k < |rest| ==> IdOf(rest[k]) != IdOf(root)
    ensures FindByKeyAsWritten(BuildIndex([root] + rest, HasMessageKey), key) == Raises
  {
    var nodes := [root] + rest;
    var idx := BuildIndex(nodes, HasMessageKey);
    IndexStartsWith(nodes, HasMessageKey);
    IndexHoldsLast(nodes, HasMessageKey, IdOf(root));
    LookupAt(idx, 0);
    OnlyFirstHasId(nodes, HasMessageKey);
  }

  /** The first admitted node's id is the first key of the index. */
  lemma {:induction false} IndexStartsWith(nodes: seq<Json>, keep: Json -> bool)
    requires nodes != [] && keep(nodes[0])
    ensures BuildIndex(nodes, keep) != [] && BuildIndex(nodes, keep)[0].0 == IdOf(nodes[0])
  {
    if |nodes| > 1 {
      var init := nodes[..|nodes| - 1];
      assert init[0] == nodes[0];
      IndexStartsWith(init, keep);
    }
  }

  /** A node whose id no later node shares is the last one with that id. */
  lemma {:induction false} OnlyFirstHasId(nodes: seq<Json>, keep: Json -> bool)
    requires nodes != [] && keep(nodes[0])
    requires forall k :: 0 < k < |nodes| ==> IdOf(nodes[k]) != IdOf(nodes[0])
    ensures LastWithId(nodes, keep, IdOf(nodes[0])) == Some(nodes[0])
  {
    if |nodes| > 1 {
      var init := nodes[..|nodes| - 1];
      assert init[0] == nodes[0];
      OnlyFirstHasId(init, keep);
    }
  }

  /** With the corrected index the search never raises, and it agrees with
      the as-written search. */
  lemma CorrectedSearchAgrees(idx: Index, key: string)
    requires forall i :: 0 <= i < |idx| ==> Carries(idx[i].1)
    ensures FindByKeyAsWritten(idx, key) != Raises
    ensures FindByKey(idx, key) == (if FindByKeyAsWritten(idx, key).Found? then Some(FindByKeyAsWritten(idx, key).node) else None)
  {
    SearchFromAgrees(idx, key, 0);
  }

  lemma {:induction false} SearchFromAgrees(idx: Index, key: string, i: nat)
    requires i <= |idx|
    requires forall j :: 0 <= j < |idx| ==> Carries(idx[j].1)
    ensures FindAsWrittenFrom(idx, key, i) ==
      if FirstFrom(idx, MatchesKey(key), i) < |idx| then Found(idx[FirstFrom(idx, MatchesKey(key), i)].1) else Missing
    decreases |idx| - i
  {
    if i < |idx| && !Matches(idx[i].1, key) {
      SearchFromAgrees(idx, key, i + 1);
    }
  }
  /** The indexed parent of a node: `node.get("parent")` when it is set and
      `in messages`. */
  function ParentOf(idx: Index, node: Json): Option<Json> {
    var p := node.GetOr("parent", Null);
    if p.Truthy() && p.Str? then Lookup(idx, p.s) else None
  }

  /** Where the walk up the parent links stops within `fuel` steps. */
  function Top(idx: Index, node: Json, fuel: nat): Json
    decreases fuel
  {
    if fuel == 0 || ParentOf(idx, node).None? then node
    else Top(idx, ParentOf(idx, node).value, fuel - 1)
  }

  /** The ancestors met within `fuel` steps, nearest first. */
  function Ancestors(idx: Index, node: Json, fuel: nat): seq<Json>
    decreases fuel
  {
    if fuel == 0 || ParentOf(idx, node).None? then []
    else [ParentOf(idx, node).value] + Ancestors(idx, ParentOf(idx, node).value, fuel - 1)
  }

  /** The parent chain of the node ends within as many steps as the index
      has entries, as it does whenever the parent links are acyclic. */
  predicate ChainEnds(idx: Index, node: Json) {
    ParentOf(idx, Top(idx, node, |idx|)).None?
  }

  /** The thread root auto-detection: follow indexed parents from the start
      message as long as there is one. */
  method DetectRoot(idx: Index, start: Json) returns (root: Json)
    requires ChainEnds(idx, start)
    ensures root == Top(idx, start, |idx|)
    ensures ParentOf(idx, root).None?
  {
    root := start;
    ghost var fuel: nat := |idx|;
    while ParentOf(idx, root).Some?
      invariant Top(idx, root, fuel) == Top(idx, start, |idx|)
      decreases fuel
    {
      root := ParentOf(idx, root).value;
      fuel := fuel - 1;
    }
  }

  function Reverse<T>(xs: seq<T>): (r: seq<T>)
    ensures |r| == |xs|
    ensures forall k :: 0 <= k < |xs| ==> r[k] == xs[|xs| - 1 - k]
  {
    if xs == [] then [] else [xs[|xs| - 1]] + Reverse(xs[..|xs| - 1])
  }

  /** `xs[:n]` for any integer `n`: a negative `n` drops that many from the end. */
  function SliceTo<T>(xs: seq<T>, n: int): (r: seq<T>)
    ensures n >= 0 ==> |r| == if n < |xs| then n else |xs|
    ensures n < 0 ==> |r| == if |xs| + n > 0 then |xs| + n else 0
    ensures |r| <= |xs| && r == xs[..|r|]
  {
    if n >= 0 then (if n < |xs| then xs[..n] else xs)
    else if |xs| + n > 0 then xs[..|xs| + n]
    else []
  }

  /** `xs[:limit] if limit else xs` */
  function Limited<T>(xs: seq<T>, limit: Option<int>): seq<T> {
    if limit.None? || limit.value == 0 then xs else SliceTo(xs, limit.value)
  }

  /** One step up: the chain from a node with a parent is that parent
      followed by the parent's chain. */
  lemma ClimbStep(idx: Index, node: Json, fuel: nat)
    requires ParentOf(idx, node).Some? && fuel > 0
    ensures Ancestors(idx, node, fuel) == [ParentOf(idx, node).value] + Ancestors(idx, ParentOf(idx, node).value, fuel - 1)
    ensures Top(idx, node, fuel) == Top(idx, ParentOf(idx, node).value, fuel - 1)
  {
  }

  /** One turn of the `get_parents` loop keeps its invariant; the chain
      ending in time guarantees steps are left. */
  lemma ClimbMaintained(idx: Index, msg: Json, parents: seq<Json>, current: Json, fuel: nat)
    requires ChainEnds(idx, msg)
    requires parents + Ancestors(idx, current, fuel) == Ancestors(idx, msg, |idx|)
    requires Top(idx, current, fuel) == Top(idx, msg, |idx|)
    requires ParentOf(idx, current).Some?
    ensures fuel > 0
    ensures (parents + [ParentOf(idx, current).value]) + Ancestors(idx, ParentOf(idx, current).value, fuel - 1)
            == Ancestors(idx, msg, |idx|)
    ensures Top(idx, ParentOf(idx, current).value, fuel - 1) == Top(idx, msg, |idx|)
  {
    var p := ParentOf(idx, current).value;
    ClimbStep(idx, current, fuel);
    assert (parents + [p]) + Ancestors(idx, p, fuel - 1) == parents + ([p] + Ancestors(idx, p, fuel - 1));
  }

  /** The `while` loop of `get_parents`: collect the ancestors, nearest first. */
  method Climb(idx: Index, msg: Json) returns (parents: seq<Json>)
    requires ChainEnds(idx, msg)
    ensures parents == Ancestors(idx, msg, |idx|)
  {
    parents := [];
    var current := msg;
    ghost var fuel: nat := |idx|;
    while ParentOf(idx, current).Some?
      invariant parents + Ancestors(idx, current, fuel) == Ancestors(idx, msg, |idx|)
      invariant Top(idx, current, fuel) == Top(idx, msg, |idx|)
      decreases fuel
    {
      var parent := ParentOf(idx, current).value;
      ClimbMaintained(idx, msg, parents, current, fuel);
      parents := parents + [parent];
      current := parent;
      fuel := fuel - 1;
    }
  }

  /** `get_parents(msg)`: the ancestors, root first, cut to the context limit. */
  method GetParents(idx: Index, msg: Json, contextLimit: Option<int>) returns (result: seq<Json>)
    requires ChainEnds(idx, msg)
    ensures result == Limited(Reverse(Ancestors(idx, msg, |idx|)), contextLimit)
  {
    var parents := Climb(idx, msg);
    result := Limited(Reverse(parents), contextLimit);
  }

  /** Each ancestor is the indexed parent of the one before it (of the node
      itself for the first). */
  lemma {:induction false} AncestorsLinked(idx: Index, node: Json, fuel: nat)
    decreases fuel
    ensures Ancestors(idx, node, fuel) != [] ==> ParentOf(idx, node) == Some(Ancestors(idx, node, fuel)[0])
    ensures forall k {:trigger ParentOf(idx, Ancestors(idx, node, fuel)[k])} :: 0 <= k < |Ancestors(idx, node, fuel)| - 1 ==>
      ParentOf(idx, Ancestors(idx, node, fuel)[k]) == Some(Ancestors(idx, node, fuel)[k + 1])
  {
    if fuel > 0 && ParentOf(idx, node).Some? {
      var p := ParentOf(idx, node).value;
      AncestorsLinked(idx, p, fuel - 1);
      var a := Ancestors(idx, node, fuel);
      var b := Ancestors(idx, p, fuel - 1);
      assert a == [p] + b;
      forall k | 0 <= k < |a| - 1 ensures ParentOf(idx, a[k]) == Some(a[k + 1]) {
        if k == 0 {
          assert a[0] == p && a[1] == b[0];
        } else {
          assert a[k] == b[k - 1] && a[k + 1] == b[k];
        }
      }
    }
  }

  /** The chain ends at the node the root walk stops at. */
  lemma {:induction false} AncestorsReachTop(idx: Index, node: Json, fuel: nat)
    decreases fuel
    ensures Ancestors(idx, node, fuel) == [] ==> Top(idx, node, fuel) == node
    ensures Ancestors(idx, node, fuel) != [] ==>
      Ancestors(idx, node, fuel)[|Ancestors(idx, node, fuel)| - 1] == Top(idx, node, fuel)
  {
    if fuel > 0 && ParentOf(idx, node).Some? {
      AncestorsReachTop(idx, ParentOf(idx, node).value, fuel - 1);
    }
  }

  /** Unless a negative limit cuts everything, the context starts at the
      thread root the auto-detection finds, and a positive limit keeps that
      many of the entries nearest the root. */
  lemma ParentsStartAtRoot(idx: Index, msg: Json, contextLimit: Option<int>)
    requires Ancestors(idx, msg, |idx|) != []
    requires contextLimit.None? || contextLimit.value >= 0
    ensures Limited(Reverse(Ancestors(idx, msg, |idx|)), contextLimit) != [] ==>
      Limited(Reverse(Ancestors(idx, msg, |idx|)), contextLimit)[0] == Top(idx, msg, |idx|)
    ensures contextLimit.Some? && contextLimit.value > 0 ==>
      Limited(Reverse(Ancestors(idx, msg, |idx|)), contextLimit) ==
        Reverse(Ancestors(idx, msg, |idx|))[..if contextLimit.value < |Ancestors(idx, msg, |idx|)| then contextLimit.value else |Ancestors(idx, msg, |idx|)|]
  {
    AncestorsReachTop(idx, msg, |idx|);
  }

  /** Every node of `s` has an indexed parent, and that parent is in `s`:
      a cycle of parent links the walk can never leave. */
  predicate ClosedUnderParent(idx: Index, s: seq<Json>) {
    forall m {:trigger ParentOf(idx, s[m])} :: 0 <= m < |s| ==> ParentOf(idx, s[m]).Some? && ParentOf(idx, s[m]).value in s
  }

  /** A walk that starts inside such a cycle stays in it and never stops. */
  lemma {:induction false} TopStaysIn(idx: Index, s: seq<Json>, x: Json, n: nat)
    requires ClosedUnderParent(idx, s) && x in s
    decreases n
    ensures Top(idx, x, n) in s && ParentOf(idx, Top(idx, x, n)).Some?
  {
    var m :| 0 <= m < |s| && s[m] == x;
    assert ParentOf(idx, s[m]).Some?;
    if n > 0 {
      var p := ParentOf(idx, x).value;
      TopStaysIn(idx, s, p, n - 1);
      assert Top(idx, x, n) == Top(idx, p, n - 1);
    }
  }

  /** After `i + 1` steps the walk continues from the `i`-th ancestor. */
  lemma {:induction false} TopAt(idx: Index, node: Json, fuel: nat, i: nat)
    requires i < |Ancestors(idx, node, fuel)|
    decreases fuel
    ensures i < fuel && Top(idx, node, fuel) == Top(idx, Ancestors(idx, node, fuel)[i], fuel - i - 1)
  {
    if i > 0 {
      TopAt(idx, ParentOf(idx, node).value, fuel - 1, i - 1);
    }
  }

  /** On a chain that ends, the message is not among its own ancestors. */
  lemma NotOwnAncestor(idx: Index, msg: Json)
    requires ChainEnds(idx, msg)
    ensures msg !in Ancestors(idx, msg, |idx|)
  {
    var a := Ancestors(idx, msg, |idx|);
    if k :| 0 <= k < |a| && a[k] == msg {
      AncestorsLinked(idx, msg, |idx|);
      var s := [msg] + a[..k];
      forall m | 0 <= m < |s|
        ensures ParentOf(idx, s[m]).Some? && ParentOf(idx, s[m]).value in s
      {
        if m == 0 {
          assert ParentOf(idx, msg) == Some(a[0]);
          if k > 0 { assert s[1] == a[0]; }
        } else {
          assert s[m] == a[m - 1];
          if m < k { assert s[m + 1] == a[m]; }
        }
      }
      TopStaysIn(idx, s, msg, |idx|);
      assert false;
    }
  }

  /** In a chain of parent links, the stretch between two equal entries
      is a cycle. */
  lemma CycleOfRepeat(idx: Index, a: seq<Json>, i: nat, j: nat)
    requires i < j < |a| && a[i] == a[j]
    requires forall k {:trigger ParentOf(idx, a[k])} :: 0 <= k < |a| - 1 ==> ParentOf(idx, a[k]) == Some(a[k + 1])
    ensures ClosedUnderParent(idx, a[i..j])
  {
    var s := a[i..j];
    forall m | 0 <= m < |s|
      ensures ParentOf(idx, s[m]).Some? && ParentOf(idx, s[m]).value in s
    {
      assert s[m] == a[i + m];
      assert ParentOf(idx, a[i + m]) == Some(a[i + m + 1]);
      if i + m + 1 < j { assert s[m + 1] == a[i + m + 1]; } else { assert s[0] == a[i]; }
    }
  }

  /** On a chain that ends, no ancestor is listed twice. */
  lemma AncestorsDistinct(idx: Index, msg: Json)
    requires ChainEnds(idx, msg)
    ensures forall i, j :: 0 <= i < j < |Ancestors(idx, msg, |idx|)| ==>
      Ancestors(idx, msg, |idx|)[i] != Ancestors(idx, msg, |idx|)[j]
  {
    var a := Ancestors(idx, msg, |idx|);
    if i, j :| 0 <= i < j < |a| && a[i] == a[j] {
      RepeatNeverStops(idx, msg, i, j);
      assert false;
    }
  }

  /** A walk whose ancestors repeat goes round a cycle and never stops. */
  lemma RepeatNeverStops(idx: Index, msg: Json, i: nat, j: nat)
    requires i < j < |Ancestors(idx, msg, |idx|)|
    requires Ancestors(idx, msg, |idx|)[i] == Ancestors(idx, msg, |idx|)[j]
    ensures ParentOf(idx, Top(idx, msg, |idx|)).Some?
  {
    TopAt(idx, msg, |idx|, i);
    RepeatedNeverStops(idx, msg, i, j, |idx| - i - 1);
  }

  /** From a repeated ancestor the walk never stops. */
  lemma RepeatedNeverStops(idx: Index, msg: Json, i: nat, j: nat, n: nat)
    requires i < j < |Ancestors(idx, msg, |idx|)|
    requires Ancestors(idx, msg, |idx|)[i] == Ancestors(idx, msg, |idx|)[j]
    ensures ParentOf(idx, Top(idx, Ancestors(idx, msg, |idx|)[i], n)).Some?
  {
    var a := Ancestors(idx, msg, |idx|);
    RepeatCycle(idx, msg, i, j);
    CycleNeverStops(idx, a[i..j], a[i], n);
  }

  lemma RepeatCycle(idx: Index, msg: Json, i: nat, j: nat)
    requires i < j < |Ancestors(idx, msg, |idx|)|
    requires Ancestors(idx, msg, |idx|)[i] == Ancestors(idx, msg, |idx|)[j]
    ensures ClosedUnderParent(idx, Ancestors(idx, msg, |idx|)[i..j])
    ensures Ancestors(idx, msg, |idx|)[i] in Ancestors(idx, msg, |idx|)[i..j]
  {
    var a := Ancestors(idx, msg, |idx|);
    AncestorsLinked(idx, msg, |idx|);
    CycleOfRepeat(idx, a, i, j);
    assert a[i..j][0] == a[i];
  }

  lemma CycleNeverStops(idx: Index, s: seq<Json>, x: Json, n: nat)
    requires ClosedUnderParent(idx, s) && x in s
    ensures ParentOf(idx, Top(idx, x, n)).Some?
  {
    TopStaysIn(idx, s, x, n);
  }

  /** The context `get_parents` returns never holds the message itself and
      never repeats an entry, whatever the limit. */
  lemma ParentsExcludeMessage(idx: Index, msg: Json, contextLimit: Option<int>)
    requires ChainEnds(idx, msg)
    ensures msg !in Limited(Reverse(Ancestors(idx, msg, |idx|)), contextLimit)
    ensures forall i, j :: 0 <= i < j < |Limited(Reverse(Ancestors(idx, msg, |idx|)), contextLimit)| ==>
      Limited(Reverse(Ancestors(idx, msg, |idx|)), contextLimit)[i] != Limited(Reverse(Ancestors(idx, msg, |idx|)), contextLimit)[j]
  {
    NotOwnAncestor(idx, msg);
    AncestorsDistinct(idx, msg);
    LimitedReverseDistinct(Ancestors(idx, msg, |idx|), msg, contextLimit);
  }

  /** Reversing and cutting a list without repeats and without `x` leaves
      a list without repeats and without `x`. */
  lemma LimitedReverseDistinct<T>(a: seq<T>, x: T, limit: Option<int>)
    requires x !in a
    requires forall i, j :: 0 <= i < j < |a| ==> a[i] != a[j]
    ensures x !in Limited(Reverse(a), limit)
    ensures forall i, j :: 0 <= i < j < |Limited(Reverse(a), limit)| ==>
      Limited(Reverse(a), limit)[i] != Limited(Reverse(a), limit)[j]
  {
    var r := Limited(Reverse(a), limit);
    assert r == Reverse(a)[..|r|];
    forall i, j | 0 <= i < j < |r|
      ensures r[i] != r[j]
    {
      assert r[i] == a[|a| - 1 - i] && r[j] == a[|a| - 1 - j];
    }
    forall k | 0 <= k < |r|
      ensures r[k] != x
    {
      assert r[k] == a[|a| - 1 - k];
    }
  }
}
