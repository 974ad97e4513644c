/** Finding JSON written inline in message text and re-rendering it as fenced
    blocks (`looks_like_json`, `extract_json_fragments`, `replace_inline_json`
    and the fenced-code split inside `stringify_part`, all in utils.py). */
module InlineJson {
  import opened Text
  import opened Options
  import opened JsonValue

  /** `looks_like_json`: after stripping, the text starts with '{' and ends
      with '}', or starts with '[' and ends with ']'. */
  predicate LooksLikeJson(s: string) {
    var t := Strip(s);
    (StartsWith(t, "{") && EndsWith(t, "}")) || (StartsWith(t, "[") && EndsWith(t, "]"))
  }

  predicate IsOpener(c: char) { c == '{' || c == '[' }
  predicate IsCloser(c: char) { c == '}' || c == ']' }

  function Closer(c: char): char { if c == '{' then '}' else ']' }

  /** The stripped text looks like JSON exactly when it opens with a
      bracket and ends with the matching one, so it has at least two
      characters: a lone "{" does not qualify. */
  lemma LooksLikeJsonShape(s: string)
    ensures LooksLikeJson(s) <==>
      var t := Strip(s); t != [] && IsOpener(t[0]) && t[|t| - 1] == Closer(t[0])
    ensures LooksLikeJson(s) ==> |Strip(s)| >= 2
  {
    var t := Strip(s);
    StartsWithChar(t, '{');
    StartsWithChar(t, '[');
    EndsWithChar(t, '}');
    EndsWithChar(t, ']');
  }

  lemma StartsWithChar(t: string, c: char)
    ensures StartsWith(t, [c]) <==> t != [] && t[0] == c
  {
    if t != [] { assert t[..1] == [t[0]]; }
  }

  lemma EndsWithChar(t: string, c: char)
    ensures EndsWith(t, [c]) <==> t != [] && t[|t| - 1] == c
  {
    if t != [] { assert t[|t| - 1..] == [t[|t| - 1]]; }
  }


  /** The openers still waiting for their closer after reading `s` from
      the pending openers `st` (innermost last), or None as soon as a closer
      does not close the innermost pending opener. */
  function Unclosed(st: seq<char>, s: string): Option<seq<char>>
    decreases |s|
  {
    if s == [] then Some(st)
    else if IsOpener(s[0]) then Unclosed(st + [s[0]], s[1..])
    else if IsCloser(s[0]) then
      if st != [] && Closer(st[|st| - 1]) == s[0] then Unclosed(st[..|st| - 1], s[1..]) else None
    else Unclosed(st, s[1..])
  }

  /** Brackets nest by kind: `s` is a sequence of non-bracket characters and
      bracketed groups, each an opener, a nested inside and its own closer. */
  predicate Nested(s: string)
    decreases |s|
  {
    if s == [] then true
    else if IsOpener(s[0]) then
      exists j {:trigger Nested(s[1..j])} ::
        1 <= j < |s| && s[j] == Closer(s[0]) && Nested(s[1..j]) && Nested(s[j + 1..])
    else !IsCloser(s[0]) && Nested(s[1..])
  }

  /** One bracketed group: an opener, a nested inside, and the closer of
      that opener's kind. */
  predicate Group(s: string) {
    |s| >= 2 && IsOpener(s[0]) && s[|s| - 1] == Closer(s[0]) && Nested(s[1..|s| - 1])
  }

  /** `s` closes the pending openers `st`, innermost first, each after a
      nested stretch, and ends with a nested stretch. */
  predicate Closes(st: seq<char>, s: string)
    decreases |st|
  {
    if st == [] then Nested(s)
    else
      exists j {:trigger Nested(s[..j])} ::
        0 <= j < |s| && s[j] == Closer(st[|st| - 1]) && Nested(s[..j]) && Closes(st[..|st| - 1], s[j + 1..])
  }

  /** Reading `x + y` is reading `x`, then `y` from where `x` left off. */
  lemma {:induction false} UnclosedConcat(st: seq<char>, x: string, y: string)
    decreases |x|
    ensures Unclosed(st, x + y) == if Unclosed(st, x).None? then None else Unclosed(Unclosed(st, x).value, y)
  {
    if x != [] {
      assert (x + y)[0] == x[0] && (x + y)[1..] == x[1..] + y;
      if IsOpener(x[0]) {
        UnclosedConcat(st + [x[0]], x[1..], y);
      } else if IsCloser(x[0]) {
        if st != [] && Closer(st[|st| - 1]) == x[0] {
          UnclosedConcat(st[..|st| - 1], x[1..], y);
        }
      } else {
        UnclosedConcat(st, x[1..], y);
      }
    } else {
      assert x + y == y;
    }
  }

  /** Reading one more character. */
  lemma UnclosedSnoc(st: seq<char>, x: string, c: char)
    ensures Unclosed(st, x + [c]) ==
      if Unclosed(st, x).None? then None
      else
        var p := Unclosed(st, x).value;
        if IsOpener(c) then Some(p + [c])
        else if IsCloser(c) then (if p != [] && Closer(p[|p| - 1]) == c then Some(p[..|p| - 1]) else None)
        else Some(p)
  {
    UnclosedConcat(st, x, [c]);
    assert [c][1..] == [];
  }

  /** A nested stretch leaves the pending openers as they were. */
  lemma {:induction false} NestedKeeps(st: seq<char>, s: string)
    requires Nested(s)
    decreases |s|
    ensures Unclosed(st, s) == Some(st)
  {
    if s != [] {
      if IsOpener(s[0]) {
        var j :| 1 <= j < |s| && s[j] == Closer(s[0]) && Nested(s[1..j]) && Nested(s[j + 1..]);
        NestedKeeps(st + [s[0]], s[1..j]);
        NestedKeeps(st, s[j + 1..]);
        GroupKeeps(st, s, j);
      } else {
        NestedKeeps(st, s[1..]);
      }
    }
  }

  /** A group closed at `j` that leaves the pending openers as they were,
      followed by a stretch that does too. */
  lemma GroupKeeps(st: seq<char>, s: string, j: nat)
    requires s != [] && IsOpener(s[0]) && 1 <= j < |s| && s[j] == Closer(s[0])
    requires Unclosed(st + [s[0]], s[1..j]) == Some(st + [s[0]])
    requires Unclosed(st, s[j + 1..]) == Some(st)
    ensures Unclosed(st, s) == Some(st)
  {
    var o := s[0];
    assert s[1..] == s[1..j] + s[j..];
    UnclosedConcat(st + [o], s[1..j], s[j..]);
    assert s[j..][0] == s[j] && s[j..][1..] == s[j + 1..];
    assert (st + [o])[..|st|] == st;
  }

  /** A nested stretch, then the closer of the innermost pending opener at
      `j`, then a stretch closing the others: `s` closes `st`. */
  lemma ClosesIntro(st: seq<char>, s: string, j: nat)
    requires st != [] && j < |s| && s[j] == Closer(st[|st| - 1])
    requires Nested(s[..j]) && Closes(st[..|st| - 1], s[j + 1..])
    ensures Closes(st, s)
  {
  }

  /** A non-bracket character in front keeps `Closes`. */
  lemma ClosesPrepend(st: seq<char>, s: string)
    requires s != [] && !IsOpener(s[0]) && !IsCloser(s[0]) && Closes(st, s[1..])
    ensures Closes(st, s)
  {
    if st != [] {
      var x := s[1..];
      var j :| 0 <= j < |x| && x[j] == Closer(st[|st| - 1]) && Nested(x[..j]) && Closes(st[..|st| - 1], x[j + 1..]);
      assert s[..j + 1][1..] == x[..j];
      assert Nested(s[..j + 1]);
      assert s[j + 2..] == x[j + 1..];
      ClosesIntro(st, s, j + 1);
    }
  }

  /** An opener, a nested inside closed at `j` by its own closer, and a
      nested rest: `s` is nested. */
  lemma NestedIntro(s: string, j: nat)
    requires s != [] && IsOpener(s[0]) && 1 <= j < |s| && s[j] == Closer(s[0])
    requires Nested(s[1..j]) && Nested(s[j + 1..])
    ensures Nested(s)
  {
  }

  /** A group closed at `j`, followed by a stretch that closes `st`, closes
      `st`. */
  lemma ClosesAfterGroup(st: seq<char>, s: string, j: nat)
    requires s != [] && IsOpener(s[0]) && 1 <= j < |s| && s[j] == Closer(s[0])
    requires Nested(s[1..j]) && Closes(st, s[j + 1..])
    ensures Closes(st, s)
  {
    if st == [] {
      NestedIntro(s, j);
    } else {
      var rest := s[j + 1..];
      var k :| 0 <= k < |rest| && rest[k] == Closer(st[|st| - 1]) && Nested(rest[..k]) && Closes(st[..|st| - 1], rest[k + 1..]);
      GroupThenCloseIn(st, s, j, k);
    }
  }

  /** `GroupThenClose` with the closing point given within `s[j + 1..]`. */
  lemma GroupThenCloseIn(st: seq<char>, s: string, j: nat, k: nat)
    requires st != [] && s != [] && IsOpener(s[0]) && 1 <= j < |s| && s[j] == Closer(s[0]) && Nested(s[1..j])
    requires var rest := s[j + 1..];
      k < |rest| && rest[k] == Closer(st[|st| - 1]) && Nested(rest[..k]) && Closes(st[..|st| - 1], rest[k + 1..])
    ensures Closes(st, s)
  {
    var rest := s[j + 1..];
    assert rest[..k] == s[j + 1..j + 1 + k] && rest[k] == s[j + 1 + k] && rest[k + 1..] == s[j + 2 + k..];
    GroupThenClose(st, s, j, j + 1 + k);
  }

  /** A group closed at `j`, a nested stretch up to `e`, and at `e` the
      closer of the innermost pending opener. */
  lemma GroupThenClose(st: seq<char>, s: string, j: nat, e: nat)
    requires st != [] && s != [] && IsOpener(s[0]) && 1 <= j < e < |s| && s[j] == Closer(s[0])
    requires Nested(s[1..j]) && Nested(s[j + 1..e])
    requires s[e] == Closer(st[|st| - 1]) && Closes(st[..|st| - 1], s[e + 1..])
    ensures Closes(st, s)
  {
    var p := s[..e];
    assert p[1..j] == s[1..j] && p[j + 1..] == s[j + 1..e];
    NestedIntro(p, j);
    ClosesIntro(st, s, e);
  }

  /** An opener in front of a stretch that closes it and then `st` gives
      a stretch that closes `st`. */
  lemma ClosesAfterOpener(st: seq<char>, s: string)
    requires s != [] && IsOpener(s[0]) && Closes(st + [s[0]], s[1..])
    ensures Closes(st, s)
  {
    var c := s[0];
    var t := s[1..];
    var j :| 0 <= j < |t| && t[j] == Closer(c) && Nested(t[..j]) && Closes((st + [c])[..|st|], t[j + 1..]);
    assert (st + [c])[..|st|] == st;
    assert s[1..j + 1] == t[..j] && s[j + 1] == t[j] && s[j + 2..] == t[j + 1..];
    ClosesAfterGroup(st, s, j + 1);
  }

  /** Reading `s` from `st` down to no pending opener means `s` closes `st`. */
  lemma {:induction false} UnclosedCloses(st: seq<char>, s: string)
    requires Unclosed(st, s) == Some([])
    decreases |s|
    ensures Closes(st, s)
  {
    if s != [] {
      var c := s[0];
      if IsOpener(c) {
        UnclosedCloses(st + [c], s[1..]);
        ClosesAfterOpener(st, s);
      } else if IsCloser(c) {
        UnclosedCloses(st[..|st| - 1], s[1..]);
        assert s[..0] == [];
        ClosesIntro(st, s, 0);
      } else {
        UnclosedCloses(st, s[1..]);
        ClosesPrepend(st, s);
      }
    }
  }

  /** The stack reading and the grammar agree: a string nests by kind
      exactly when reading it from no pending opener ends with none. */
  lemma NestedIffUnclosed(s: string)
    ensures Nested(s) <==> Unclosed([], s) == Some([])
  {
    if Nested(s) {
      NestedKeeps([], s);
    }
    if Unclosed([], s) == Some([]) {
      UnclosedCloses([], s);
    }
  }

  /** Reading a stretch that ends well never meets a mismatched closer: each
      closer closes the innermost opener still pending before it. */
  lemma CloserMatches(st: seq<char>, s: string, m: nat)
    requires Unclosed(st, s).Some? && m < |s| && IsCloser(s[m])
    ensures Unclosed(st, s[..m]).Some?
    ensures var p := Unclosed(st, s[..m]).value; p != [] && Closer(p[|p| - 1]) == s[m]
  {
    assert s == s[..m] + s[m..];
    UnclosedConcat(st, s[..m], s[m..]);
  }

  /** One reported fragment: `(start, end, snippet)` with `snippet == text[start:end]`. */
  datatype Fragment = Fragment(start: nat, end: nat, snippet: string)

  /** The scanner's variables: the bracket stack (top last), the start of the
      open fragment, and the fragments reported so far. */
  datatype ScanState = ScanState(stack: seq<char>, open: Option<nat>, found: seq<Fragment>)

  /** What the scan loop does with character `i`. */
  function Step(text: string, i: nat, st: ScanState): ScanState
    requires i < |text|
  {
    var ch := text[i];
    if IsOpener(ch) then
      ScanState(st.stack + [ch], if st.stack == [] then Some(i) else st.open, st.found)
    else if IsCloser(ch) then
      if st.stack == [] then st
      else
        var opening := st.stack[|st.stack| - 1];
        var rest := st.stack[..|st.stack| - 1];
        if (opening == '{' && ch != '}') || (opening == '[' && ch != ']') then
          ScanState([], None, st.found)
        // `st.open.value <= i` always holds here (see OpenOk); it only makes the slice well defined
        else if rest == [] && st.open.Some? && st.open.value <= i then
          ScanState(rest, None, st.found + [Fragment(st.open.value, i + 1, text[st.open.value..i + 1])])
        else
          ScanState(rest, st.open, st.found)
    else st
  }

  /** The scanner's state after the first `n` characters. */
  function Scan(text: string, n: nat): ScanState
    requires n <= |text|
  {
    if n == 0 then ScanState([], None, []) else Step(text, n - 1, Scan(text, n - 1))
  }

  /** `extract_json_fragments(text)` */
  function Fragments(text: string): seq<Fragment> {
    Scan(text, |text|).found
  }

  /** `extract_json_fragments`: one pass over the text with a stack of open
      brackets; a mismatched closer clears the stack and forgets the open
      fragment, and a fragment is reported when its first opener is closed. */
  method ExtractJsonFragments(text: string) returns (results: seq<Fragment>)
    ensures results == Fragments(text)
  {
    results := [];
    var stack: seq<char> := [];
    var startIdx: Option<nat> := None;
    var i := 0;
    while i < |text|
      invariant i <= |text|
      invariant ScanState(stack, startIdx, results) == Scan(text, i)
    {
      var ch := text[i];
      if ch == '{' || ch == '[' {
        if stack == [] {
          startIdx := Some(i);
        }
        stack := stack + [ch];
      } else if ch == '}' || ch == ']' {
        if stack != [] {
          var opening := stack[|stack| - 1];
          stack := stack[..|stack| - 1];
          if (opening == '{' && ch != '}') || (opening == '[' && ch != ']') {
            stack := [];
            startIdx := None;
          } else if stack == [] && startIdx.Some? && startIdx.value <= i {
            results := results + [Fragment(startIdx.value, i + 1, text[startIdx.value..i + 1])];
            startIdx := None;
          }
        }
      }
      i := i + 1;
    }
  }

  /** A fragment as reported: in bounds, its snippet is the text it spans,
      and that snippet is one bracketed group, opening with '{' or '[' and
      closing with the matching bracket, with brackets nested by kind inside. */
  predicate GoodFragment(text: string, f: Fragment) {
    f.start < f.end <= |text| && f.snippet == text[f.start..f.end] && Group(f.snippet)
  }

  /** Fragments in strictly increasing, non-overlapping order, all before `n`. */
  predicate Ordered(frags: seq<Fragment>, n: nat) {
    (forall j :: 0 <= j < |frags| ==> frags[j].start < frags[j].end <= n)
    && (forall j :: 0 <= j < |frags| - 1 ==> frags[j].end <= frags[j + 1].start)
  }

  /** The open part of the scanner state after `n` characters: the stack is
      exactly the openers of `text[a..n]` still unclosed, where `a` is the
      open fragment's first opener, and it has not emptied since `a`. */
  predicate OpenOk(text: string, n: nat, st: ScanState) {
    (st.open.Some? <==> st.stack != [])
    && (forall k :: 0 <= k < |st.stack| ==> IsOpener(st.stack[k]))
    && (st.open.Some? ==>
          var a := st.open.value;
          a < n <= |text| && IsOpener(text[a]) && Unclosed([], text[a..n]) == Some(st.stack)
          && forall k :: a < k <= n ==> Unclosed([], text[a..k]) != Some([]))
  }

  /** The reported part of the scanner state after `n` characters. */
  predicate FoundOk(text: string, n: nat, st: ScanState) {
    (forall j :: 0 <= j < |st.found| ==> GoodFragment(text, st.found[j]))
    && Ordered(st.found, n)
    && (st.open.Some? && st.found != [] ==> st.found[|st.found| - 1].end <= st.open.value)
  }

  /** Reading `text[a..k + 1]` is reading `text[a..k]`, then `text[k]`. */
  lemma UnclosedStep(text: string, a: nat, k: nat)
    requires a <= k < |text|
    ensures Unclosed([], text[a..k + 1]) ==
      if Unclosed([], text[a..k]).None? then None
      else
        var p := Unclosed([], text[a..k]).value;
        if IsOpener(text[k]) then Some(p + [text[k]])
        else if IsCloser(text[k]) then (if p != [] && Closer(p[|p| - 1]) == text[k] then Some(p[..|p| - 1]) else None)
        else Some(p)
  {
    assert text[a..k + 1] == text[a..k] + [text[k]];
    UnclosedSnoc([], text[a..k], text[k]);
  }

  /** Reading an opener first pushes it. */
  lemma UnclosedOpen(s: string)
    requires s != [] && IsOpener(s[0])
    ensures Unclosed([], s) == Unclosed([s[0]], s[1..])
  {
    assert [] + [s[0]] == [s[0]];
  }

  /** When the opener's group closes at `j + 1`, nothing is pending after
      `s[..j + 2]`. */
  lemma EarlyEmpty(s: string, j: nat)
    requires s != [] && IsOpener(s[0]) && j + 2 <= |s| && s[j + 1] == Closer(s[0]) && Nested(s[1..j + 1])
    ensures Unclosed([], s[..j + 2]) == Some([])
  {
    var p := s[..j + 2];
    UnclosedOpen(p);
    assert p[1..] == s[1..j + 1] + [s[j + 1]];
    NestedKeeps([s[0]], s[1..j + 1]);
    UnclosedSnoc([s[0]], s[1..j + 1], s[j + 1]);
  }

  /** A string that opens with a bracket and first has nothing pending at
      its end is one bracketed group. */
  lemma GroupOfFirstEmpty(s: string)
    requires s != [] && IsOpener(s[0]) && Unclosed([], s) == Some([])
    requires forall k :: 0 < k < |s| ==> Unclosed([], s[..k]) != Some([])
    ensures Group(s)
  {
    var o := s[0];
    var t := s[1..];
    UnclosedOpen(s);
    UnclosedCloses([o], t);
    var j :| 0 <= j < |t| && t[j] == Closer(o) && Nested(t[..j]) && Closes([o][..0], t[j + 1..]);
    if j + 1 < |t| {
      assert t[..j] == s[1..j + 1] && t[j] == s[j + 1];
      EarlyEmpty(s, j);
      assert false;
    } else {
      assert s[1..|s| - 1] == t[..j];
    }
  }

  /** The stretch from an opener to the first point where nothing is left
      pending is one bracketed group. */
  lemma GroupOfFirstClose(text: string, a: nat, e: nat)
    requires a < e <= |text| && IsOpener(text[a])
    requires Unclosed([], text[a..e]) == Some([])
    requires forall k :: a < k < e ==> Unclosed([], text[a..k]) != Some([])
    ensures Group(text[a..e])
  {
    var s := text[a..e];
    forall k | 0 < k < |s| ensures Unclosed([], s[..k]) != Some([]) {
      assert s[..k] == text[a..a + k];
    }
    GroupOfFirstEmpty(s);
  }

  lemma StepOpener(text: string, i: nat, st: ScanState)
    requires i < |text| && IsOpener(text[i])
    requires OpenOk(text, i, st) && FoundOk(text, i, st)
    ensures OpenOk(text, i + 1, Step(text, i, st)) && FoundOk(text, i + 1, Step(text, i, st))
  {
    if st.stack == [] {
      StepOpenerFresh(text, i, st);
    } else {
      StepOpenerPush(text, i, st);
    }
  }

  /** An opener with nothing pending opens a new fragment. */
  lemma StepOpenerFresh(text: string, i: nat, st: ScanState)
    requires i < |text| && IsOpener(text[i]) && st.stack == []
    requires OpenOk(text, i, st) && FoundOk(text, i, st)
    ensures OpenOk(text, i + 1, Step(text, i, st)) && FoundOk(text, i + 1, Step(text, i, st))
  {
    var st' := ScanState([text[i]], Some(i), st.found);
    assert Step(text, i, st) == st';
    assert text[i..i + 1] == [text[i]] && [] + [text[i]] == [text[i]];
    assert Unclosed([], text[i..i + 1]) == Some([text[i]]);
    assert OpenOk(text, i + 1, st');
  }

  /** An opener inside the open fragment is pushed. */
  lemma StepOpenerPush(text: string, i: nat, st: ScanState)
    requires i < |text| && IsOpener(text[i]) && st.stack != []
    requires OpenOk(text, i, st) && FoundOk(text, i, st)
    ensures OpenOk(text, i + 1, Step(text, i, st)) && FoundOk(text, i + 1, Step(text, i, st))
  {
    var a := st.open.value;
    assert Step(text, i, st) == ScanState(st.stack + [text[i]], st.open, st.found);
    UnclosedStep(text, a, i);
  }

  lemma StepOther(text: string, i: nat, st: ScanState)
    requires i < |text| && !IsOpener(text[i]) && !IsCloser(text[i])
    requires OpenOk(text, i, st) && FoundOk(text, i, st)
    ensures OpenOk(text, i + 1, Step(text, i, st)) && FoundOk(text, i + 1, Step(text, i, st))
  {
    if st.open.Some? {
      UnclosedStep(text, st.open.value, i);
    }
  }

  lemma StepCloseInner(text: string, i: nat, st: ScanState)
    requires i < |text| && IsCloser(text[i]) && |st.stack| > 1
    requires Closer(st.stack[|st.stack| - 1]) == text[i]
    requires OpenOk(text, i, st) && FoundOk(text, i, st)
    ensures OpenOk(text, i + 1, Step(text, i, st)) && FoundOk(text, i + 1, Step(text, i, st))
  {
    var a := st.open.value;
    var rest := st.stack[..|st.stack| - 1];
    var st' := ScanState(rest, st.open, st.found);
    assert Step(text, i, st) == st';
    UnclosedStep(text, a, i);
    assert Unclosed([], text[a..i + 1]) == Some(rest);
    assert forall k :: 0 <= k < |rest| ==> IsOpener(rest[k]) by {
      forall k | 0 <= k < |rest| ensures IsOpener(rest[k]) {
        assert rest[k] == st.stack[k];
      }
    }
    forall k | a < k <= i + 1 ensures Unclosed([], text[a..k]) != Some([]) {
      if k <= i {
        assert Unclosed([], text[a..k]) != Some([]);
      }
    }
    assert OpenOk(text, i + 1, st');
    assert FoundOk(text, i + 1, st');
  }

  lemma StepCloseOuter(text: string, i: nat, st: ScanState)
    requires i < |text| && IsCloser(text[i]) && |st.stack| == 1
    requires Closer(st.stack[0]) == text[i]
    requires OpenOk(text, i, st) && FoundOk(text, i, st)
    ensures OpenOk(text, i + 1, Step(text, i, st)) && FoundOk(text, i + 1, Step(text, i, st))
  {
    var a := st.open.value;
    var f := Fragment(a, i + 1, text[a..i + 1]);
    assert Step(text, i, st) == ScanState([], None, st.found + [f]);
    UnclosedStep(text, a, i);
    GroupOfFirstClose(text, a, i + 1);
    FoundAppend(text, st.found, i, f);
  }

  /** Reporting a well-formed fragment after the ones already reported
      keeps them well formed and in order. */
  lemma FoundAppend(text: string, found: seq<Fragment>, n: nat, f: Fragment)
    requires forall j :: 0 <= j < |found| ==> GoodFragment(text, found[j])
    requires Ordered(found, n) && n <= f.end
    requires found != [] ==> found[|found| - 1].end <= f.start
    requires GoodFragment(text, f)
    ensures forall j :: 0 <= j < |found + [f]| ==> GoodFragment(text, (found + [f])[j])
    ensures Ordered(found + [f], f.end)
  {
    var r := found + [f];
    forall j | 0 <= j < |r| ensures GoodFragment(text, r[j]) && r[j].start < r[j].end <= f.end {
      if j < |found| { assert r[j] == found[j]; }
    }
    forall j | 0 <= j < |r| - 1 ensures r[j].end <= r[j + 1].start {
      if j + 1 < |found| { assert r[j] == found[j] && r[j + 1] == found[j + 1]; }
      else { assert r[j] == found[|found| - 1]; }
    }
  }

  lemma StepClose(text: string, i: nat, st: ScanState)
    requires i < |text| && IsCloser(text[i])
    requires OpenOk(text, i, st) && FoundOk(text, i, st)
    ensures OpenOk(text, i + 1, Step(text, i, st)) && FoundOk(text, i + 1, Step(text, i, st))
  {
    if st.stack != [] {
      var opening := st.stack[|st.stack| - 1];
      var ch := text[i];
      if (opening == '{' && ch != '}') || (opening == '[' && ch != ']') {
      } else if |st.stack| == 1 {
        StepCloseOuter(text, i, st);
      } else {
        StepCloseInner(text, i, st);
      }
    }
  }

  /** One step of the scan keeps both halves of the invariant. */
  lemma StepInvariant(text: string, n: nat)
    requires 0 < n <= |text|
    requires OpenOk(text, n - 1, Scan(text, n - 1)) && FoundOk(text, n - 1, Scan(text, n - 1))
    ensures OpenOk(text, n, Scan(text, n)) && FoundOk(text, n, Scan(text, n))
  {
    var i := n - 1;
    var st := Scan(text, i);
    assert Scan(text, n) == Step(text, i, st);
    var ch := text[i];
    if IsOpener(ch) {
      StepOpener(text, i, st);
    } else if IsCloser(ch) {
      StepClose(text, i, st);
    } else {
      StepOther(text, i, st);
    }
  }

  lemma {:induction false} ScanInvariant(text: string, n: nat)
    requires n <= |text|
    ensures OpenOk(text, n, Scan(text, n)) && FoundOk(text, n, Scan(text, n))
  {
    if n > 0 {
      ScanInvariant(text, n - 1);
      StepInvariant(text, n);
    }
  }

  /** Every reported fragment spans its snippet and is one bracketed group
      nested by kind (so an unclosed fragment at the end is never reported);
      fragments come in strictly increasing, non-overlapping order. */
  lemma FragmentsWellFormed(text: string)
    ensures forall j :: 0 <= j < |Fragments(text)| ==> GoodFragment(text, Fragments(text)[j])
    ensures Ordered(Fragments(text), |text|)
  {
    ScanInvariant(text, |text|);
  }

  /** Inside a reported fragment every closer closes the innermost opener
      still pending before it: no fragment spans a mismatched closer. */
  lemma FragmentClosersMatch(text: string, j: nat, k: nat)
    requires j < |Fragments(text)|
    requires Fragments(text)[j].start <= k < Fragments(text)[j].end && k < |text| && IsCloser(text[k])
    ensures Unclosed([], text[Fragments(text)[j].start..k]).Some?
    ensures var p := Unclosed([], text[Fragments(text)[j].start..k]).value;
      p != [] && Closer(p[|p| - 1]) == text[k]
  {
    var f := Fragments(text)[j];
    FragmentGood(text, j);
    GroupClosers(f.snippet, k - f.start);
    assert f.snippet[..k - f.start] == text[f.start..k];
  }

  lemma FragmentGood(text: string, j: nat)
    requires j < |Fragments(text)|
    ensures GoodFragment(text, Fragments(text)[j])
  {
    FragmentsWellFormed(text);
  }

  /** Inside one bracketed group every closer closes the innermost opener
      still pending before it. */
  lemma GroupClosers(s: string, m: nat)
    requires Group(s) && m < |s| && IsCloser(s[m])
    ensures Unclosed([], s[..m]).Some?
    ensures var p := Unclosed([], s[..m]).value; p != [] && Closer(p[|p| - 1]) == s[m]
  {
    assert s[|s| - 1 + 1..] == [];
    NestedIntro(s, |s| - 1);
    NestedKeeps([], s);
    CloserMatches([], s, m);
  }

  /** One step of the scan reports at most one fragment, starting where the
      open one started, and the open fragment is kept, dropped, or opened at
      this character. */
  lemma ScanGrowsStep(text: string, n: nat)
    requires n < |text|
    ensures var st := Scan(text, n); var st' := Scan(text, n + 1);
      && (st'.found == st.found
          || (st.open.Some? && |st'.found| == |st.found| + 1 && st'.found[..|st.found|] == st.found
              && st'.found[|st.found|].start == st.open.value))
      && (st'.open.None? || st'.open == st.open || st'.open == Some(n))
  {
    var st := Scan(text, n);
    assert Scan(text, n + 1) == Step(text, n, st);
    if IsCloser(text[n]) && st.stack != [] {
      var f := Step(text, n, st).found;
      if f != st.found {
        assert f[..|st.found|] == st.found;
      }
    }
  }

  /** What the scan has reported stays reported, and whatever it reports
      later starts at or after the fragment open after `m` characters (at
      or after `m` when none is open). */
  lemma {:induction false} ScanGrows(text: string, m: nat, n: nat)
    requires m <= n <= |text|
    decreases n
    ensures |Scan(text, m).found| <= |Scan(text, n).found|
    ensures Scan(text, n).found[..|Scan(text, m).found|] == Scan(text, m).found
    ensures var bound := if Scan(text, m).open.Some? then Scan(text, m).open.value else m;
      && (Scan(text, n).open.Some? ==> Scan(text, n).open.value >= bound)
      && forall j :: |Scan(text, m).found| <= j < |Scan(text, n).found| ==> Scan(text, n).found[j].start >= bound
  {
    if n > m {
      OpenBefore(text, m);
      ScanGrows(text, m, n - 1);
      ScanGrowsStep(text, n - 1);
      var bound := if Scan(text, m).open.Some? then Scan(text, m).open.value else m;
      FoundExtends(Scan(text, m).found, Scan(text, n - 1).found, Scan(text, n).found, bound);
    }
  }

  /** The open fragment started before the characters read so far. */
  lemma OpenBefore(text: string, n: nat)
    requires n <= |text|
    ensures Scan(text, n).open.Some? ==> Scan(text, n).open.value < n
  {
    ScanInvariant(text, n);
  }

  /** Extending a list of fragments by at most one that starts at or after
      `bound` keeps its prefix and the bound on what follows the prefix. */
  lemma FoundExtends(a: seq<Fragment>, prev: seq<Fragment>, cur: seq<Fragment>, bound: int)
    requires |a| <= |prev| && prev[..|a|] == a
    requires forall j :: |a| <= j < |prev| ==> prev[j].start >= bound
    requires cur == prev || (|cur| == |prev| + 1 && cur[..|prev|] == prev && cur[|prev|].start >= bound)
    ensures |a| <= |cur| && cur[..|a|] == a
    ensures forall j :: |a| <= j < |cur| ==> cur[j].start >= bound
  {
    if cur != prev {
      assert cur[..|a|] == cur[..|prev|][..|a|];
      forall j | |a| <= j < |cur| ensures cur[j].start >= bound {
        if j < |prev| { assert cur[j] == cur[..|prev|][j]; }
      }
    }
  }

  /** A closer that does not close the innermost pending opener discards
      the open fragment: the stack is emptied, nothing is reported, and no
      reported fragment starts at that fragment's opener or spans the
      mismatched closer. */
  lemma MismatchDiscards(text: string, i: nat)
    requires i < |text| && IsCloser(text[i]) && Scan(text, i).stack != []
    requires Closer(Scan(text, i).stack[|Scan(text, i).stack| - 1]) != text[i]
    ensures Scan(text, i + 1) == ScanState([], None, Scan(text, i).found)
    ensures Scan(text, i).open.Some?
    ensures forall j :: 0 <= j < |Fragments(text)| ==>
      Fragments(text)[j].start != Scan(text, i).open.value
      && !(Fragments(text)[j].start <= i < Fragments(text)[j].end)
  {
    MismatchStep(text, i);
    forall j | 0 <= j < |Fragments(text)|
      ensures Fragments(text)[j].start != Scan(text, i).open.value
      ensures !(Fragments(text)[j].start <= i < Fragments(text)[j].end)
    {
      MismatchFragment(text, i, j);
    }
  }

  /** The mismatched closer resets the scanner state. */
  lemma MismatchStep(text: string, i: nat)
    requires i < |text| && IsCloser(text[i]) && Scan(text, i).stack != []
    requires Closer(Scan(text, i).stack[|Scan(text, i).stack| - 1]) != text[i]
    ensures Scan(text, i + 1) == ScanState([], None, Scan(text, i).found)
    ensures Scan(text, i).open.Some? && Scan(text, i).open.value < i
  {
    ScanInvariant(text, i);
    assert Scan(text, i + 1) == Step(text, i, Scan(text, i));
  }

  /** One reported fragment lies wholly before the discarded one, or wholly
      after the mismatched closer. */
  lemma MismatchFragment(text: string, i: nat, j: nat)
    requires i < |text| && Scan(text, i + 1) == ScanState([], None, Scan(text, i).found)
    requires Scan(text, i).open.Some?
    requires j < |Fragments(text)|
    ensures Fragments(text)[j].start < Scan(text, i).open.value || Fragments(text)[j].start > i
    ensures !(Fragments(text)[j].start <= i < Fragments(text)[j].end)
  {
    var st := Scan(text, i);
    ScanGrows(text, i + 1, |text|);
    if j < |st.found| {
      var frags := Fragments(text);
      assert frags[j] == frags[..|st.found|][j] == st.found[j];
      FoundBeforeOpen(text, i, j);
    }
  }

  /** A fragment reported before the open one ends at or before its start. */
  lemma FoundBeforeOpen(text: string, i: nat, j: nat)
    requires i <= |text| && Scan(text, i).open.Some? && j < |Scan(text, i).found|
    ensures Scan(text, i).found[j].start < Scan(text, i).found[j].end <= Scan(text, i).open.value
    ensures Scan(text, i).found[j].end <= i
  {
    ScanOrdered(text, i);
    OrderedPrefixEnd(Scan(text, i).found, i, j);
  }

  /** The reported fragments are in order and end before the open one. */
  lemma ScanOrdered(text: string, i: nat)
    requires i <= |text|
    ensures Ordered(Scan(text, i).found, i)
    ensures Scan(text, i).open.Some? && Scan(text, i).found != [] ==>
      Scan(text, i).found[|Scan(text, i).found| - 1].end <= Scan(text, i).open.value
  {
    ScanInvariant(text, i);
  }

  /** In an ordered list whose last fragment ends before the open one, every
      fragment ends at or before it. */
  lemma OrderedPrefixEnd(found: seq<Fragment>, n: nat, j: nat)
    requires Ordered(found, n) && j < |found|
    decreases |found| - j
    ensures found[j].end <= found[|found| - 1].end
  {
    if j < |found| - 1 {
      OrderedPrefixEnd(found, n, j + 1);
    }
  }

  /** Fragments that lie inside `text` at or after `last`, in order, each
      spanning its snippet. */
  predicate Spans(text: string, frags: seq<Fragment>, last: nat) {
    last <= |text|
    && (forall j :: 0 <= j < |frags| ==>
          frags[j].start <= frags[j].end <= |text| && frags[j].snippet == text[frags[j].start..frags[j].end])
    && (forall j :: 0 <= j < |frags| - 1 ==> frags[j].end <= frags[j + 1].start)
    && (frags != [] ==> last <= frags[0].start)
  }

  lemma FragmentsSpan(text: string)
    ensures Spans(text, Fragments(text), 0)
  {
    FragmentsWellFormed(text);
  }

  /** `json.loads(snippet)` succeeds with something other than `None`. */
  predicate Parses(loads: Parser, snippet: string) {
    loads(snippet).Some? && !loads(snippet).value.Null?
  }

  /** A fragment's replacement: a fenced, pretty-printed JSON block when the
      snippet parses, the snippet itself otherwise. */
  function Render(f: Fragment, loads: Parser): string {
    if Parses(loads, f.snippet) then "\n```json\n" + Dumps(loads(f.snippet).value, Some(2)) + "\n```\n"
    else f.snippet
  }

  /** The text from `last` on, with each fragment replaced by its rendering
      and everything between fragments copied. */
  function Splice(text: string, frags: seq<Fragment>, last: nat, loads: Parser): string
    requires Spans(text, frags, last)
    decreases |frags|
  {
    if frags == [] then text[last..]
    else
      var f := frags[0];
      assert Spans(text, frags[1..], f.end);
      text[last..f.start] + Render(f, loads) + Splice(text, frags[1..], f.end, loads)
  }

  /** `replace_inline_json(text)` */
  function ReplaceInline(text: string, loads: Parser): string {
    var frags := Fragments(text);
    if frags == [] then text
    else
      FragmentsSpan(text);
      Splice(text, frags, 0, loads)
  }

  lemma SpliceStep(text: string, frags: seq<Fragment>, k: nat, last: nat, loads: Parser)
    requires k < |frags| && Spans(text, frags[k..], last)
    ensures Spans(text, frags[k + 1..], frags[k].end)
    ensures Splice(text, frags[k..], last, loads)
      == text[last..frags[k].start] + Render(frags[k], loads) + Splice(text, frags[k + 1..], frags[k].end, loads)
  {
    assert frags[k..][1..] == frags[k + 1..];
  }

  lemma Regroup(a: string, b: string, c: string, d: string)
    ensures a + (b + c + d) == (a + b + c) + d
  {
  }

  lemma ConcatSnoc(parts: seq<string>, x: string)
    ensures Concat(parts + [x]) == Concat(parts) + x
  {
    assert (parts + [x])[..|parts|] == parts;
  }

  /** `replace_inline_json`: copy the text before each fragment, then either
      the pretty-printed JSON or the snippet as it was, then the rest. */
  method ReplaceInlineJson(text: string, loads: Parser) returns (r: string)
    ensures r == ReplaceInline(text, loads)
  {
    var fragments := ExtractJsonFragments(text);
    if fragments == [] {
      return text;
    }
    FragmentsSpan(text);
    var out: seq<string> := [];
    assert fragments[0..] == fragments;
    var last: nat := 0;
    var k := 0;
    while k < |fragments|
      invariant k <= |fragments|
      invariant Spans(text, fragments[k..], last)
      invariant Concat(out) + Splice(text, fragments[k..], last, loads) == Splice(text, fragments, 0, loads)
    {
      var f := fragments[k];
      SpliceStep(text, fragments, k, last, loads);
      ghost var before := Concat(out);
      var gap := text[last..f.start];
      ConcatSnoc(out, gap);
      out := out + [gap];
      var obj := loads(f.snippet);
      var piece;
      if obj.Some? && !obj.value.Null? {
        piece := "\n```json\n" + Dumps(obj.value, Some(2)) + "\n```\n";
      } else {
        piece := f.snippet;
      }
      assert piece == Render(f, loads);
      ConcatSnoc(out, piece);
      out := out + [piece];
      assert Concat(out) == before + gap + piece;
      Regroup(before, gap, piece, Splice(text, fragments[k + 1..], f.end, loads));
      last := f.end;
      k := k + 1;
    }
    ConcatSnoc(out, text[last..]);
    out := out + [text[last..]];
    r := Concat(out);
  }

  /** One step of `Splice`: the gap before the first fragment, its
      rendering, then the splice of the rest. */
  lemma SpliceHead(text: string, frags: seq<Fragment>, last: nat, loads: Parser)
    requires Spans(text, frags, last) && frags != []
    ensures Spans(text, frags[1..], frags[0].end)
    ensures last <= frags[0].start <= frags[0].end <= |text|
    ensures Splice(text, frags, last, loads)
      == text[last..frags[0].start] + Render(frags[0], loads) + Splice(text, frags[1..], frags[0].end, loads)
  {
    assert Spans(text, frags[1..], frags[0].end);
  }

  lemma SliceJoin(text: string, a: nat, b: nat, c: nat)
    requires a <= b <= c <= |text|
    ensures text[a..b] + text[b..c] + text[c..] == text[a..]
  {
  }

  lemma EndsWithAfter(pre: string, tail: string, suffix: string)
    requires EndsWith(tail, suffix)
    ensures EndsWith(pre + tail, suffix)
  {
    assert (pre + tail)[|pre + tail| - |suffix|..] == tail[|tail| - |suffix|..];
  }

  lemma {:induction false} SpliceUnparsed(text: string, frags: seq<Fragment>, last: nat, loads: Parser)
    requires Spans(text, frags, last)
    requires forall j :: 0 <= j < |frags| ==> !Parses(loads, frags[j].snippet)
    ensures Splice(text, frags, last, loads) == text[last..]
    decreases |frags|
  {
    if frags != [] {
      var f := frags[0];
      SpliceHead(text, frags, last, loads);
      SpliceUnparsed(text, frags[1..], f.end, loads);
      assert Render(f, loads) == text[f.start..f.end];
      SliceJoin(text, last, f.start, f.end);
    }
  }

  /** No fragment the scan finds parses as a non-null JSON value. */
  predicate NoInlineJson(text: string, loads: Parser) {
    forall j :: 0 <= j < |Fragments(text)| ==> !Parses(loads, Fragments(text)[j].snippet)
  }

  /** When no fragment is found, or none of them parses, the text comes back
      unchanged. */
  lemma ReplaceInlineIdentity(text: string, loads: Parser)
    requires NoInlineJson(text, loads)
    ensures ReplaceInline(text, loads) == text
  {
    if Fragments(text) != [] {
      FragmentsSpan(text);
      SpliceUnparsed(text, Fragments(text), 0, loads);
    }
  }

  lemma {:induction false} SpliceKeepsTail(text: string, frags: seq<Fragment>, last: nat, loads: Parser)
    requires Spans(text, frags, last) && frags != []
    ensures EndsWith(Splice(text, frags, last, loads), text[frags[|frags| - 1].end..])
    decreases |frags|
  {
    var f := frags[0];
    SpliceHead(text, frags, last, loads);
    var rest := Splice(text, frags[1..], f.end, loads);
    if |frags| > 1 {
      SpliceKeepsTail(text, frags[1..], f.end, loads);
      assert frags[1..][|frags| - 2] == frags[|frags| - 1];
    } else {
      assert rest == text[f.end..];
    }
    EndsWithAfter(text[last..f.start] + Render(f, loads), rest, text[frags[|frags| - 1].end..]);
  }

  /** The text before the first fragment and after the last one is copied
      verbatim to the start and the end of the result. */
  lemma ReplaceInlineKeepsEnds(text: string, loads: Parser)
    requires Fragments(text) != []
    ensures Fragments(text)[0].start <= |text|
      && StartsWith(ReplaceInline(text, loads), text[..Fragments(text)[0].start])
    ensures Fragments(text)[|Fragments(text)| - 1].end <= |text|
      && EndsWith(ReplaceInline(text, loads), text[Fragments(text)[|Fragments(text)| - 1].end..])
  {
    FragmentsSpan(text);
    SpliceKeepsTail(text, Fragments(text), 0, loads);
  }

  const Fence: string := "```"

  /** `m` is a non-greedy match of "```...```" in `s` at or after `from`: it
      starts with a fence and ends with the first fence after that one. */
  predicate FenceMatch(s: string, m: (nat, nat), from: nat) {
    from <= m.0 && m.0 + 6 <= m.1 <= |s|
    && OccursAt(s, Fence, m.0) && OccursAt(s, Fence, m.1 - 3)
    && forall k :: m.0 + 3 <= k < m.1 - 3 ==> !OccursAt(s, Fence, k)
  }

  /** No fence starts in `s` at a position in [lo, hi). */
  predicate NoFence(s: string, lo: int, hi: int) {
    forall k :: lo <= k < hi ==> !OccursAt(s, Fence, k)
  }

  /** No two non-overlapping fences start at or after `e`, so no further
      match of the pattern exists there. */
  ghost predicate NoPairAfter(s: string, e: int) {
    forall a, b :: e <= a && a + 3 <= b && OccursAt(s, Fence, a) ==> !OccursAt(s, Fence, b)
  }

  /** `FENCED_CODE_RE.search(s, from)`: the leftmost non-greedy match at or
      after `from`. It starts at the first fence there, and there is none
      exactly when no two non-overlapping fences are left. */
  function FirstFence(s: string, from: nat): (r: Option<(nat, nat)>)
    ensures r.Some? ==> FenceMatch(s, r.value, from) && NoFence(s, from, r.value.0)
    ensures r.None? ==> NoPairAfter(s, from)
  {
    var a := Find(s, Fence, from);
    if a == -1 then None
    else
      var b := Find(s, Fence, a + 3);
      if b == -1 then
        NoSecondFence(s, from, a);
        None
      else Some((a, b + 3))
  }

  /** A first fence with no fence after it leaves no match. */
  lemma NoSecondFence(s: string, from: nat, a: int)
    requires a == Find(s, Fence, from) && a != -1 && Find(s, Fence, a + 3) == -1
    ensures NoPairAfter(s, from)
  {
    forall x, y | from <= x && x + 3 <= y && OccursAt(s, Fence, x)
      ensures !OccursAt(s, Fence, y)
    {
      assert a <= x;
    }
  }

  /** `FENCED_CODE_RE.finditer(s)` from `from` on: each match starts at the
      first fence and ends with the next fence after it, and the search goes
      on from the end of the match. */
  function FencedBlocks(s: string, from: nat): (r: seq<(nat, nat)>)
    decreases |s| - from
    ensures forall j :: 0 <= j < |r| ==> FenceMatch(s, r[j], from)
    ensures forall j :: 0 <= j < |r| - 1 ==> r[j].1 <= r[j + 1].0
  {
    match FirstFence(s, from)
    case None => []
    case Some(m) =>
      var rest := FencedBlocks(s, m.1);
      FenceMatchCons(s, m, rest, from);
      [m] + rest
  }

  /** A match followed by the matches found after it. */
  lemma FenceMatchCons(s: string, m: (nat, nat), rest: seq<(nat, nat)>, from: nat)
    requires FenceMatch(s, m, from)
    requires forall j :: 0 <= j < |rest| ==> FenceMatch(s, rest[j], m.1)
    requires forall j :: 0 <= j < |rest| - 1 ==> rest[j].1 <= rest[j + 1].0
    ensures forall j :: 0 <= j < |[m] + rest| ==> FenceMatch(s, ([m] + rest)[j], from)
    ensures forall j :: 0 <= j < |[m] + rest| - 1 ==> ([m] + rest)[j].1 <= ([m] + rest)[j + 1].0
  {
    FenceMatchFrom(s, rest, m.1, from);
    var r := [m] + rest;
    forall j | 0 <= j < |r| - 1 ensures r[j].1 <= r[j + 1].0 {
      if j > 0 { assert r[j] == rest[j - 1] && r[j + 1] == rest[j]; }
    }
  }

  /** A match found from a later position is also one from an earlier one. */
  lemma FenceMatchFrom(s: string, r: seq<(nat, nat)>, later: nat, from: nat)
    requires from <= later
    requires forall j :: 0 <= j < |r| ==> FenceMatch(s, r[j], later)
    ensures forall j :: 0 <= j < |r| ==> FenceMatch(s, r[j], from) && later <= r[j].0
  {
  }

  /** `finditer` semantics, first match: it starts at the first fence at or
      after `from`. */
  lemma FencedBlocksLeftmost(s: string, from: nat)
    ensures var r := FencedBlocks(s, from); r != [] ==> NoFence(s, from, r[0].0)
  {
  }

  /** `finditer` semantics, later matches: each starts at the first fence
      after the previous match ends. */
  lemma {:induction false} FencedBlocksNext(s: string, from: nat)
    decreases |s| - from
    ensures var r := FencedBlocks(s, from);
      forall j :: 0 < j < |r| ==> NoFence(s, r[j - 1].1, r[j].0)
  {
    var r := FencedBlocks(s, from);
    if r != [] {
      var m := FirstFence(s, from).value;
      var rest := FencedBlocks(s, m.1);
      assert r == [m] + rest;
      FencedBlocksNext(s, m.1);
      FencedBlocksLeftmost(s, m.1);
      forall j | 0 < j < |r| ensures NoFence(s, r[j - 1].1, r[j].0) {
        if j > 1 { assert r[j - 1] == rest[j - 2] && r[j] == rest[j - 1]; }
      }
    }
  }

  /** `finditer` semantics, the end: once the search stops, no two
      non-overlapping fences are left, so no match was missed. */
  lemma {:induction false} FencedBlocksExhaustive(s: string, from: nat)
    decreases |s| - from
    ensures var r := FencedBlocks(s, from);
      NoPairAfter(s, if r == [] then from else r[|r| - 1].1)
  {
    var r := FencedBlocks(s, from);
    if r != [] {
      var m := FirstFence(s, from).value;
      var rest := FencedBlocks(s, m.1);
      assert r == [m] + rest;
      FencedBlocksExhaustive(s, m.1);
      if rest != [] { assert r[|r| - 1] == rest[|rest| - 1]; }
    }
  }

  /** Code blocks that lie inside `s` at or after `last`, in order. */
  predicate BlockSpans(s: string, blocks: seq<(nat, nat)>, last: nat) {
    last <= |s|
    && (forall j :: 0 <= j < |blocks| ==> blocks[j].0 <= blocks[j].1 <= |s|)
    && (forall j :: 0 <= j < |blocks| - 1 ==> blocks[j].1 <= blocks[j + 1].0)
    && (blocks != [] ==> last <= blocks[0].0)
  }

  lemma FencedBlocksSpan(s: string)
    ensures BlockSpans(s, FencedBlocks(s, 0), 0)
  {
  }

  /** Inline JSON replacement as a function value, the rewrite applied to
      the prose around code blocks. */
  function InlineRewrite(loads: Parser): (f: string -> string)
    ensures forall t :: f(t) == ReplaceInline(t, loads)
  {
    t => ReplaceInline(t, loads)
  }

  /** Non-blank text between code blocks, rewritten by `rewrite`. */
  function Prose(t: string, rewrite: string -> string): seq<string> {
    if IsBlank(t) then [] else [rewrite(t)]
  }

  /** The pieces `stringify_part` joins for a string holding fenced code:
      each code block verbatim, and the non-blank text around them
      rewritten (with inline JSON replaced, in `FencedText`). */
  function FencedPieces(s: string, blocks: seq<(nat, nat)>, last: nat, rewrite: string -> string): seq<string>
    requires BlockSpans(s, blocks, last)
    decreases |blocks|
  {
    if blocks == [] then Prose(s[last..], rewrite)
    else
      assert BlockSpans(s, blocks[1..], blocks[0].1);
      Prose(s[last..blocks[0].0], rewrite)
      + ([s[blocks[0].0..blocks[0].1]] + FencedPieces(s, blocks[1..], blocks[0].1, rewrite))
  }

  lemma FencedPiecesStep(s: string, blocks: seq<(nat, nat)>, k: nat, last: nat, rewrite: string -> string)
    requires k < |blocks| && BlockSpans(s, blocks[k..], last)
    ensures BlockSpans(s, blocks[k + 1..], blocks[k].1)
    ensures FencedPieces(s, blocks[k..], last, rewrite)
      == Prose(s[last..blocks[k].0], rewrite) + [s[blocks[k].0..blocks[k].1]]
         + FencedPieces(s, blocks[k + 1..], blocks[k].1, rewrite)
  {
    assert blocks[k..][1..] == blocks[k + 1..];
  }

  lemma Regroup3(a: seq<string>, b: seq<string>, c: seq<string>, d: seq<string>)
    ensures a + (b + c + d) == (a + b + c) + d
  {
  }

  /** The loop over the fenced-code matches in `stringify_part`: text before
      each block is added when it is not blank (with inline JSON replaced),
      the block itself is added verbatim, and so is the non-blank tail. */
  method SplitFenced(s: string, loads: Parser) returns (pieces: seq<string>)
    ensures pieces == FencedPieces(s, FencedBlocks(s, 0), 0, InlineRewrite(loads))
  {
    var blocks := FencedBlocks(s, 0);
    ghost var rewrite := InlineRewrite(loads);
    FencedBlocksSpan(s);
    assert blocks[0..] == blocks;
    pieces := [];
    var last: nat := 0;
    var k := 0;
    while k < |blocks|
      invariant k <= |blocks|
      invariant BlockSpans(s, blocks[k..], last)
      invariant pieces + FencedPieces(s, blocks[k..], last, rewrite) == FencedPieces(s, blocks, 0, rewrite)
    {
      var (start, end) := blocks[k];
      FencedPiecesStep(s, blocks, k, last, rewrite);
      ghost var before := pieces;
      var pre := s[last..start];
      var prose: seq<string> := [];
      if !IsBlank(pre) {
        var replaced := ReplaceInlineJson(pre, loads);
        prose := [replaced];
      }
      pieces := pieces + prose + [s[start..end]];
      Regroup3(before, prose, [s[start..end]], FencedPieces(s, blocks[k + 1..], end, rewrite));
      last := end;
      k := k + 1;
    }
    var tail := s[last..];
    if !IsBlank(tail) {
      var replaced := ReplaceInlineJson(tail, loads);
      pieces := pieces + [replaced];
    }
  }

  /** The code blocks' own text, in order. */
  function CodeBlocks(s: string, blocks: seq<(nat, nat)>): seq<string>
    requires forall j :: 0 <= j < |blocks| ==> blocks[j].0 <= blocks[j].1 <= |s|
  {
    seq(|blocks|, j requires 0 <= j < |blocks| => s[blocks[j].0..blocks[j].1])
  }

  /** `a` can be obtained from `b` by deleting elements. */
  predicate IsSubsequence(a: seq<string>, b: seq<string>)
    decreases |b|
  {
    a == [] || (b != [] && ((a[0] == b[0] && IsSubsequence(a[1..], b[1..])) || IsSubsequence(a, b[1..])))
  }

  lemma {:induction false} SubsequenceSkip(a: seq<string>, pre: seq<string>, b: seq<string>)
    requires IsSubsequence(a, b)
    ensures IsSubsequence(a, pre + b)
    decreases |pre|
  {
    if pre != [] {
      SubsequenceSkip(a, pre[1..], b);
      assert (pre + b)[1..] == pre[1..] + b;
    } else {
      assert pre + b == b;
    }
  }

  /** One step of `FencedPieces`: the prose before the first block, the block,
      then the pieces after it. */
  lemma FencedPiecesHead(s: string, blocks: seq<(nat, nat)>, last: nat, rewrite: string -> string)
    requires BlockSpans(s, blocks, last) && blocks != []
    ensures BlockSpans(s, blocks[1..], blocks[0].1)
    ensures FencedPieces(s, blocks, last, rewrite)
      == Prose(s[last..blocks[0].0], rewrite)
         + ([s[blocks[0].0..blocks[0].1]] + FencedPieces(s, blocks[1..], blocks[0].1, rewrite))
  {
    assert BlockSpans(s, blocks[1..], blocks[0].1);
  }

  /** Every code block appears among the pieces verbatim and in order. */
  lemma {:induction false} FencedPiecesKeepCode(s: string, blocks: seq<(nat, nat)>, last: nat, rewrite: string -> string)
    requires BlockSpans(s, blocks, last)
    ensures IsSubsequence(CodeBlocks(s, blocks), FencedPieces(s, blocks, last, rewrite))
    decreases |blocks|
  {
    if blocks != [] {
      var code := s[blocks[0].0..blocks[0].1];
      FencedPiecesHead(s, blocks, last, rewrite);
      var rest := FencedPieces(s, blocks[1..], blocks[0].1, rewrite);
      FencedPiecesKeepCode(s, blocks[1..], blocks[0].1, rewrite);
      assert CodeBlocks(s, blocks)[1..] == CodeBlocks(s, blocks[1..]);
      assert ([code] + rest)[1..] == rest;
      assert IsSubsequence(CodeBlocks(s, blocks), [code] + rest);
      SubsequenceSkip(CodeBlocks(s, blocks), Prose(s[last..blocks[0].0], rewrite), [code] + rest);
    }
  }

  /** The rendering of a string holding fenced code: its pieces joined by
      blank lines. */
  function FencedText(t: string, loads: Parser): string {
    FencedBlocksSpan(t);
    Join("\n\n", FencedPieces(t, FencedBlocks(t, 0), 0, InlineRewrite(loads)))
  }
}
