/** Turning titles into file names and Markdown anchors
    (`sanitize_filename` and `md_anchor` in utils.py). */
module Names {
  import opened Text

  /** `re.sub("[^" + class + "]+", rep, s)`: every maximal run of characters
      outside the kept class becomes one copy of `rep`. */
  function SubRuns(s: string, keep: char -> bool, rep: string): (r: string)
    decreases |s|
    ensures forall i :: 0 <= i < |r| ==> (keep(r[i]) && r[i] in s) || r[i] in rep
  {
    if s == [] then []
    else if keep(s[0]) then [s[0]] + SubRuns(s[1..], keep, rep)
    else
      var n := LeadEnd(s, c => !keep(c), 0);
      rep + SubRuns(s[n..], keep, rep)
  }

  /** Nothing to replace leaves the text as it is. */
  lemma {:induction false} SubRunsKept(s: string, keep: char -> bool, rep: string)
    requires forall i :: 0 <= i < |s| ==> keep(s[i])
    ensures SubRuns(s, keep, rep) == s
    decreases |s|
  {
    if s != [] {
      SubRunsKept(s[1..], keep, rep);
    }
  }

  /** `re.sub(pattern, "", s)` for a one-character class: drop the characters outside `keep`. */
  function Filter(s: string, keep: char -> bool): (r: string)
    ensures |r| <= |s|
    ensures forall i :: 0 <= i < |r| ==> keep(r[i]) && r[i] in s
  {
    if s == [] then [] else (if keep(s[0]) then [s[0]] else []) + Filter(s[1..], keep)
  }

  lemma {:induction false} FilterKept(s: string, keep: char -> bool)
    requires forall i :: 0 <= i < |s| ==> keep(s[i])
    ensures Filter(s, keep) == s
  {
    if s != [] {
      FilterKept(s[1..], keep);
    }
  }

  /** Stripping keeps whatever holds of every character. */
  lemma StripWithKeeps(s: string, p: char -> bool, q: char -> bool)
    requires forall i :: 0 <= i < |s| ==> q(s[i])
    ensures forall i :: 0 <= i < |StripWith(s, p)| ==> q(StripWith(s, p)[i])
  {
    var k := LeadEnd(s, p, 0);
    var r := StripWith(s, p);
    StripWithSlice(s, p);
    forall i | 0 <= i < |r| ensures q(r[i]) {
      assert r[i] == s[k + i];
    }
  }

  predicate FileNameChar(c: char) { IsWordChar(c) || c == '-' }
  predicate IsUnderscore(c: char) { c == '_' }

  /** A usable file name: not empty, only word characters and '-', and no
      '_' at either end. */
  predicate CleanName(s: string) {
    s != [] && s[0] != '_' && s[|s| - 1] != '_'
    && forall i :: 0 <= i < |s| ==> FileNameChar(s[i])
  }

  /** `sanitize_filename`: runs of characters other than word characters and
      '-' become one '_', surrounding '_' are stripped, and an empty result
      becomes "untitled". */
  function SanitizeFilename(name: string): (r: string)
    ensures CleanName(r)
  {
    var s := StripWith(SubRuns(name, FileNameChar, "_"), IsUnderscore);
    StrippedClean(SubRuns(name, FileNameChar, "_"));
    if s == [] then "untitled" else s
  }

  /** Runs replaced by '_' and '_' stripped from both ends leave a clean
      name unless nothing is left. */
  lemma StrippedClean(sub: string)
    requires forall i :: 0 <= i < |sub| ==> (FileNameChar(sub[i]) && sub[i] in sub) || sub[i] in "_"
    ensures StripWith(sub, IsUnderscore) != [] ==> CleanName(StripWith(sub, IsUnderscore))
  {
    forall i | 0 <= i < |sub| ensures FileNameChar(sub[i]) {
      if sub[i] in "_" {
        assert sub[i] == '_';
      }
    }
    StripWithKeeps(sub, IsUnderscore, FileNameChar);
    var s := StripWith(sub, IsUnderscore);
    if s != [] {
      assert !IsUnderscore(s[0]) && !IsUnderscore(s[|s| - 1]);
    }
  }

  /** A name that is already a clean file name is kept; in particular
      sanitising twice is the same as sanitising once. */
  lemma SanitizeFilenameFixes(name: string)
    requires CleanName(name)
    ensures SanitizeFilename(name) == name
  {
    SubRunsKept(name, FileNameChar, "_");
    StripWithKept(name, IsUnderscore);
  }

  lemma SanitizeFilenameIdempotent(name: string)
    ensures SanitizeFilename(SanitizeFilename(name)) == SanitizeFilename(name)
  {
    SanitizeFilenameFixes(SanitizeFilename(name));
  }

  predicate AnchorKeep(c: char) { IsWordChar(c) || IsSpace(c) || c == '-' }

  predicate AnchorChar(c: char) { IsWordChar(c) || c == '-' }

  predicate NotSpace(c: char) { !IsSpace(c) }
  predicate LowerAnchorChar(c: char) { AnchorChar(c) && !IsAsciiUpper(c) }
  predicate IsDash(c: char) { c == '-' }
  predicate IsDot(c: char) { c == '.' }

  /** The anchor before trimming: lower-cased, filtered, whitespace runs as '-'. */
  function AnchorBody(title: string): (r: string)
    ensures forall i :: 0 <= i < |r| ==> LowerAnchorChar(r[i])
  {
    var lowered := Lower(Strip(title));
    var kept := Filter(lowered, AnchorKeep);
    DashedAnchorChars(lowered, kept);
    SubRuns(kept, NotSpace, "-")
  }

  /** Kept lower-case characters with whitespace runs turned into '-' are
      anchor characters. */
  lemma DashedAnchorChars(lowered: string, kept: string)
    requires forall i :: 0 <= i < |lowered| ==> !IsAsciiUpper(lowered[i])
    requires forall i :: 0 <= i < |kept| ==> AnchorKeep(kept[i]) && kept[i] in lowered
    ensures forall i :: 0 <= i < |SubRuns(kept, NotSpace, "-")| ==> LowerAnchorChar(SubRuns(kept, NotSpace, "-")[i])
  {
    var dashed := SubRuns(kept, NotSpace, "-");
    forall i | 0 <= i < |dashed| ensures LowerAnchorChar(dashed[i]) {
      if dashed[i] in kept {
        var j :| 0 <= j < |kept| && kept[j] == dashed[i];
        var m :| 0 <= m < |lowered| && lowered[m] == kept[j];
      }
    }
  }

  lemma AnchorCharNotSpace(c: char)
    requires AnchorChar(c)
    ensures !IsSpace(c)
  {
  }

  const Untitled: string := "untitled"

  lemma UntitledIsAnchor()
    ensures |Untitled| == 8 && Untitled[0] == 'u' && Untitled[7] == 'd'
    ensures forall i :: 0 <= i < |Untitled| ==> LowerAnchorChar(Untitled[i])
  {
  }

  lemma DashStripKeeps(body: string)
    requires forall i :: 0 <= i < |body| ==> LowerAnchorChar(body[i])
    ensures forall i :: 0 <= i < |StripWith(body, IsDash)| ==> LowerAnchorChar(StripWith(body, IsDash)[i])
  {
    StripWithKeeps(body, IsDash, LowerAnchorChar);
  }

  /** An anchor body holds no '.', so stripping '.' changes nothing. */
  lemma DotStripNoop(u: string)
    requires forall i :: 0 <= i < |u| ==> LowerAnchorChar(u[i])
    ensures StripWith(u, IsDot) == u
  {
    if u != [] {
      assert LowerAnchorChar(u[0]) && LowerAnchorChar(u[|u| - 1]);
    }
    StripWithKept(u, IsDot);
  }

  /** Strip '-' and then '.' from an anchor body. */
  function TrimAnchor(body: string): string {
    StripWith(StripWith(body, IsDash), IsDot)
  }

  /** Trimming keeps an anchor body's characters... */
  lemma TrimmedChars(body: string)
    requires forall i :: 0 <= i < |body| ==> LowerAnchorChar(body[i])
    ensures forall i :: 0 <= i < |TrimAnchor(body)| ==> LowerAnchorChar(TrimAnchor(body)[i])
  {
    DashStripKeeps(body);
    DotStripNoop(StripWith(body, IsDash));
  }

  /** ...and leaves no '-' at either end. */
  lemma TrimmedEnds(body: string)
    requires forall i :: 0 <= i < |body| ==> LowerAnchorChar(body[i])
    ensures TrimAnchor(body) == [] || (TrimAnchor(body)[0] != '-' && TrimAnchor(body)[|TrimAnchor(body)| - 1] != '-')
  {
    var d := StripWith(body, IsDash);
    DashStripKeeps(body);
    DotStripNoop(d);
    assert d == [] || (!IsDash(d[0]) && !IsDash(d[|d| - 1]));
  }

  /** `md_anchor`: strip, lower-case, drop everything but word characters,
      whitespace and '-', turn whitespace runs into '-', strip '-' and then
      '.', and fall back to "untitled". The length argument is accepted and
      not used. */
  function MdAnchor(title: string, truncateLength: int): (r: string)
    ensures r != []
    ensures forall i :: 0 <= i < |r| ==> LowerAnchorChar(r[i])
    ensures r[0] != '-' && r[|r| - 1] != '-'
    ensures NoWordChars(title) ==> r == Untitled
  {
    var trimmed := TrimAnchor(AnchorBody(title));
    TrimmedChars(AnchorBody(title));
    TrimmedEnds(AnchorBody(title));
    UntitledIsAnchor();
    NoWordCharsTrimEmpty(title);
    if trimmed == [] then Untitled else trimmed
  }

  predicate NoWordChars(s: string) { forall i :: 0 <= i < |s| ==> !IsWordChar(s[i]) }

  predicate SpacesAndDashes(s: string) { forall i :: 0 <= i < |s| ==> IsSpace(s[i]) || s[i] == '-' }

  /** A title without word characters leaves nothing once whitespace and
      '-' are trimmed away. */
  lemma NoWordCharsTrimEmpty(title: string)
    ensures NoWordChars(title) ==> TrimAnchor(AnchorBody(title)) == []
  {
    if NoWordChars(title) {
      NoWordStrip(title);
      NoWordKept(Strip(title));
      var body := AnchorBody(title);
      DashedOnly(Filter(Lower(Strip(title)), AnchorKeep));
      StripWithEmpty(body, IsDash);
    }
  }

  lemma NoWordStrip(s: string)
    requires NoWordChars(s)
    ensures NoWordChars(Strip(s))
  {
    var t := Strip(s);
    StripWithSlice(s, IsSpace);
    forall k | 0 <= k < |t| ensures !IsWordChar(t[k]) {
      assert t[k] == s[LeadEnd(s, IsSpace, 0) + k];
    }
  }

  lemma NoWordKept(s: string)
    requires NoWordChars(s)
    ensures SpacesAndDashes(Filter(Lower(s), AnchorKeep))
  {
    var lowered := Lower(s);
    var kept := Filter(lowered, AnchorKeep);
    forall k | 0 <= k < |kept| ensures IsSpace(kept[k]) || kept[k] == '-' {
      var m :| 0 <= m < |lowered| && lowered[m] == kept[k];
      assert !IsWordChar(s[m]);
    }
  }

  lemma DashedOnly(kept: string)
    requires SpacesAndDashes(kept)
    ensures forall k :: 0 <= k < |SubRuns(kept, NotSpace, "-")| ==> IsDash(SubRuns(kept, NotSpace, "-")[k])
  {
    var dashed := SubRuns(kept, NotSpace, "-");
    forall k | 0 <= k < |dashed| ensures IsDash(dashed[k]) {
      if dashed[k] in kept {
        var m :| 0 <= m < |kept| && kept[m] == dashed[k];
      }
    }
  }

  /** The length argument has no effect on the anchor. */
  lemma MdAnchorIgnoresLength(title: string, n: int, m: int)
    ensures MdAnchor(title, n) == MdAnchor(title, m)
  {
  }

  /** Anchors hold no whitespace. */
  lemma MdAnchorNoSpace(title: string, n: int)
    ensures forall i :: 0 <= i < |MdAnchor(title, n)| ==> !IsSpace(MdAnchor(title, n)[i])
  {
    var r := MdAnchor(title, n);
    forall i | 0 <= i < |r| ensures !IsSpace(r[i]) {
      AnchorCharNotSpace(r[i]);
    }
  }

  lemma LowerFixes(a: string)
    requires forall i :: 0 <= i < |a| ==> LowerAnchorChar(a[i])
    ensures Lower(a) == a
  {
  }

  lemma FilterFixes(a: string)
    requires forall i :: 0 <= i < |a| ==> LowerAnchorChar(a[i])
    ensures Filter(a, AnchorKeep) == a
  {
    FilterKept(a, AnchorKeep);
  }

  lemma SubRunsFixes(a: string)
    requires forall i :: 0 <= i < |a| ==> LowerAnchorChar(a[i])
    ensures SubRuns(a, NotSpace, "-") == a
  {
    forall i | 0 <= i < |a| ensures NotSpace(a[i]) {
      AnchorCharNotSpace(a[i]);
    }
    SubRunsKept(a, NotSpace, "-");
  }

  lemma StripFixes(a: string)
    requires a != [] && LowerAnchorChar(a[0]) && LowerAnchorChar(a[|a| - 1])
    ensures Strip(a) == a
  {
    AnchorCharNotSpace(a[0]);
    AnchorCharNotSpace(a[|a| - 1]);
    StripWithKept(a, IsSpace);
  }

  /** An anchor is its own anchor: `md_anchor` is idempotent. */
  lemma MdAnchorIdempotent(title: string, n: int, m: int)
    ensures MdAnchor(MdAnchor(title, n), m) == MdAnchor(title, n)
  {
    var a := MdAnchor(title, n);
    StripFixes(a);
    LowerFixes(a);
    FilterFixes(a);
    SubRunsFixes(a);
    assert AnchorBody(a) == a;
    StripWithKept(a, IsDash);
    DotStripNoop(a);
    assert TrimAnchor(a) == a;
  }
}
