/**
  Validation of volume-relative paths (path.go).
 */
module RelativePath {
  import opened WinText
  import Exclude

  datatype Fault = HasNul | HasColon | LeadingSeparator | EmptySegment | DotSegment
  datatype Checked = Accepted(path: string) | Rejected(fault: Fault)

  /** `strings.TrimSuffix(s, "\\")`: at most one separator goes. */
  function TrimOne(s: string): string {
    if EndsInSeparator(s) then s[..|s| - 1] else s
  }

  predicate ProperSegment(seg: string) {
    seg != "" && seg != "." && seg != ".."
  }

  /** A path that names something strictly below the volume root. */
  predicate Proper(rel: string) {
    && '\0' !in rel && ':' !in rel
    && forall seg :: seg in Split(TrimOne(Backslashed(rel))) ==> ProperSegment(seg)
  }

  method Validate(rel: string) returns (r: Checked)
    ensures r.Accepted? <==> rel == "" || rel == "." || Proper(rel)
    ensures r.Accepted? ==> r.path == if rel == "." then "" else Backslashed(rel)
  {
    if rel == "" || rel == "." {
      return Accepted("");
    }
    if '\0' in rel {
      return Rejected(HasNul);
    }
    if ':' in rel {
      return Rejected(HasColon);
    }
    var norm := Backslashed(rel);
    var segs := Split(TrimOne(norm));
    if norm[0] == '\\' {
      LeadingSeparatorIsEmptySegment(norm);
      return Rejected(LeadingSeparator);
    }
    for i := 0 to |segs|
      invariant forall k :: 0 <= k < i ==> ProperSegment(segs[k])
    {
      assert segs[i] in segs;
      if segs[i] == "" {
        return Rejected(EmptySegment);
      }
      if segs[i] == "." || segs[i] == ".." {
        return Rejected(DotSegment);
      }
    }
    return Accepted(norm);
  }

  lemma LeadingSeparatorIsEmptySegment(norm: string)
    requires norm != "" && norm[0] == '\\'
    ensures "" in Split(TrimOne(norm))
  {
    var t := TrimOne(norm);
    if t != "" {
      FirstSegment(t);
    }
  }

  lemma {:induction false} FirstSegment(t: string)
    requires t != "" && t[0] == '\\'
    ensures Split(t)[0] == ""
    decreases |t|
  {
    var i := LastSeparator(t);
    if i == 0 {
      assert t[..0] == "";
    } else {
      FirstSegment(t[..i]);
    }
  }

  lemma RootSpellingIsNotProper(rel: string)
    requires Backslashed(rel) == "" || Backslashed(rel) == "."
    ensures !Proper(rel)
  {
    var n := Backslashed(rel);
    assert Split(TrimOne(n)) == [n];
    assert [n][0] in Split(TrimOne(n));
  }

  /** Validation is a projection: what it accepts it accepts again, unchanged. */
  lemma ProperIsStable(rel: string)
    requires Proper(rel)
    ensures Proper(Backslashed(rel)) && Backslashed(Backslashed(rel)) == Backslashed(rel)
    ensures Backslashed(rel) != "" && Backslashed(rel) != "."
  {
    var n := Backslashed(rel);
    assert Backslashed(n) == n;
    assert '\0' !in n && ':' !in n by {
      assert forall i :: 0 <= i < |rel| ==> rel[i] in rel;
    }
    if n == "" || n == "." {
      RootSpellingIsNotProper(rel);
    }
  }

  /** No accepted path climbs out of the volume: every segment it is read as is a name. */
  lemma ProperSegmentsAreNames(rel: string, seg: string)
    requires Proper(rel) && seg in Split(TrimOne(Backslashed(rel)))
    ensures Exclude.FileName(seg) && seg != "." && seg != ".."
  {
    var t := TrimOne(Backslashed(rel));
    assert ProperSegment(seg);
    forall c | c in seg
      ensures c != '\\' && c != '/' && c != ':'
    {
      SegmentRunes(t, seg, c);
      var i :| 0 <= i < |t| && t[i] == c;
      assert rel[i] in rel;
    }
  }

  lemma {:induction false} SegmentRunes(t: string, seg: string, c: char)
    requires seg in Split(t) && c in seg
    ensures c in t
    decreases |t|
  {
    var i := LastSeparator(t);
    if i >= 0 && seg != t[i + 1..] {
      assert seg in Split(t[..i]);
      SegmentRunes(t[..i], seg, c);
    }
  }
}
