/** Searching and cutting strings at the first place where a pattern occurs. */
module Text {
  import opened Wrappers

  /** The first position of `pat`. */
  function Find(s: string, pat: string): (r: Option<nat>)
    ensures r.Some? ==> r.value + |pat| <= |s|
  {
    if pat <= s then Some(0)
    else if s == [] then None
    else
      match Find(s[1..], pat)
      case None => None
      case Some(i) => Some(i + 1)
  }

  predicate Free(s: string, pat: string) {
    Find(s, pat).None?
  }

  datatype Cut = Cut(before: string, after: string)

  /** The text before and after the first `pat`. */
  function CutAt(s: string, pat: string): (r: Option<Cut>)
    ensures r.Some? ==> |r.value.before| + |pat| + |r.value.after| == |s|
  {
    match Find(s, pat)
    case None => None
    case Some(i) => Some(Cut(s[..i], s[i + |pat|..]))
  }

  /** A pattern whose first character occurs only there cannot overlap itself. */
  predicate NoOverlap(pat: string) {
    |pat| > 0 && forall k | 0 < k < |pat| :: pat[k] != pat[0]
  }

  predicate MatchesAt(s: string, pat: string, i: nat) {
    i + |pat| <= |s| && s[i..i + |pat|] == pat
  }

  lemma {:induction false} FindMatches(s: string, pat: string)
    requires Find(s, pat).Some?
    ensures MatchesAt(s, pat, Find(s, pat).value)
  {
    if !(pat <= s) {
      FindMatches(s[1..], pat);
      var i := Find(s[1..], pat).value;
      assert s[1..][i..i + |pat|] == s[i + 1..i + 1 + |pat|];
    }
  }

  lemma CutShape(s: string, pat: string)
    requires CutAt(s, pat).Some?
    ensures var cut := CutAt(s, pat).value; s == cut.before + pat + cut.after
  {
    FindMatches(s, pat);
  }

  lemma {:induction false} FreeMeansNowhere(s: string, pat: string, i: nat)
    requires Free(s, pat)
    ensures !MatchesAt(s, pat, i)
  {
    if s != [] && i > 0 {
      FreeMeansNowhere(s[1..], pat, i - 1);
      assert i + |pat| <= |s| ==> s[1..][i - 1..i - 1 + |pat|] == s[i..i + |pat|];
    }
  }

  lemma FreeIfNowhere(s: string, pat: string)
    requires forall i: nat :: !MatchesAt(s, pat, i)
    ensures Free(s, pat)
  {
    if Find(s, pat).Some? {
      FindMatches(s, pat);
    }
  }

  lemma FreeInside(x: string, y: string, z: string, pat: string)
    requires Free(x + y + z, pat)
    ensures Free(y, pat)
  {
    var s := x + y + z;
    forall i: nat ensures !MatchesAt(y, pat, i) {
      FreeMeansNowhere(s, pat, |x| + i);
      assert i + |pat| <= |y| ==> s[|x| + i..|x| + i + |pat|] == y[i..i + |pat|];
    }
    FreeIfNowhere(y, pat);
  }

  /** The first `pat` of `x + pat + rest` is the one after `x` exactly when `x` holds none. */
  lemma CutThere(x: string, pat: string, rest: string)
    requires NoOverlap(pat) && Free(x, pat)
    ensures CutAt(x + pat + rest, pat) == Some(Cut(x, rest))
  {
    var s := x + pat + rest;
    FindThere(x, pat, rest);
    assert s[..|x|] == x && s[|x| + |pat|..] == rest;
  }

  lemma {:induction false} FindThere(x: string, pat: string, rest: string)
    requires NoOverlap(pat) && Free(x, pat)
    ensures Find(x + pat + rest, pat) == Some(|x|)
  {
    var s := x + pat + rest;
    if x == [] {
      assert s == pat + rest;
    } else {
      assert |pat| <= |x| ==> s[..|pat|] == x[..|pat|];
      assert s[|x|] == pat[0];
      assert s[1..] == x[1..] + pat + rest;
      FindThere(x[1..], pat, rest);
    }
  }

  lemma CutIsFirst(s: string, pat: string)
    requires CutAt(s, pat).Some? && |pat| > 0
    ensures Free(CutAt(s, pat).value.before, pat)
  {
    BeforeFirst(s, pat);
  }

  lemma {:induction false} BeforeFirst(s: string, pat: string)
    requires Find(s, pat).Some? && |pat| > 0
    ensures Free(s[..Find(s, pat).value], pat)
  {
    var i := Find(s, pat).value;
    if i > 0 {
      BeforeFirst(s[1..], pat);
      assert s[..i][1..] == s[1..][..i - 1];
      assert pat <= s[..i] ==> pat <= s;
    }
  }

  // ----- single characters -----

  lemma {:induction false} FreeOfChar(s: string, c: char)
    ensures Free(s, [c]) <==> c !in s
  {
    if s != "" {
      FreeOfChar(s[1..], c);
      assert [c] <= s <==> s[0] == c;
      assert s == [s[0]] + s[1..];
    }
  }

  lemma CutFacts(s: string, c: char)
    ensures CutAt(s, [c]).None? <==> c !in s
    ensures var cut := CutAt(s, [c]);
      cut.Some? ==> s == cut.value.before + [c] + cut.value.after && c !in cut.value.before
  {
    FreeOfChar(s, c);
    if CutAt(s, [c]).Some? {
      CutShape(s, [c]);
      CutIsFirst(s, [c]);
      FreeOfChar(CutAt(s, [c]).value.before, c);
    }
  }

  lemma CutAtChar(before: string, c: char, after: string)
    requires c !in before
    ensures CutAt(before + [c] + after, [c]) == Some(Cut(before, after))
  {
    FreeOfChar(before, c);
    CutThere(before, [c], after);
  }
}
