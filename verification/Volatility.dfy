/**
  The ignore rules of the conformance comparison (crates/catalyrst-conformance/src/volatility.rs, and
  `is_globally_ignored` in diff.rs): paths are dotted segments, and a pattern matches segment by segment.
 */
module Volatility {
  import opened Wrappers
  import opened Text

  // ----- segments -----

  /** The non-empty stretches between dots. */
  function Segments(s: string): seq<string>
    decreases |s|
  {
    match CutAt(s, ".")
    case None => if s == "" then [] else [s]
    case Some(cut) => if cut.before == "" then Segments(cut.after) else [cut.before] + Segments(cut.after)
  }

  predicate Plain(segment: string) {
    segment != "" && '.' !in segment
  }

  predicate AllPlain(segments: seq<string>) {
    forall i | 0 <= i < |segments| :: Plain(segments[i])
  }

  function Join(segments: seq<string>): string {
    if segments == [] then ""
    else if |segments| == 1 then segments[0]
    else segments[0] + "." + Join(segments[1..])
  }

  lemma {:induction false} SegmentsArePlain(s: string)
    ensures AllPlain(Segments(s))
    decreases |s|
  {
    CutFacts(s, '.');
    match CutAt(s, ".")
    case None =>
    case Some(cut) => SegmentsArePlain(cut.after);
  }

  /** Splitting undoes joining. */
  lemma {:induction false} SegmentsOfJoin(segments: seq<string>)
    requires AllPlain(segments)
    ensures Segments(Join(segments)) == segments
  {
    if |segments| == 1 { CutFacts(segments[0], '.'); }
    if |segments| > 1 {
      CutAtChar(segments[0], '.', Join(segments[1..]));
      SegmentsOfJoin(segments[1..]);
      assert segments == [segments[0]] + segments[1..];
    }
  }

  /** The segments still to come, after `cur` has been read of the current one. */
  function Pending(cur: string, s: string, i: nat): seq<string>
    requires i <= |s|
  {
    Segments(cur + s[i..])
  }

  lemma AtDot(out: seq<string>, cur: string, s: string, i: nat)
    requires i < |s| && s[i] == '.' && '.' !in cur
    ensures (if cur == "" then out else out + [cur]) + Pending("", s, i + 1) == out + Pending(cur, s, i)
  {
    assert cur + s[i..] == cur + "." + s[i + 1..];
    CutAtChar(cur, '.', s[i + 1..]);
    assert "" + s[i + 1..] == s[i + 1..];
  }

  lemma AtOther(cur: string, s: string, i: nat)
    requires i < |s| && s[i] != '.'
    ensures Pending(cur, s, i) == Pending(cur + [s[i]], s, i + 1)
  {
    assert cur + s[i..] == (cur + [s[i]]) + s[i + 1..];
  }

  lemma AtEnds(cur: string, s: string)
    requires '.' !in cur
    ensures Pending("", s, 0) == Segments(s)
    ensures Pending(cur, s, |s|) == if cur == "" then [] else [cur]
  {
    CutFacts(cur, '.');
    assert "" + s[0..] == s;
    assert cur + s[|s|..] == cur;
  }

  method Tokenize(s: string) returns (out: seq<string>)
    ensures out == Segments(s)
  {
    out := [];
    var cur := "";
    AtEnds(cur, s);
    for i := 0 to |s|
      invariant '.' !in cur
      invariant out + Pending(cur, s, i) == Segments(s)
    {
      var ch := s[i];
      if ch == '.' {
        AtDot(out, cur, s, i);
        if cur != "" {
          out := out + [cur];
          cur := "";
        }
      } else {
        AtOther(cur, s, i);
        cur := cur + [ch];
      }
    }
    AtEnds(cur, s);
    if cur != "" {
      out := out + [cur];
    }
  }

  // ----- matching -----

  datatype Segment = Segment(name: string, index: Option<string>)

  /** The text before the first `[`, and the text up to the next `]`. */
  function SplitBracket(s: string): Segment {
    match CutAt(s, "[")
    case None => Segment(s, None)
    case Some(open) =>
      match CutAt(open.after, "]")
      case None => Segment(s, None)
      case Some(close) => Segment(open.before, Some(close.before))
  }

  predicate SegmentMatches(pattern: string, segment: string) {
    var p, v := SplitBracket(pattern), SplitBracket(segment);
    && (p.name == "*" || p.name == v.name)
    && (p.index.None? <==> v.index.None?)
    && (p.index.Some? && v.index.Some? ==> p.index.value == "" || p.index.value == v.index.value)
  }

  predicate Pairwise(patterns: seq<string>, segments: seq<string>) {
    |patterns| == |segments| && forall i | 0 <= i < |patterns| :: SegmentMatches(patterns[i], segments[i])
  }

  /** The pattern matches the whole path, or the path without its first part. */
  predicate GlobMatches(pattern: string, path: string) {
    || Pairwise(Segments(pattern), Segments(path))
    || match CutAt(path, ".")
       case None => false
       case Some(cut) => Pairwise(Segments(pattern), Segments(cut.after))
  }

  method MatchesInner(pattern: string, path: string) returns (r: bool)
    ensures r == Pairwise(Segments(pattern), Segments(path))
  {
    var patterns := Tokenize(pattern);
    var segments := Tokenize(path);
    if |patterns| != |segments| {
      return false;
    }
    for i := 0 to |patterns|
      invariant forall j | 0 <= j < i :: SegmentMatches(patterns[j], segments[j])
    {
      if !SegmentMatches(patterns[i], segments[i]) {
        return false;
      }
    }
    return true;
  }

  method GlobMatch(pattern: string, path: string) returns (r: bool)
    ensures r == GlobMatches(pattern, path)
  {
    r := MatchesInner(pattern, path);
    if !r {
      match CutAt(path, ".") {
        case None =>
        case Some(cut) => r := MatchesInner(pattern, cut.after);
      }
    }
  }

  /** On well-formed paths: all the segments, or all but the first, match pairwise. */
  lemma GlobOnSegments(patterns: seq<string>, segments: seq<string>)
    requires AllPlain(patterns) && AllPlain(segments)
    ensures GlobMatches(Join(patterns), Join(segments))
       <==> Pairwise(patterns, segments) || (|segments| >= 2 && Pairwise(patterns, segments[1..]))
  {
    CutFacts(Join(segments), '.');
    SegmentsOfJoin(patterns);
    SegmentsOfJoin(segments);
    if |segments| >= 2 {
      CutAtChar(segments[0], '.', Join(segments[1..]));
      SegmentsOfJoin(segments[1..]);
    }
  }

  /** On every path: all segments match pairwise, or all but the first if the path does not start with a dot. */
  lemma GlobOnEveryPath(pattern: string, path: string)
    ensures var p, v := Segments(pattern), Segments(path);
      GlobMatches(pattern, path) <==>
        Pairwise(p, v) || ('.' in path && path[0] != '.' && Pairwise(p, v[1..]))
  {
    CutFacts(path, '.');
    if '.' in path {
      var cut := CutAt(path, ".").value;
      assert path[0] == '.' <==> cut.before == "";
      if cut.before != "" {
        assert Segments(path)[1..] == Segments(cut.after);
      }
    }
  }

  /** Extra dots in a pattern make no difference. */
  lemma PatternsNormalise(pattern: string, path: string)
    ensures GlobMatches(Join(Segments(pattern)), path) <==> GlobMatches(pattern, path)
  {
    SegmentsArePlain(pattern);
    SegmentsOfJoin(Segments(pattern));
  }

  lemma BracketedSplits(name: string, index: string, rest: string)
    requires '[' !in name && ']' !in index
    ensures SplitBracket(name + "[" + index + "]" + rest) == Segment(name, Some(index))
  {
    var s := name + "[" + index + "]" + rest;
    assert s == name + "[" + (index + "]" + rest);
    CutAtChar(name, '[', index + "]" + rest);
    CutAtChar(index, ']', rest);
  }

  /** Only the first index of a segment counts, and an empty one in the pattern stands for any. */
  lemma IndexedMatch(name: string, index: string, segment: string, at: string, deeper: string)
    requires '[' !in name && '[' !in segment && ']' !in index && ']' !in at
    ensures SegmentMatches(name + "[" + index + "]", segment + "[" + at + "]" + deeper)
       <==> (name == "*" || name == segment) && (index == "" || index == at)
  {
    var p := name + "[" + index + "]";
    assert p == name + "[" + index + "]" + "";
    BracketedSplits(name, index, "");
    BracketedSplits(segment, at, deeper);
  }

  /** A pattern without an index never matches an element, nor one with an index a plain member. */
  lemma PlainMatch(name: string, segment: string, at: string, deeper: string)
    requires '[' !in name && '[' !in segment && ']' !in at
    ensures SegmentMatches(name, segment) <==> name == "*" || name == segment
    ensures !SegmentMatches(name, segment + "[" + at + "]" + deeper)
    ensures !SegmentMatches(segment + "[" + at + "]" + deeper, name)
  {
    CutFacts(name, '[');
    CutFacts(segment, '[');
    BracketedSplits(segment, at, deeper);
  }

  // ----- field names ignored everywhere -----

  /** The text after the last dot. */
  function Leaf(path: string): string
    decreases |path|
  {
    match CutAt(path, ".")
    case None => path
    case Some(cut) => Leaf(cut.after)
  }

  function WithoutIndex(leaf: string): string {
    match CutAt(leaf, "[")
    case None => leaf
    case Some(cut) => cut.before
  }

  predicate GloballyIgnored(fields: set<string>, path: string) {
    WithoutIndex(Leaf(path)) in fields
  }

  lemma {:induction false} LeafAfterDot(path: string, key: string)
    requires '.' !in key
    ensures Leaf(path + "." + key) == key
    decreases |path|
  {
    CutFacts(path, '.');
    CutFacts(key, '.');
    match CutAt(path, ".")
    case None =>
      CutAtChar(path, '.', key);
    case Some(cut) =>
      assert path + "." + key == cut.before + "." + (cut.after + "." + key);
      CutAtChar(cut.before, '.', cut.after + "." + key);
      LeafAfterDot(cut.after, key);
  }

  /** A member is ignored everywhere exactly when its own name is listed. */
  lemma MemberIgnoredByName(fields: set<string>, path: string, key: string)
    requires '.' !in key && '[' !in key
    ensures GloballyIgnored(fields, path + "." + key) <==> key in fields
  {
    CutFacts(key, '[');
    LeafAfterDot(path, key);
  }

  lemma {:induction false} LeafExtends(path: string, tail: string)
    requires '.' !in tail
    ensures Leaf(path + tail) == Leaf(path) + tail
    decreases |path|
  {
    CutFacts(path, '.');
    match CutAt(path, ".")
    case None =>
      CutFacts(path + tail, '.');
    case Some(cut) =>
      assert path + tail == cut.before + "." + (cut.after + tail);
      CutAtChar(cut.before, '.', cut.after + tail);
      LeafExtends(cut.after, tail);
  }

  lemma WithoutIndexExtends(leaf: string, rest: string)
    ensures WithoutIndex(leaf + ("[" + rest)) == WithoutIndex(leaf)
  {
    CutFacts(leaf, '[');
    match CutAt(leaf, "[")
    case None =>
      assert leaf + ("[" + rest) == leaf + "[" + rest;
      CutAtChar(leaf, '[', rest);
    case Some(cut) =>
      assert leaf + ("[" + rest) == cut.before + "[" + (cut.after + "[" + rest);
      CutAtChar(cut.before, '[', cut.after + "[" + rest);
  }

  /** An element is ignored everywhere exactly when its array is. */
  lemma ElementIgnoredWithArray(fields: set<string>, path: string, index: string)
    requires '.' !in index
    ensures GloballyIgnored(fields, path + "[" + index + "]") <==> GloballyIgnored(fields, path)
  {
    var tail := "[" + (index + "]");
    assert path + "[" + index + "]" == path + tail;
    LeafExtends(path, tail);
    WithoutIndexExtends(Leaf(path), index + "]");
  }
}
