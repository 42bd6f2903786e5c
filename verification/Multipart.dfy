/**
  The multipart writer of the contract gate (crates/catalyrst-contract-gate/src/lib.rs, `multipart_body`),
  with a reader after section 5.1.1 of RFC 2046. Every character stands for one byte.
 */
module Multipart {
  import opened Wrappers
  import opened Text

  datatype Part = Part(name: string, filename: Option<string>, contentType: Option<string>, data: string)

  const CRLF: string := "\r\n"
  const QUOTE: string := "\""
  const DISPOSITION: string := "Content-Disposition: form-data; name="
  const FILENAME: string := "; filename="
  const CONTENT_TYPE: string := "Content-Type: "
  const BOUNDARY: string := "contractgateboundary7345"

  // ----- the writer -----

  function Quoted(s: string): string {
    QUOTE + s + QUOTE
  }

  function DispositionLine(p: Part): string {
    DISPOSITION + Quoted(p.name) + if p.filename.Some? then FILENAME + Quoted(p.filename.value) else ""
  }

  function HeaderLines(p: Part): seq<string> {
    [DispositionLine(p)] + if p.contentType.Some? then [CONTENT_TYPE + p.contentType.value] else []
  }

  /** Each line ended, then an empty line, then the data. */
  function Entity(lines: seq<string>, data: string): string {
    if lines == [] then CRLF + data else lines[0] + CRLF + Entity(lines[1..], data)
  }

  function Body(boundary: string, parts: seq<Part>): string {
    if parts == [] then "--" + boundary + "--" + CRLF
    else "--" + boundary + CRLF + Entity(HeaderLines(parts[0]), parts[0].data) + CRLF + Body(boundary, parts[1..])
  }

  // ----- the reader -----

  /** Header lines up to the empty one. */
  function ReadHeaders(s: string): (r: Option<(seq<string>, string)>)
    decreases |s|
  {
    match CutAt(s, CRLF)
    case None => None
    case Some(cut) =>
      if cut.before == "" then Some(([], cut.after)) else
        match ReadHeaders(cut.after)
        case None => None
        case Some(more) => Some(([cut.before] + more.0, more.1))
  }

  /** The rest of the first line that starts with `field`. */
  function Field(lines: seq<string>, field: string): Option<string> {
    if lines == [] then None
    else if field <= lines[0] then Some(lines[0][|field|..])
    else Field(lines[1..], field)
  }

  function ReadQuoted(s: string): Option<Cut> {
    if QUOTE <= s then CutAt(s[1..], QUOTE) else None
  }

  function ReadPart(s: string): Option<Part> {
    match ReadHeaders(s)
    case None => None
    case Some(entity) =>
      match Field(entity.0, DISPOSITION)
      case None => None
      case Some(value) =>
        match ReadQuoted(value)
        case None => None
        case Some(name) =>
          var contentType := Field(entity.0, CONTENT_TYPE);
          if name.after == "" then Some(Part(name.before, None, contentType, entity.1))
          else if !(FILENAME <= name.after) then None
          else
            match ReadQuoted(name.after[|FILENAME|..])
            case None => None
            case Some(file) =>
              if file.after == "" then Some(Part(name.before, Some(file.before), contentType, entity.1)) else None
  }

  function Delimiter(boundary: string): string {
    CRLF + "--" + boundary
  }

  /** Transport padding. */
  function SkipBlanks(s: string): (r: string)
    ensures |r| <= |s|
  {
    if s != [] && (s[0] == ' ' || s[0] == '\t') then SkipBlanks(s[1..]) else s
  }

  /** The parts after a delimiter, up to the close delimiter; what follows that is ignored. */
  function ReadParts(boundary: string, s: string): Option<seq<Part>>
    decreases |s|
  {
    if "--" <= s then Some([]) else
      var line := SkipBlanks(s);
      if !(CRLF <= line) then None else
        match CutAt(line[2..], Delimiter(boundary))
        case None => None
        case Some(cut) =>
          match ReadPart(cut.before)
          case None => None
          case Some(part) =>
            match ReadParts(boundary, cut.after)
            case None => None
            case Some(more) => Some([part] + more)
  }

  /** A body; the text before the first delimiter is ignored. */
  function ReadBody(boundary: string, s: string): Option<seq<Part>> {
    match CutAt(CRLF + s, Delimiter(boundary))
    case None => None
    case Some(cut) => ReadParts(boundary, cut.after)
  }

  // ----- the loop -----

  lemma EntityText(p: Part, lines: string)
    requires lines == DispositionLine(p) + CRLF
                    + (if p.contentType.Some? then CONTENT_TYPE + p.contentType.value + CRLF else "")
    ensures Entity(HeaderLines(p), p.data) == lines + CRLF + p.data
  {
    var first := DispositionLine(p);
    assert HeaderLines(p)[0] == first;
    if p.contentType.Some? {
      var second := CONTENT_TYPE + p.contentType.value;
      OneHeader(second, p.data);
      assert HeaderLines(p)[1..] == [second];
      TwoLines(first, second, CRLF, p.data);
    } else {
      assert HeaderLines(p)[1..] == [];
    }
  }

  lemma OneHeader(line: string, data: string)
    ensures Entity([line], data) == line + CRLF + (CRLF + data)
  {
  }

  lemma TwoLines(a: string, b: string, n: string, d: string)
    ensures a + n + (b + n + (n + d)) == (a + n + (b + n)) + n + d
  {
  }

  lemma NextPart(out: string, h: string, b: string, n: string, lines: string, data: string, rest: string)
    ensures (out + h + b + n + lines + n + data + n) + rest == out + (h + b + n + (lines + n + data) + n + rest)
  {
  }

  method MultipartBody(parts: seq<Part>) returns (out: string, contentType: string)
    ensures out == Body(BOUNDARY, parts)
    ensures contentType == "multipart/form-data; boundary=" + BOUNDARY
  {
    var boundary := BOUNDARY;
    out := "";
    for i := 0 to |parts|
      invariant out + Body(boundary, parts[i..]) == Body(boundary, parts)
    {
      var p := parts[i];
      assert parts[i..][1..] == parts[i + 1..];
      ghost var before := out;
      out := out + "--" + boundary + CRLF;
      ghost var start, lines := out, DispositionLine(p) + CRLF;
      match p.filename {
        case Some(f) => out := out + (DISPOSITION + (QUOTE + p.name + QUOTE) + (FILENAME + (QUOTE + f + QUOTE)) + CRLF);
        case None => out := out + (DISPOSITION + (QUOTE + p.name + QUOTE) + CRLF);
      }
      assert out == start + lines;
      if p.contentType.Some? {
        out := out + (CONTENT_TYPE + p.contentType.value + CRLF);
        lines := lines + (CONTENT_TYPE + p.contentType.value + CRLF);
      }
      assert out == start + lines;
      EntityText(p, lines);
      NextPart(before, "--", boundary, CRLF, lines, p.data, Body(boundary, parts[i + 1..]));
      out := out + CRLF;
      out := out + p.data;
      out := out + CRLF;
    }
    out := out + ("--" + boundary + "--" + CRLF);
    contentType := "multipart/form-data; boundary=" + boundary;
  }

  // ----- what survives the round trip -----

  predicate CleanName(name: string) {
    Free(name, CRLF) && Free(name, QUOTE)
  }

  predicate Clean(boundary: string, p: Part) {
    && CleanName(p.name)
    && (p.filename.Some? ==> CleanName(p.filename.value))
    && (p.contentType.Some? ==> Free(p.contentType.value, CRLF))
    && Free(CRLF + p.data, Delimiter(boundary))
  }

  lemma DelimiterNoOverlap(boundary: string)
    requires '\r' !in boundary
    ensures NoOverlap(Delimiter(boundary))
  {
    var d := Delimiter(boundary);
    forall k | 0 < k < |d| ensures d[k] != d[0] {
      assert k >= 4 ==> d[k] == boundary[k - 4];
    }
  }

  lemma CrlfAt(s: string, i: nat)
    ensures MatchesAt(s, CRLF, i) <==> i + 1 < |s| && s[i] == '\r' && s[i + 1] == '\n'
  {
    assert i + 2 <= |s| ==> s[i..i + 2] == [s[i], s[i + 1]];
  }

  lemma FreeJoin(a: string, b: string)
    requires Free(a, CRLF) && Free(b, CRLF)
    requires a == "" || b == "" || a[|a| - 1] != '\r' || b[0] != '\n'
    ensures Free(a + b, CRLF)
  {
    forall i: nat ensures !MatchesAt(a + b, CRLF, i) {
      CrlfAt(a + b, i);
      CrlfAt(a, i);
      FreeMeansNowhere(a, CRLF, i);
      if i >= |a| {
        CrlfAt(b, i - |a|);
        FreeMeansNowhere(b, CRLF, i - |a|);
      }
    }
    FreeIfNowhere(a + b, CRLF);
  }

  lemma NoCarriageReturn(s: string)
    requires '\r' !in s
    ensures Free(s, CRLF)
  {
    forall i: nat ensures !MatchesAt(s, CRLF, i) {
      CrlfAt(s, i);
    }
    FreeIfNowhere(s, CRLF);
  }

  /** No header line ends early, and none reads as empty. */
  predicate GoodLines(lines: seq<string>) {
    forall i | 0 <= i < |lines| :: lines[i] != "" && lines[i][0] != '-' && Free(lines[i], CRLF)
  }

  lemma EmptyLine(data: string)
    ensures CutAt(CRLF + data, CRLF) == Some(Cut("", data))
  {
    assert CRLF <= CRLF + data;
    assert (CRLF + data)[2..] == data;
  }

  lemma OneLine(line: string, rest: string)
    requires Free(line, CRLF) && line != ""
    ensures CutAt(line + CRLF + rest, CRLF) == Some(Cut(line, rest))
    ensures var more := ReadHeaders(rest);
      ReadHeaders(line + CRLF + rest) == if more.None? then None else Some(([line] + more.value.0, more.value.1))
  {
    CutThere(line, CRLF, rest);
  }

  lemma {:induction false} HeadersReadBack(lines: seq<string>, data: string)
    requires GoodLines(lines)
    ensures ReadHeaders(Entity(lines, data)) == Some((lines, data))
  {
    if lines == [] {
      EmptyLine(data);
    } else {
      var rest := Entity(lines[1..], data);
      HeadersReadBack(lines[1..], data);
      assert ReadHeaders(Entity(lines, data)) == Some(([lines[0]] + lines[1..], data)) by {
        OneLine(lines[0], rest);
      }
      assert lines == [lines[0]] + lines[1..];
    }
  }

  lemma QuotedIsFree(s: string)
    requires Free(s, CRLF)
    ensures Free(Quoted(s), CRLF)
  {
    NoCarriageReturn(QUOTE);
    FreeJoin(QUOTE, s);
    FreeJoin(QUOTE + s, QUOTE);
  }

  lemma FieldsAreFree(head: string, name: string, middle: string, file: string)
    requires '\r' !in head && '\r' !in middle && middle != "" && middle[0] != '\n'
    requires Free(name, CRLF) && Free(file, CRLF)
    ensures Free(head + Quoted(name), CRLF)
    ensures Free(head + Quoted(name) + (middle + Quoted(file)), CRLF)
  {
    NoCarriageReturn(head);
    NoCarriageReturn(middle);
    QuotedIsFree(name);
    QuotedIsFree(file);
    FreeJoin(head, Quoted(name));
    FreeJoin(middle, Quoted(file));
    FreeJoin(head + Quoted(name), middle + Quoted(file));
  }

  lemma DispositionIsFree(p: Part)
    requires Free(p.name, CRLF) && (p.filename.Some? ==> Free(p.filename.value, CRLF))
    ensures Free(DispositionLine(p), CRLF)
  {
    if p.filename.Some? {
      FieldsAreFree(DISPOSITION, p.name, FILENAME, p.filename.value);
    } else {
      FieldsAreFree(DISPOSITION, p.name, FILENAME, p.name);
      assert DISPOSITION + Quoted(p.name) + "" == DISPOSITION + Quoted(p.name);
    }
  }

  lemma ContentTypeIsFree(head: string, value: string)
    requires head == CONTENT_TYPE && Free(value, CRLF)
    ensures Free(head + value, CRLF)
  {
    NoCarriageReturn(head);
    FreeJoin(head, value);
  }

  lemma GoodLine(line: string)
    requires line != "" && line[0] != '-' && Free(line, CRLF)
    ensures GoodLines([line])
  {
  }

  lemma HeadersAreGood(boundary: string, p: Part)
    requires Clean(boundary, p)
    ensures GoodLines(HeaderLines(p))
  {
    DispositionIsFree(p);
    assert DispositionLine(p)[0] == 'C';
    GoodLine(DispositionLine(p));
    if p.contentType.Some? {
      var line := CONTENT_TYPE + p.contentType.value;
      assert line[0] == 'C';
      ContentTypeIsFree(CONTENT_TYPE, p.contentType.value);
      GoodLine(line);
    }
  }

  lemma ReadQuotedBack(s: string, rest: string)
    requires Free(s, QUOTE)
    ensures ReadQuoted(Quoted(s) + rest) == Some(Cut(s, rest))
  {
    CutThere(s, QUOTE, rest);
    assert (Quoted(s) + rest)[1..] == s + QUOTE + rest;
  }

  lemma PartReadsBack(boundary: string, p: Part)
    requires Clean(boundary, p)
    ensures ReadPart(Entity(HeaderLines(p), p.data)) == Some(p)
  {
    HeadersAreGood(boundary, p);
    HeadersReadBack(HeaderLines(p), p.data);
    FieldsReadBack(p);
    if p.filename.Some? {
      var file := FILENAME + Quoted(p.filename.value);
      ReadQuotedBack(p.name, file);
      ReadQuotedBack(p.filename.value, "");
      assert file[|FILENAME|..] == Quoted(p.filename.value) + "";
    } else {
      ReadQuotedBack(p.name, "");
    }
  }

  function DispositionValue(p: Part): string {
    Quoted(p.name) + if p.filename.Some? then FILENAME + Quoted(p.filename.value) else ""
  }

  lemma FieldsReadBack(p: Part)
    ensures Field(HeaderLines(p), DISPOSITION) == Some(DispositionValue(p))
    ensures Field(HeaderLines(p), CONTENT_TYPE) == p.contentType
  {
    var line := DispositionLine(p);
    assert line == DISPOSITION + DispositionValue(p);
    NotContentType(line, CONTENT_TYPE);
    assert HeaderLines(p)[0] == line;
    if p.contentType.Some? {
      assert HeaderLines(p)[1..] == [CONTENT_TYPE + p.contentType.value];
    } else {
      assert HeaderLines(p)[1..] == [];
    }
  }

  lemma NotContentType(line: string, field: string)
    requires DISPOSITION <= line && field == CONTENT_TYPE
    ensures !(field <= line)
  {
    assert line[8] == DISPOSITION[8] == 'D' && field[8] == 'T';
  }

  /** A delimiter starts only where a line has ended, and no header line follows it. */
  lemma {:induction false} EntityIsFree(boundary: string, lines: seq<string>, data: string)
    requires GoodLines(lines) && Free(CRLF + data, Delimiter(boundary))
    ensures Free(CRLF + Entity(lines, data), Delimiter(boundary))
  {
    if lines == [] {
      FreeIfShorter("", CRLF);
      LineIsFree(boundary, "", CRLF + data);
      assert "" + (CRLF + data) == CRLF + data;
    } else {
      EntityIsFree(boundary, lines[1..], data);
      LineIsFree(boundary, lines[0], CRLF + Entity(lines[1..], data));
      assert lines[0] + (CRLF + Entity(lines[1..], data)) == lines[0] + CRLF + Entity(lines[1..], data);
    }
  }

  lemma DelimiterAt(boundary: string, s: string, i: nat)
    requires MatchesAt(s, Delimiter(boundary), i)
    ensures i + 4 <= |s| && s[i] == '\r' && s[i + 1] == '\n' && s[i + 2] == '-'
  {
    var d := Delimiter(boundary);
    assert s[i..i + |d|][0] == d[0] && s[i..i + |d|][1] == d[1] && s[i..i + |d|][2] == d[2];
  }

  lemma MatchShifted(front: string, s: string, pat: string, i: nat)
    ensures MatchesAt(front + s, pat, |front| + i) <==> MatchesAt(s, pat, i)
  {
    assert i + |pat| <= |s| ==> (front + s)[|front| + i..|front| + i + |pat|] == s[i..i + |pat|];
  }

  lemma LineIsFree(boundary: string, line: string, rest: string)
    requires Free(line, CRLF) && (line == "" || line[0] != '-')
    requires CRLF <= rest && Free(rest, Delimiter(boundary))
    ensures Free(CRLF + (line + rest), Delimiter(boundary))
  {
    var s, d := CRLF + (line + rest), Delimiter(boundary);
    forall i: nat ensures !MatchesAt(s, d, i) {
      if i >= 2 + |line| {
        var j := i - 2 - |line|;
        FreeMeansNowhere(rest, d, j);
        MatchShifted(CRLF + line, rest, d, j);
        assert s == (CRLF + line) + rest;
      } else if MatchesAt(s, d, i) {
        DelimiterAt(boundary, s, i);
        if i >= 2 {
          FreeMeansNowhere(line, CRLF, i - 2);
          CrlfAt(line, i - 2);
        }
      }
    }
    FreeIfNowhere(s, d);
  }

  /** What follows the first delimiter. */
  function Rest(boundary: string, parts: seq<Part>): string {
    if parts == [] then "--" + CRLF
    else CRLF + (Entity(HeaderLines(parts[0]), parts[0].data) + Delimiter(boundary) + Rest(boundary, parts[1..]))
  }

  lemma {:induction false} BodyIsDelimited(boundary: string, parts: seq<Part>)
    ensures CRLF + Body(boundary, parts) == Delimiter(boundary) + Rest(boundary, parts)
  {
    if parts == [] {
      RegroupEnd(CRLF, "--", boundary);
    } else {
      BodyIsDelimited(boundary, parts[1..]);
      var e := Entity(HeaderLines(parts[0]), parts[0].data);
      RegroupPart(CRLF, "--", boundary, e, Body(boundary, parts[1..]), Rest(boundary, parts[1..]));
    }
  }

  lemma RegroupEnd(n: string, h: string, b: string)
    ensures n + (h + b + h + n) == (n + h + b) + (h + n)
  {
  }

  lemma RegroupPart(n: string, h: string, b: string, e: string, body: string, rest: string)
    requires n + body == (n + h + b) + rest
    ensures n + (h + b + n + e + n + body) == (n + h + b) + (n + (e + (n + h + b) + rest))
  {
    assert n + (h + b + n + e + n + body) == (n + h + b) + (n + (e + (n + body)));
  }

  lemma {:induction false} PartsReadBack(boundary: string, parts: seq<Part>)
    requires '\r' !in boundary && forall p <- parts :: Clean(boundary, p)
    ensures ReadParts(boundary, Rest(boundary, parts)) == Some(parts)
  {
    if parts != [] {
      var p, e := parts[0], Entity(HeaderLines(parts[0]), parts[0].data);
      var next := Rest(boundary, parts[1..]);
      PartsReadBack(boundary, parts[1..]);
      PartReadsBack(boundary, p);
      HeadersAreGood(boundary, p);
      EntityIsFree(boundary, HeaderLines(p), p.data);
      assert CRLF + e == CRLF + e + "";
      FreeInside(CRLF, e, "", Delimiter(boundary));
      DelimiterNoOverlap(boundary);
      CutThere(e, Delimiter(boundary), next);
      ReadOnePart(boundary, e, next, p);
      assert parts == [p] + parts[1..];
    }
  }

  lemma ReadOnePart(boundary: string, e: string, next: string, p: Part)
    requires CutAt(e + Delimiter(boundary) + next, Delimiter(boundary)) == Some(Cut(e, next)) && ReadPart(e) == Some(p)
    requires ReadParts(boundary, next).Some?
    ensures ReadParts(boundary, CRLF + (e + Delimiter(boundary) + next)) == Some([p] + ReadParts(boundary, next).value)
  {
    AfterLineEnd(e + Delimiter(boundary) + next);
  }

  lemma AfterLineEnd(t: string)
    ensures var s := CRLF + t; !("--" <= s) && SkipBlanks(s) == s && CRLF <= s && s[2..] == t
  {
    assert (CRLF + t)[0] == '\r';
  }

  // ----- what the reader returns is clean -----

  predicate EndsWith(s: string, end: string) {
    |end| <= |s| && s[|s| - |end|..] == end
  }

  lemma EndsWithMore(front: string, s: string, end: string)
    requires EndsWith(s, end)
    ensures EndsWith(front + s, end)
  {
  }

  lemma {:induction false} ReadHeadersShape(s: string)
    requires ReadHeaders(s).Some?
    ensures forall line <- ReadHeaders(s).value.0 :: Free(line, CRLF)
    ensures EndsWith(s, CRLF + ReadHeaders(s).value.1)
    decreases |s|
  {
    var cut := CutAt(s, CRLF).value;
    CutIsFirst(s, CRLF);
    CutShape(s, CRLF);
    if cut.before != "" {
      ReadHeadersShape(cut.after);
      EndsWithMore(cut.before + CRLF, cut.after, CRLF + ReadHeaders(s).value.1);
    }
  }

  lemma {:induction false} FieldIsFree(lines: seq<string>, field: string)
    requires Field(lines, field).Some? && forall line <- lines :: Free(line, CRLF)
    ensures Free(Field(lines, field).value, CRLF)
  {
    if field <= lines[0] {
      var value := lines[0][|field|..];
      assert lines[0] == field + value + "";
      FreeInside(field, value, "", CRLF);
    } else {
      FieldIsFree(lines[1..], field);
    }
  }

  lemma ReadQuotedIsClean(s: string)
    requires ReadQuoted(s).Some? && Free(s, CRLF)
    ensures CleanName(ReadQuoted(s).value.before) && Free(ReadQuoted(s).value.after, CRLF)
  {
    var cut := ReadQuoted(s).value;
    CutIsFirst(s[1..], QUOTE);
    CutShape(s[1..], QUOTE);
    assert s == QUOTE + cut.before + (QUOTE + cut.after);
    FreeInside(QUOTE, cut.before, QUOTE + cut.after, CRLF);
    assert s == (QUOTE + cut.before + QUOTE) + cut.after + "";
    FreeInside(QUOTE + cut.before + QUOTE, cut.after, "", CRLF);
  }

  lemma ReadDataIsClean(boundary: string, s: string)
    requires ReadHeaders(s).Some? && Free(s, Delimiter(boundary))
    ensures Free(CRLF + ReadHeaders(s).value.1, Delimiter(boundary))
  {
    var data := ReadHeaders(s).value.1;
    ReadHeadersShape(s);
    var front := s[..|s| - |CRLF + data|];
    assert s == front + (CRLF + data) + "";
    FreeInside(front, CRLF + data, "", Delimiter(boundary));
  }

  lemma SuffixIsFree(s: string, n: nat)
    requires n <= |s| && Free(s, CRLF)
    ensures Free(s[n..], CRLF)
  {
    assert s == s[..n] + s[n..] + "";
    FreeInside(s[..n], s[n..], "", CRLF);
  }

  lemma ReadNamesAreClean(value: string)
    requires ReadQuoted(value).Some? && Free(value, CRLF)
    ensures CleanName(ReadQuoted(value).value.before)
    ensures var after := ReadQuoted(value).value.after;
      (FILENAME <= after && ReadQuoted(after[|FILENAME|..]).Some?) ==>
        CleanName(ReadQuoted(after[|FILENAME|..]).value.before)
  {
    ReadQuotedIsClean(value);
    var after := ReadQuoted(value).value.after;
    if FILENAME <= after && ReadQuoted(after[|FILENAME|..]).Some? {
      SuffixIsFree(after, |FILENAME|);
      ReadQuotedIsClean(after[|FILENAME|..]);
    }
  }

  lemma ReadPartIsClean(boundary: string, s: string)
    requires ReadPart(s).Some? && Free(s, Delimiter(boundary))
    ensures Clean(boundary, ReadPart(s).value)
  {
    ReadDataIsClean(boundary, s);
    ReadHeadersShape(s);
    var lines := ReadHeaders(s).value.0;
    FieldIsFree(lines, DISPOSITION);
    ReadNamesAreClean(Field(lines, DISPOSITION).value);
    if Field(lines, CONTENT_TYPE).Some? {
      FieldIsFree(lines, CONTENT_TYPE);
    }
  }

  lemma {:induction false} ReadPartsAreClean(boundary: string, s: string)
    requires ReadParts(boundary, s).Some?
    ensures forall p <- ReadParts(boundary, s).value :: Clean(boundary, p)
    decreases |s|
  {
    if !("--" <= s) {
      var line := SkipBlanks(s);
      CutIsFirst(line[2..], Delimiter(boundary));
      var cut := CutAt(line[2..], Delimiter(boundary)).value;
      ReadPartIsClean(boundary, cut.before);
      ReadPartsAreClean(boundary, cut.after);
    }
  }

  /** The reader returns exactly the parts written, and it does so exactly when every part is clean. */
  lemma RoundTripIffClean(boundary: string, parts: seq<Part>)
    requires '\r' !in boundary
    ensures ReadBody(boundary, Body(boundary, parts)) == Some(parts) <==> forall p <- parts :: Clean(boundary, p)
  {
    var d := Delimiter(boundary);
    BodyIsDelimited(boundary, parts);
    var s := CRLF + Body(boundary, parts);
    DelimiterNoOverlap(boundary);
    assert s == "" + d + Rest(boundary, parts);
    FreeIfShorter("", d);
    CutThere("", d, Rest(boundary, parts));
    if ReadParts(boundary, Rest(boundary, parts)).Some? {
      ReadPartsAreClean(boundary, Rest(boundary, parts));
    }
    if forall p <- parts :: Clean(boundary, p) {
      PartsReadBack(boundary, parts);
    }
  }

  lemma FreeIfShorter(s: string, pat: string)
    requires |s| < |pat|
    ensures Free(s, pat)
  {
    forall i: nat ensures !MatchesAt(s, pat, i) {}
    FreeIfNowhere(s, pat);
  }

  /** The writer's own boundary is one of those. */
  lemma GateRoundTrip(parts: seq<Part>)
    ensures ReadBody(BOUNDARY, Body(BOUNDARY, parts)) == Some(parts) <==> forall p <- parts :: Clean(BOUNDARY, p)
  {
    RoundTripIffClean(BOUNDARY, parts);
  }
}
