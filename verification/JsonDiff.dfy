/**
  The conformance comparison of two JSON values (crates/catalyrst-conformance/src/diff.rs, `compare_json`).
  The two sides of a difference are values rather than their printed form.
 */
module JsonDiff {
  import opened Ordering
  import Volatility

  /** `Number` holds the double that `as_f64` gives, or 0 if there is none: numbers are compared as such, and
      whatever is within reach of the tolerance subtracts without rounding. */
  datatype Json =
    | Null
    | Bool(value: bool)
    | Number(number: real)
    | Str(text: string)
    | Arr(items: seq<Json>)
    | Obj(fields: map<string, Json>)

  datatype Side = Value(json: Json) | Length(n: nat) | Missing

  datatype Difference = Difference(path: string, baseline: Side, candidate: Side)

  /** What is ignored: field names everywhere, and the patterns of the section. */
  datatype Rules = Rules(fields: set<string>, patterns: seq<string>)

  predicate Ignored(r: Rules, path: string) {
    || Volatility.GloballyIgnored(r.fields, path)
    || exists i | 0 <= i < |r.patterns| :: Volatility.GlobMatches(r.patterns[i], path)
  }

  ghost function IgnoredPaths(r: Rules): iset<string> {
    iset path | Ignored(r, path)
  }

  function Member(path: string, key: string): string {
    if path == "" then key else path + "." + key
  }

  function Digits(n: nat): string {
    (if n < 10 then "" else Digits(n / 10)) + [('0' as int + n % 10) as char]
  }

  function Element(path: string, i: nat): string {
    path + "[" + Digits(i) + "]"
  }

  function ReadDigits(s: string): int {
    if s == "" then 0 else 10 * ReadDigits(s[..|s| - 1]) + (s[|s| - 1] as int - '0' as int)
  }

  /** The decimal digits of an index, read back. */
  lemma {:induction false} DigitsReadBack(n: nat)
    ensures ReadDigits(Digits(n)) == n
    ensures forall i | 0 <= i < |Digits(n)| :: '0' <= Digits(n)[i] <= '9'
  {
    if n >= 10 {
      DigitsReadBack(n / 10);
      assert Digits(n)[..|Digits(n)| - 1] == Digits(n / 10);
    }
  }

  /** Two elements of an array, or two members of an object, never share a path. */
  lemma PathsApart(path: string, i: nat, j: nat, key: string, other: string)
    ensures Element(path, i) == Element(path, j) ==> i == j
    ensures Member(path, key) == Member(path, other) ==> key == other
  {
    var a, b := Digits(i), Digits(j);
    if Element(path, i) == Element(path, j) {
      assert (path + "[" + a + "]")[|path| + 1..|path| + 1 + |a|] == a;
      assert (path + "[" + b + "]")[|path| + 1..|path| + 1 + |b|] == b;
      DigitsReadBack(i);
      DigitsReadBack(j);
    }
    if Member(path, key) == Member(path, other) && path != "" {
      assert (path + "." + key)[|path| + 1..] == key && (path + "." + other)[|path| + 1..] == other;
    }
  }

  predicate Timestamp(n: real) {
    1000000000000.0 < n < 3000000000000.0
  }

  /** Equal, or two timestamps within a second. */
  predicate Close(a: real, b: real) {
    a == b || (Timestamp(a) && Timestamp(b) && -1000.0 <= a - b <= 1000.0)
  }

  // ----- the differences -----

  function Keys(b: Json, c: Json): (keys: seq<string>)
    requires b.Obj? && c.Obj?
    ensures OnEitherSide(keys, b, c)
    ensures forall k :: k in b.fields || k in c.fields ==> k in keys
  {
    var keys := Ordered(b.fields.Keys + c.fields.Keys);
    assert forall i | 0 <= i < |keys| :: keys[i] in keys;
    keys
  }

  predicate OnEitherSide(keys: seq<string>, b: Json, c: Json)
    requires b.Obj? && c.Obj?
  {
    forall i | 0 <= i < |keys| :: keys[i] in b.fields || keys[i] in c.fields
  }

  function Common(b: Json, c: Json): nat
    requires b.Arr? && c.Arr?
  {
    if |b.items| <= |c.items| then |b.items| else |c.items|
  }

  function Flatten(parts: seq<seq<Difference>>): seq<Difference> {
    if parts == [] then [] else Flatten(parts[..|parts| - 1]) + parts[|parts| - 1]
  }

  function Diffs(ignored: iset<string>, path: string, b: Json, c: Json): seq<Difference>
    decreases b, 2
  {
    if path in ignored then []
    else if b.Obj? && c.Obj? then Flatten(MemberDiffs(ignored, path, b, c, Keys(b, c)))
    else if b.Arr? && c.Arr? then LengthDiffs(path, b, c) + Flatten(ElementDiffs(ignored, path, b, c))
    else if b.Number? && c.Number? then
      if Close(b.number, c.number) then [] else [Difference(path, Value(b), Value(c))]
    else if b == c then []
    else [Difference(path, Value(b), Value(c))]
  }

  function MemberDiffs(
    ignored: iset<string>, path: string, b: Json, c: Json, keys: seq<string>): (r: seq<seq<Difference>>)
    requires b.Obj? && c.Obj? && OnEitherSide(keys, b, c)
    ensures |r| == |keys|
    decreases b, 1
  {
    seq(|keys|, i requires 0 <= i < |keys| => KeyDiffs(ignored, Member(path, keys[i]), b, c, keys[i]))
  }

  function KeyDiffs(ignored: iset<string>, path: string, b: Json, c: Json, k: string): seq<Difference>
    requires b.Obj? && c.Obj? && (k in b.fields || k in c.fields)
    decreases b, 0
  {
    if k in b.fields && k in c.fields then Diffs(ignored, path, b.fields[k], c.fields[k])
    else if path in ignored then []
    else if k in b.fields then [Difference(path, Value(b.fields[k]), Missing)]
    else [Difference(path, Missing, Value(c.fields[k]))]
  }

  function LengthDiffs(path: string, b: Json, c: Json): seq<Difference>
    requires b.Arr? && c.Arr?
  {
    if |b.items| == |c.items| then [] else [Difference(path + ".length", Length(|b.items|), Length(|c.items|))]
  }

  function ElementDiffs(ignored: iset<string>, path: string, b: Json, c: Json): (r: seq<seq<Difference>>)
    requires b.Arr? && c.Arr?
    ensures |r| == Common(b, c)
    decreases b, 1
  {
    seq(Common(b, c), i requires 0 <= i < Common(b, c) => Diffs(ignored, Element(path, i), b.items[i], c.items[i]))
  }

  // ----- the loops -----

  lemma FlattenNext(diffs: seq<Difference>, parts: seq<seq<Difference>>, i: nat)
    requires i < |parts|
    ensures diffs + Flatten(parts[..i + 1]) == diffs + Flatten(parts[..i]) + parts[i]
  {
    assert parts[..i + 1][..i] == parts[..i];
  }

  method IsIgnored(r: Rules, path: string) returns (yes: bool)
    ensures yes <==> path in IgnoredPaths(r)
  {
    if Volatility.GloballyIgnored(r.fields, path) {
      return true;
    }
    for i := 0 to |r.patterns|
      invariant forall j | 0 <= j < i :: !Volatility.GlobMatches(r.patterns[j], path)
    {
      var matches := Volatility.GlobMatch(r.patterns[i], path);
      if matches {
        return true;
      }
    }
    return false;
  }

  method CompareRecursive(r: Rules, path: string, b: Json, c: Json, diffs: seq<Difference>)
    returns (out: seq<Difference>)
    ensures out == diffs + Diffs(IgnoredPaths(r), path, b, c)
    decreases b, 1, 0
  {
    out := diffs;
    var skip := IsIgnored(r, path);
    if skip {
      return;
    }
    match (b, c) {
      case (Obj(_), Obj(_)) =>
        out := CompareMembers(r, path, b, c, out, Keys(b, c));
      case (Arr(_), Arr(_)) =>
        out := CompareArrays(r, path, b, c, out);
      case (Number(bF), Number(cF)) =>
        if Timestamp(bF) && Timestamp(cF) && (if bF < cF then cF - bF else bF - cF) <= 1000.0 {
          return;
        }
        if bF != cF {
          out := out + [Difference(path, Value(b), Value(c))];
        }
      case _ =>
        if b != c {
          out := out + [Difference(path, Value(b), Value(c))];
        }
    }
  }

  method CompareMembers(r: Rules, path: string, b: Json, c: Json, diffs: seq<Difference>, keys: seq<string>)
    returns (out: seq<Difference>)
    requires b.Obj? && c.Obj? && OnEitherSide(keys, b, c)
    ensures out == diffs + Flatten(MemberDiffs(IgnoredPaths(r), path, b, c, keys))
    decreases b, 0, 1
  {
    out := diffs;
    ghost var parts := MemberDiffs(IgnoredPaths(r), path, b, c, keys);
    for i := 0 to |keys|
      invariant out == diffs + Flatten(parts[..i])
    {
      FlattenNext(diffs, parts, i);
      assert parts[i] == KeyDiffs(IgnoredPaths(r), Member(path, keys[i]), b, c, keys[i]);
      out := CompareKey(r, path, b, c, keys[i], out);
    }
    assert parts[..|keys|] == parts;
  }

  method CompareKey(r: Rules, path: string, b: Json, c: Json, key: string, diffs: seq<Difference>)
    returns (out: seq<Difference>)
    requires b.Obj? && c.Obj? && (key in b.fields || key in c.fields)
    ensures out == diffs + KeyDiffs(IgnoredPaths(r), Member(path, key), b, c, key)
    decreases b, 0, 0
  {
    out := diffs;
    var childPath := if path == "" then key else path + "." + key;
    if key in b.fields && key in c.fields {
      out := CompareRecursive(r, childPath, b.fields[key], c.fields[key], out);
    } else {
      var skip := IsIgnored(r, childPath);
      if !skip {
        if key in b.fields {
          out := out + [Difference(childPath, Value(b.fields[key]), Missing)];
        } else {
          out := out + [Difference(childPath, Missing, Value(c.fields[key]))];
        }
      }
    }
  }

  lemma Regroup(x: seq<Difference>, y: seq<Difference>, z: seq<Difference>)
    ensures x + y + z == x + (y + z) && x + [] == x
  {
  }

  method CompareArrays(r: Rules, path: string, b: Json, c: Json, diffs: seq<Difference>) returns (out: seq<Difference>)
    requires b.Arr? && c.Arr?
    ensures out == diffs + (LengthDiffs(path, b, c) + Flatten(ElementDiffs(IgnoredPaths(r), path, b, c)))
    decreases b, 0, 2
  {
    out := diffs;
    if |b.items| != |c.items| {
      out := out + [Difference(path + ".length", Length(|b.items|), Length(|c.items|))];
    }
    out := CompareElements(r, path, b, c, out);
    Regroup(diffs, LengthDiffs(path, b, c), Flatten(ElementDiffs(IgnoredPaths(r), path, b, c)));
  }

  method CompareElements(r: Rules, path: string, b: Json, c: Json, diffs: seq<Difference>)
    returns (out: seq<Difference>)
    requires b.Arr? && c.Arr?
    ensures out == diffs + Flatten(ElementDiffs(IgnoredPaths(r), path, b, c))
    decreases b, 0, 1
  {
    out := diffs;
    var len := Common(b, c);
    ghost var parts := ElementDiffs(IgnoredPaths(r), path, b, c);
    for i := 0 to len
      invariant out == diffs + Flatten(parts[..i])
    {
      FlattenNext(diffs, parts, i);
      assert parts[i] == Diffs(IgnoredPaths(r), Element(path, i), b.items[i], c.items[i]);
      out := CompareRecursive(r, Element(path, i), b.items[i], c.items[i], out);
    }
    assert parts[..len] == parts;
  }

  const IGNORED_FIELDS: set<string> := {
    "currentTime", "commitHash", "version", "realmName", "publicUrl", "url", "challengeText", "lastSyncWithDAO",
    "synchronizationTime", "generationTimestamp", "id", "scope", "next", "self", "previous" }

  /** The rules of a section; an unknown section has no patterns. */
  function RulesFor(volatility: map<string, seq<string>>, section: string): Rules {
    Rules(IGNORED_FIELDS, if section in volatility then volatility[section] else [])
  }

  /** Two numbers agree if equal, or if both are plausible milliseconds since 1970 at most a second apart. */
  lemma NumbersAgreeIff(ignored: iset<string>, path: string, a: real, b: real)
    requires path !in ignored
    ensures Diffs(ignored, path, Number(a), Number(b)) == [] <==>
            || a == b
            || (1.0e12 < a < 3.0e12 && 1.0e12 < b < 3.0e12 && a <= b + 1000.0 && b <= a + 1000.0)
  {
  }

  /** A path is ignored exactly if its last name is one of the ignored fields or a pattern of its section matches. */
  lemma SectionRules(volatility: map<string, seq<string>>, section: string, path: string)
    ensures path in IgnoredPaths(RulesFor(volatility, section)) <==>
            || Volatility.GloballyIgnored(IGNORED_FIELDS, path)
            || (section in volatility && exists i | 0 <= i < |volatility[section]| ::
                  Volatility.GlobMatches(volatility[section][i], path))
  {
  }

  /** No difference is reported exactly when the values are similar once pruned. */
  method CompareJson(section: string, name: string, b: Json, c: Json, volatility: map<string, seq<string>>)
    returns (diffs: seq<Difference>)
    ensures var ignored := IgnoredPaths(RulesFor(volatility, section));
      && diffs == Diffs(ignored, name, b, c)
      && (diffs == [] <==> Similar(Prune(ignored, name, b), Prune(ignored, name, c)))
  {
    var r := RulesFor(volatility, section);
    EmptyIffSimilar(IgnoredPaths(r), name, b, c);
    diffs := CompareRecursive(r, name, b, c, []);
  }

  // ----- no difference means similar -----

  /** The value without what is ignored: members disappear, elements become null so that places are kept. */
  function Prune(ignored: iset<string>, path: string, v: Json): Json
    decreases v
  {
    if path in ignored then Null
    else
      match v
      case Arr(items) => Arr(seq(|items|, i requires 0 <= i < |items| => Prune(ignored, Element(path, i), items[i])))
      case Obj(fields) =>
        Obj(map k | k in fields && Member(path, k) !in ignored :: Prune(ignored, Member(path, k), fields[k]))
      case _ => v
  }

  /** Equality up to close numbers; paths play no part. */
  predicate Similar(b: Json, c: Json)
    decreases b
  {
    if b.Obj? && c.Obj? then
      b.fields.Keys == c.fields.Keys && forall k | k in b.fields :: Similar(b.fields[k], c.fields[k])
    else if b.Arr? && c.Arr? then
      |b.items| == |c.items| && forall i | 0 <= i < |b.items| :: Similar(b.items[i], c.items[i])
    else if b.Number? && c.Number? then Close(b.number, c.number)
    else b == c
  }

  /** Differences are listed part by part: those of an earlier member or element come first. */
  lemma {:induction false} FlattenInOrder(before: seq<seq<Difference>>, after: seq<seq<Difference>>)
    ensures Flatten(before + after) == Flatten(before) + Flatten(after)
  {
    if after == [] {
      assert before + after == before;
    } else {
      var n := |after| - 1;
      assert (before + after)[..|before + after| - 1] == before + after[..n];
      FlattenInOrder(before, after[..n]);
    }
  }

  lemma {:induction false} FlattenEmpty(parts: seq<seq<Difference>>)
    ensures Flatten(parts) == [] <==> forall i | 0 <= i < |parts| :: parts[i] == []
  {
    if parts != [] {
      FlattenEmpty(parts[..|parts| - 1]);
    }
  }

  lemma {:induction false} EmptyIffSimilar(ignored: iset<string>, path: string, b: Json, c: Json)
    ensures Diffs(ignored, path, b, c) == [] <==> Similar(Prune(ignored, path, b), Prune(ignored, path, c))
    decreases b, 1, 0
  {
    if path in ignored {
    } else if b.Obj? && c.Obj? {
      EmptyIffSimilarObjects(ignored, path, b, c, Keys(b, c));
    } else if b.Arr? && c.Arr? {
      EmptyIffSimilarArrays(ignored, path, b, c);
    }
  }

  lemma {:induction false} EmptyIffSimilarKey(ignored: iset<string>, path: string, b: Json, c: Json, k: string)
    requires b.Obj? && c.Obj? && (k in b.fields || k in c.fields)
    ensures KeyDiffs(ignored, Member(path, k), b, c, k) == [] <==> SimilarAt(ignored, path, b, c, k)
    decreases b, 0, 0
  {
    if k in b.fields && k in c.fields {
      EmptyIffSimilar(ignored, Member(path, k), b.fields[k], c.fields[k]);
    }
  }

  lemma {:induction false} EmptyIffSimilarMembers(
    ignored: iset<string>, path: string, b: Json, c: Json, keys: seq<string>)
    requires b.Obj? && c.Obj? && OnEitherSide(keys, b, c)
    ensures Flatten(MemberDiffs(ignored, path, b, c, keys)) == []
       <==> forall i | 0 <= i < |keys| :: SimilarAt(ignored, path, b, c, keys[i])
    decreases b, 0, 1
  {
    var parts := MemberDiffs(ignored, path, b, c, keys);
    FlattenEmpty(parts);
    forall i | 0 <= i < |keys| ensures parts[i] == [] <==> SimilarAt(ignored, path, b, c, keys[i]) {
      EmptyIffSimilarKey(ignored, path, b, c, keys[i]);
    }
  }

  lemma {:induction false} EmptyIffSimilarObjects(
    ignored: iset<string>, path: string, b: Json, c: Json, keys: seq<string>)
    requires b.Obj? && c.Obj? && path !in ignored
    requires OnEitherSide(keys, b, c) && forall k | k in b.fields || k in c.fields :: k in keys
    ensures Flatten(MemberDiffs(ignored, path, b, c, keys)) == []
       <==> Similar(Prune(ignored, path, b), Prune(ignored, path, c))
    decreases b, 0, 2
  {
    EmptyIffSimilarMembers(ignored, path, b, c, keys);
    SimilarObjects(ignored, path, b, c, keys);
  }

  lemma {:induction false} EmptyIffSimilarArrays(ignored: iset<string>, path: string, b: Json, c: Json)
    requires b.Arr? && c.Arr? && path !in ignored
    ensures LengthDiffs(path, b, c) + Flatten(ElementDiffs(ignored, path, b, c)) == []
       <==> Similar(Prune(ignored, path, b), Prune(ignored, path, c))
    decreases b, 0
  {
    var parts := ElementDiffs(ignored, path, b, c);
    FlattenEmpty(parts);
    forall i | 0 <= i < Common(b, c) ensures parts[i] == [] <==> SimilarItems(ignored, path, b, c, i) {
      EmptyIffSimilar(ignored, Element(path, i), b.items[i], c.items[i]);
    }
    SimilarArrays(ignored, path, b, c);
  }

  predicate SimilarItems(ignored: iset<string>, path: string, b: Json, c: Json, i: nat)
    requires b.Arr? && c.Arr? && i < Common(b, c)
  {
    Similar(Prune(ignored, Element(path, i), b.items[i]), Prune(ignored, Element(path, i), c.items[i]))
  }

  lemma SimilarArrays(ignored: iset<string>, path: string, b: Json, c: Json)
    requires b.Arr? && c.Arr? && path !in ignored
    ensures Similar(Prune(ignored, path, b), Prune(ignored, path, c))
       <==> |b.items| == |c.items| && forall i | 0 <= i < Common(b, c) :: SimilarItems(ignored, path, b, c, i)
  {
    var p, q := Prune(ignored, path, b), Prune(ignored, path, c);
    PrunedItems(ignored, path, b);
    PrunedItems(ignored, path, c);
    if |b.items| == |c.items| {
      forall i | 0 <= i < |b.items| ensures Similar(p.items[i], q.items[i]) <==> SimilarItems(ignored, path, b, c, i) {}
    }
  }

  lemma PrunedItems(ignored: iset<string>, path: string, v: Json)
    requires v.Arr? && path !in ignored
    ensures var p := Prune(ignored, path, v);
      && p.Arr? && |p.items| == |v.items|
      && (forall i | 0 <= i < |v.items| :: p.items[i] == Prune(ignored, Element(path, i), v.items[i]))
  {
  }

  /** Member `k` is ignored, or on both sides and similar there. */
  predicate SimilarAt(ignored: iset<string>, path: string, b: Json, c: Json, k: string)
    requires b.Obj? && c.Obj?
  {
    || Member(path, k) in ignored
    || (k in b.fields && k in c.fields
        && Similar(Prune(ignored, Member(path, k), b.fields[k]), Prune(ignored, Member(path, k), c.fields[k])))
  }

  predicate Agree(p: map<string, Json>, q: map<string, Json>, k: string) {
    && (k in p <==> k in q)
    && (k in p && k in q ==> Similar(p[k], q[k]))
  }

  lemma SimilarIfAgree(p: map<string, Json>, q: map<string, Json>)
    ensures Similar(Obj(p), Obj(q)) <==> forall k | k in p || k in q :: Agree(p, q, k)
  {
    if forall k | k in p || k in q :: Agree(p, q, k) {
      assert forall k :: k in p.Keys <==> k in q.Keys;
    }
    if p.Keys == q.Keys {
      assert forall k :: k in p <==> k in q;
    }
  }

  lemma SimilarObjects(ignored: iset<string>, path: string, b: Json, c: Json, keys: seq<string>)
    requires b.Obj? && c.Obj? && path !in ignored
    requires OnEitherSide(keys, b, c) && forall k | k in b.fields || k in c.fields :: k in keys
    ensures Similar(Prune(ignored, path, b), Prune(ignored, path, c))
       <==> forall i | 0 <= i < |keys| :: SimilarAt(ignored, path, b, c, keys[i])
  {
    var p, q := Prune(ignored, path, b).fields, Prune(ignored, path, c).fields;
    SimilarIfAgree(p, q);
    forall k | k in b.fields || k in c.fields ensures SimilarAt(ignored, path, b, c, k) <==> Agree(p, q, k) {
      SimilarMember(ignored, path, b, c, k);
    }
    PrunedKeys(ignored, path, b);
    PrunedKeys(ignored, path, c);
    AgreeOnKeys(p, q, keys, b.fields.Keys + c.fields.Keys);
  }

  lemma AgreeOnKeys(p: map<string, Json>, q: map<string, Json>, keys: seq<string>, all: set<string>)
    requires p.Keys <= all && q.Keys <= all && forall k :: k in keys <==> k in all
    ensures (forall k | k in p || k in q :: Agree(p, q, k)) <==> (forall i | 0 <= i < |keys| :: Agree(p, q, keys[i]))
  {
    if forall i | 0 <= i < |keys| :: Agree(p, q, keys[i]) {
      forall k | k in p || k in q ensures Agree(p, q, k) {
        assert k in all;
        var i :| 0 <= i < |keys| && keys[i] == k;
      }
    }
  }

  lemma SimilarMember(ignored: iset<string>, path: string, b: Json, c: Json, k: string)
    requires b.Obj? && c.Obj? && path !in ignored && (k in b.fields || k in c.fields)
    ensures SimilarAt(ignored, path, b, c, k)
       <==> Agree(Prune(ignored, path, b).fields, Prune(ignored, path, c).fields, k)
  {
    PrunedKeys(ignored, path, b);
    PrunedKeys(ignored, path, c);
  }

  lemma PrunedKeys(ignored: iset<string>, path: string, v: Json)
    requires v.Obj? && path !in ignored
    ensures var p := Prune(ignored, path, v);
      && p.Obj?
      && (forall k :: k in p.fields <==> k in v.fields && Member(path, k) !in ignored)
      && (forall k | k in p.fields :: p.fields[k] == Prune(ignored, Member(path, k), v.fields[k]))
  {
  }

  lemma {:induction false} SimilarReflexive(v: Json)
    ensures Similar(v, v)
  {
    match v
    case Arr(items) => forall i | 0 <= i < |items| ensures Similar(items[i], items[i]) { SimilarReflexive(items[i]); }
    case Obj(fields) => forall k | k in fields ensures Similar(fields[k], fields[k]) { SimilarReflexive(fields[k]); }
    case _ =>
  }

  /** Comparing a value with itself reports nothing, whatever is ignored. */
  lemma SameValueReportsNothing(ignored: iset<string>, path: string, v: Json)
    ensures Diffs(ignored, path, v, v) == []
  {
    EmptyIffSimilar(ignored, path, v, v);
    SimilarReflexive(Prune(ignored, path, v));
  }

  // ----- what exactly is reported -----

  datatype Place = Key(key: string) | Index(index: nat)

  function MemberOf(v: Json, k: string): Side
    requires v.Obj?
  {
    if k in v.fields then Value(v.fields[k]) else Missing
  }

  /** The two sides themselves differ, whatever is inside them; `d` is the report. */
  predicate DiffersHere(path: string, b: Side, c: Side, d: Difference) {
    if b.Value? && c.Value? then
      if b.json.Obj? && c.json.Obj? then false
      else if b.json.Arr? && c.json.Arr? then
        |b.json.items| != |c.json.items|
        && d == Difference(path + ".length", Length(|b.json.items|), Length(|c.json.items|))
      else if b.json.Number? && c.json.Number? then !Close(b.json.number, c.json.number) && d == Difference(path, b, c)
      else b != c && d == Difference(path, b, c)
    else b != c && d == Difference(path, b, c)
  }

  /** Following `places` through both sides, along paths that are not ignored, ends where `d` is reported. */
  predicate ReportedAt(ignored: iset<string>, path: string, b: Side, c: Side, places: seq<Place>, d: Difference)
    decreases |places|
  {
    path !in ignored &&
    if places == [] then DiffersHere(path, b, c, d)
    else
      b.Value? && c.Value? &&
      match places[0]
      case Key(k) =>
        && b.json.Obj? && c.json.Obj?
        && ReportedAt(ignored, Member(path, k), MemberOf(b.json, k), MemberOf(c.json, k), places[1..], d)
      case Index(i) =>
        && b.json.Arr? && c.json.Arr? && i < Common(b.json, c.json)
        && ReportedAt(ignored, Element(path, i), Value(b.json.items[i]), Value(c.json.items[i]), places[1..], d)
  }

  lemma {:induction false} FlattenHolds(parts: seq<seq<Difference>>, d: Difference)
    ensures d in Flatten(parts) <==> exists i :: 0 <= i < |parts| && d in parts[i]
  {
    if parts != [] {
      FlattenHolds(parts[..|parts| - 1], d);
      assert parts == parts[..|parts| - 1] + [parts[|parts| - 1]];
    }
  }

  lemma {:induction false} FindPlace(ignored: iset<string>, path: string, b: Json, c: Json, d: Difference)
    returns (places: seq<Place>)
    requires d in Diffs(ignored, path, b, c)
    ensures ReportedAt(ignored, path, Value(b), Value(c), places, d)
    decreases b, 1
  {
    places := [];
    if b.Obj? && c.Obj? {
      var keys := Keys(b, c);
      FlattenHolds(MemberDiffs(ignored, path, b, c, keys), d);
      var i :| 0 <= i < |keys| && d in MemberDiffs(ignored, path, b, c, keys)[i];
      places := FindInMember(ignored, path, b, c, keys[i], d);
    } else if b.Arr? && c.Arr? {
      if d !in LengthDiffs(path, b, c) {
        FlattenHolds(ElementDiffs(ignored, path, b, c), d);
        var i :| 0 <= i < Common(b, c) && d in ElementDiffs(ignored, path, b, c)[i];
        var rest := FindPlace(ignored, Element(path, i), b.items[i], c.items[i], d);
        places := [Index(i)] + rest;
        assert places[1..] == rest;
      }
    }
  }

  lemma {:induction false} FindInMember(ignored: iset<string>, path: string, b: Json, c: Json, k: string, d: Difference)
    returns (places: seq<Place>)
    requires b.Obj? && c.Obj? && (k in b.fields || k in c.fields) && path !in ignored
    requires d in KeyDiffs(ignored, Member(path, k), b, c, k)
    ensures ReportedAt(ignored, path, Value(b), Value(c), places, d)
    decreases b, 0
  {
    var rest: seq<Place> := [];
    if k in b.fields && k in c.fields {
      rest := FindPlace(ignored, Member(path, k), b.fields[k], c.fields[k], d);
    }
    places := [Key(k)] + rest;
    assert places[1..] == rest;
    assert ReportedAt(ignored, Member(path, k), MemberOf(b, k), MemberOf(c, k), rest, d);
  }

  lemma {:induction false} PlaceIsReported(
    ignored: iset<string>, path: string, b: Json, c: Json, places: seq<Place>, d: Difference)
    requires ReportedAt(ignored, path, Value(b), Value(c), places, d)
    ensures d in Diffs(ignored, path, b, c)
    decreases |places|, 0
  {
    if places == [] {
      DifferenceHere(ignored, path, b, c, d);
    } else {
      match places[0]
      case Key(k) => MemberIsReported(ignored, path, b, c, k, places[1..], d);
      case Index(i) => ElementIsReported(ignored, path, b, c, i, places[1..], d);
    }
  }

  lemma DifferenceHere(ignored: iset<string>, path: string, b: Json, c: Json, d: Difference)
    requires path !in ignored && DiffersHere(path, Value(b), Value(c), d)
    ensures d in Diffs(ignored, path, b, c)
  {
    if b.Arr? && c.Arr? {
      assert d in LengthDiffs(path, b, c);
    }
  }

  lemma {:induction false} MemberIsReported(
    ignored: iset<string>, path: string, b: Json, c: Json, k: string, rest: seq<Place>, d: Difference)
    requires b.Obj? && c.Obj? && ReportedAt(ignored, Member(path, k), MemberOf(b, k), MemberOf(c, k), rest, d)
    ensures d in Flatten(MemberDiffs(ignored, path, b, c, Keys(b, c)))
    decreases |rest|, 1
  {
    KeyIsReported(ignored, Member(path, k), b, c, k, rest, d);
    KeyInMembers(ignored, path, b, c, Keys(b, c), k, d);
  }

  lemma {:induction false} KeyIsReported(
    ignored: iset<string>, path: string, b: Json, c: Json, k: string, rest: seq<Place>, d: Difference)
    requires b.Obj? && c.Obj? && ReportedAt(ignored, path, MemberOf(b, k), MemberOf(c, k), rest, d)
    ensures (k in b.fields || k in c.fields) && d in KeyDiffs(ignored, path, b, c, k)
    decreases |rest|, 0
  {
    if k in b.fields && k in c.fields {
      if rest == [] {
        DifferenceHere(ignored, path, b.fields[k], c.fields[k], d);
      } else {
        match rest[0]
        case Key(l) => MemberIsReported(ignored, path, b.fields[k], c.fields[k], l, rest[1..], d);
        case Index(i) => ElementIsReported(ignored, path, b.fields[k], c.fields[k], i, rest[1..], d);
      }
    }
  }

  lemma KeyInMembers(ignored: iset<string>, path: string, b: Json, c: Json, keys: seq<string>, k: string, d: Difference)
    requires b.Obj? && c.Obj? && OnEitherSide(keys, b, c) && k in keys && (k in b.fields || k in c.fields)
    requires d in KeyDiffs(ignored, Member(path, k), b, c, k)
    ensures d in Flatten(MemberDiffs(ignored, path, b, c, keys))
  {
    var parts := MemberDiffs(ignored, path, b, c, keys);
    var i :| 0 <= i < |keys| && keys[i] == k;
    assert d in parts[i];
    FlattenHolds(parts, d);
  }

  lemma {:induction false} ElementIsReported(
    ignored: iset<string>, path: string, b: Json, c: Json, i: nat, rest: seq<Place>, d: Difference)
    requires b.Arr? && c.Arr? && i < Common(b, c)
    requires ReportedAt(ignored, Element(path, i), Value(b.items[i]), Value(c.items[i]), rest, d)
    ensures d in Flatten(ElementDiffs(ignored, path, b, c))
    decreases |rest|, 1
  {
    PlaceIsReported(ignored, Element(path, i), b.items[i], c.items[i], rest, d);
    var parts := ElementDiffs(ignored, path, b, c);
    assert d in parts[i];
    FlattenHolds(parts, d);
  }

  /** `d` is the report for some place, not ignored on the way, at which the sides differ. */
  ghost predicate Reported(ignored: iset<string>, path: string, b: Side, c: Side, d: Difference) {
    exists places :: ReportedAt(ignored, path, b, c, places, d)
  }

  /** Exactly those differences are listed. */
  lemma ReportsExactly(ignored: iset<string>, path: string, b: Json, c: Json, d: Difference)
    ensures d in Diffs(ignored, path, b, c) <==> Reported(ignored, path, Value(b), Value(c), d)
  {
    if d in Diffs(ignored, path, b, c) {
      var places := FindPlace(ignored, path, b, c, d);
    }
    if Reported(ignored, path, Value(b), Value(c), d) {
      var places :| ReportedAt(ignored, path, Value(b), Value(c), places, d);
      PlaceIsReported(ignored, path, b, c, places, d);
    }
  }

  // ----- swapping the sides -----

  function Swapped(diffs: seq<Difference>): (r: seq<Difference>)
    ensures |r| == |diffs|
    ensures forall i | 0 <= i < |r| :: r[i] == Difference(diffs[i].path, diffs[i].candidate, diffs[i].baseline)
  {
    if diffs == [] then [] else
      var d := diffs[0];
      [Difference(d.path, d.candidate, d.baseline)] + Swapped(diffs[1..])
  }

  lemma SwappedConcat(a: seq<Difference>, b: seq<Difference>)
    ensures Swapped(a + b) == Swapped(a) + Swapped(b)
  {
  }

  lemma {:induction false} SwappedFlatten(parts: seq<seq<Difference>>, swapped: seq<seq<Difference>>)
    requires |swapped| == |parts| && forall i | 0 <= i < |parts| :: swapped[i] == Swapped(parts[i])
    ensures Flatten(swapped) == Swapped(Flatten(parts))
  {
    if parts != [] {
      var n := |parts| - 1;
      SwappedFlatten(parts[..n], swapped[..n]);
      SwappedConcat(Flatten(parts[..n]), parts[n]);
    }
  }

  /** Swapping the arguments swaps the sides of every difference and changes nothing else. */
  lemma {:induction false} SwapDiffs(ignored: iset<string>, path: string, b: Json, c: Json)
    ensures Diffs(ignored, path, c, b) == Swapped(Diffs(ignored, path, b, c))
    decreases b, 1, 0
  {
    if path in ignored {
    } else if b.Obj? && c.Obj? {
      assert b.fields.Keys + c.fields.Keys == c.fields.Keys + b.fields.Keys;
      SwapMembers(ignored, path, b, c, Keys(b, c));
    } else if b.Arr? && c.Arr? {
      SwapElements(ignored, path, b, c);
      SwappedConcat(LengthDiffs(path, b, c), Flatten(ElementDiffs(ignored, path, b, c)));
    }
  }

  lemma {:induction false} SwapMembers(ignored: iset<string>, path: string, b: Json, c: Json, keys: seq<string>)
    requires b.Obj? && c.Obj? && OnEitherSide(keys, b, c)
    ensures Flatten(MemberDiffs(ignored, path, c, b, keys)) == Swapped(Flatten(MemberDiffs(ignored, path, b, c, keys)))
    decreases b, 0, 1
  {
    var parts, swapped := MemberDiffs(ignored, path, b, c, keys), MemberDiffs(ignored, path, c, b, keys);
    forall i | 0 <= i < |parts| ensures swapped[i] == Swapped(parts[i]) {
      SwapKey(ignored, Member(path, keys[i]), b, c, keys[i]);
    }
    SwappedFlatten(parts, swapped);
  }

  lemma {:induction false} SwapKey(ignored: iset<string>, path: string, b: Json, c: Json, k: string)
    requires b.Obj? && c.Obj? && (k in b.fields || k in c.fields)
    ensures KeyDiffs(ignored, path, c, b, k) == Swapped(KeyDiffs(ignored, path, b, c, k))
    decreases b, 0, 0
  {
    if k in b.fields && k in c.fields {
      SwapDiffs(ignored, path, b.fields[k], c.fields[k]);
    }
  }

  lemma {:induction false} SwapElements(ignored: iset<string>, path: string, b: Json, c: Json)
    requires b.Arr? && c.Arr?
    ensures Flatten(ElementDiffs(ignored, path, c, b)) == Swapped(Flatten(ElementDiffs(ignored, path, b, c)))
    decreases b, 0
  {
    var parts, swapped := ElementDiffs(ignored, path, b, c), ElementDiffs(ignored, path, c, b);
    forall i | 0 <= i < |parts| ensures swapped[i] == Swapped(parts[i]) {
      SwapDiffs(ignored, Element(path, i), b.items[i], c.items[i]);
    }
    SwappedFlatten(parts, swapped);
  }

  // ----- adding patterns -----

  /** `a` is `b` with some entries left out. */
  predicate Subsequence(a: seq<Difference>, b: seq<Difference>) {
    if b == [] then a == []
    else
      || (a != [] && a[|a| - 1] == b[|b| - 1] && Subsequence(a[..|a| - 1], b[..|b| - 1]))
      || Subsequence(a, b[..|b| - 1])
  }

  lemma {:induction false} SubsequenceConcat(
    a: seq<Difference>, b: seq<Difference>, c: seq<Difference>, d: seq<Difference>)
    requires Subsequence(a, b) && Subsequence(c, d)
    ensures Subsequence(a + c, b + d)
    decreases |d|
  {
    if d == [] {
      assert a + c == a && b + d == b;
    } else {
      var rest := d[..|d| - 1];
      assert (b + d)[..|b + d| - 1] == b + rest && (b + d)[|b + d| - 1] == d[|d| - 1];
      if Subsequence(c, rest) {
        SubsequenceConcat(a, b, c, rest);
      } else {
        assert (a + c)[..|a + c| - 1] == a + c[..|c| - 1];
        SubsequenceConcat(a, b, c[..|c| - 1], rest);
      }
    }
  }

  lemma {:induction false} EmptyIsSubsequence(b: seq<Difference>)
    ensures Subsequence([], b)
  {
    if b != [] {
      EmptyIsSubsequence(b[..|b| - 1]);
    }
  }

  /** Adding patterns to a section ignores more paths. */
  lemma PatternsExtend(more: Rules, r: Rules)
    requires more.fields == r.fields && forall i | 0 <= i < |r.patterns| :: r.patterns[i] in more.patterns
    ensures IgnoredPaths(r) <= IgnoredPaths(more)
  {
    forall path | path in IgnoredPaths(r) ensures path in IgnoredPaths(more) {
      if !Volatility.GloballyIgnored(r.fields, path) {
        var i :| 0 <= i < |r.patterns| && Volatility.GlobMatches(r.patterns[i], path);
        var j :| 0 <= j < |more.patterns| && more.patterns[j] == r.patterns[i];
        assert Volatility.GlobMatches(more.patterns[j], path);
      }
    }
  }

  lemma {:induction false} SubsequenceReflexive(a: seq<Difference>)
    ensures Subsequence(a, a)
  {
    if a != [] {
      SubsequenceReflexive(a[..|a| - 1]);
    }
  }

  lemma {:induction false} SubsequenceFlatten(fewer: seq<seq<Difference>>, parts: seq<seq<Difference>>)
    requires |fewer| == |parts| && forall i | 0 <= i < |parts| :: Subsequence(fewer[i], parts[i])
    ensures Subsequence(Flatten(fewer), Flatten(parts))
  {
    if parts != [] {
      var n := |parts| - 1;
      SubsequenceFlatten(fewer[..n], parts[..n]);
      SubsequenceConcat(Flatten(fewer[..n]), Flatten(parts[..n]), fewer[n], parts[n]);
    }
  }

  /** Ignoring more only removes differences; what is left keeps its order. */
  lemma {:induction false} IgnoringMore(more: iset<string>, ignored: iset<string>, path: string, b: Json, c: Json)
    requires ignored <= more
    ensures Subsequence(Diffs(more, path, b, c), Diffs(ignored, path, b, c))
    decreases b, 1, 0
  {
    if path in more {
      EmptyIsSubsequence(Diffs(ignored, path, b, c));
    } else if b.Obj? && c.Obj? {
      IgnoringMoreMembers(more, ignored, path, b, c, Keys(b, c));
    } else if b.Arr? && c.Arr? {
      IgnoringMoreElements(more, ignored, path, b, c);
      var sizes := LengthDiffs(path, b, c);
      SubsequenceReflexive(sizes);
      SubsequenceConcat(sizes, sizes,
                        Flatten(ElementDiffs(more, path, b, c)), Flatten(ElementDiffs(ignored, path, b, c)));
    } else {
      SubsequenceReflexive(Diffs(ignored, path, b, c));
    }
  }

  lemma {:induction false} IgnoringMoreMembers(
    more: iset<string>, ignored: iset<string>, path: string, b: Json, c: Json, keys: seq<string>)
    requires ignored <= more && b.Obj? && c.Obj? && OnEitherSide(keys, b, c)
    ensures Subsequence(Flatten(MemberDiffs(more, path, b, c, keys)), Flatten(MemberDiffs(ignored, path, b, c, keys)))
    decreases b, 0, 1
  {
    var fewer, parts := MemberDiffs(more, path, b, c, keys), MemberDiffs(ignored, path, b, c, keys);
    forall i | 0 <= i < |parts| ensures Subsequence(fewer[i], parts[i]) {
      IgnoringMoreKey(more, ignored, Member(path, keys[i]), b, c, keys[i]);
    }
    SubsequenceFlatten(fewer, parts);
  }

  lemma {:induction false} IgnoringMoreKey(
    more: iset<string>, ignored: iset<string>, path: string, b: Json, c: Json, k: string)
    requires ignored <= more && b.Obj? && c.Obj? && (k in b.fields || k in c.fields)
    ensures Subsequence(KeyDiffs(more, path, b, c, k), KeyDiffs(ignored, path, b, c, k))
    decreases b, 0, 0
  {
    if k in b.fields && k in c.fields {
      IgnoringMore(more, ignored, path, b.fields[k], c.fields[k]);
    } else {
      SubsequenceReflexive(KeyDiffs(ignored, path, b, c, k));
      EmptyIsSubsequence(KeyDiffs(ignored, path, b, c, k));
    }
  }

  lemma {:induction false} IgnoringMoreElements(
    more: iset<string>, ignored: iset<string>, path: string, b: Json, c: Json)
    requires ignored <= more && b.Arr? && c.Arr?
    ensures Subsequence(Flatten(ElementDiffs(more, path, b, c)), Flatten(ElementDiffs(ignored, path, b, c)))
    decreases b, 0
  {
    var fewer, parts := ElementDiffs(more, path, b, c), ElementDiffs(ignored, path, b, c);
    forall i | 0 <= i < |parts| ensures Subsequence(fewer[i], parts[i]) {
      IgnoringMore(more, ignored, Element(path, i), b.items[i], c.items[i]);
    }
    SubsequenceFlatten(fewer, parts);
  }
}
