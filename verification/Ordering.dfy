/**
  The order in which the service visits string keys: peers by address, object members by key.
  Rust compares strings code point by code point, which is the order of `AtMost`.
 */
module Ordering {

  predicate AtMost(a: string, b: string) {
    a == [] || (b != [] && (a[0] < b[0] || (a[0] == b[0] && AtMost(a[1..], b[1..]))))
  }

  /** `a` and `b` agree up to place `i`, where `a` has the lower character. */
  predicate LowerAt(a: string, b: string, i: nat) {
    i < |a| && i < |b| && a[..i] == b[..i] && a[i] < b[i]
  }

  /** The order is the one of dictionaries: a beginning comes first, else the first place that differs decides. */
  lemma {:induction false} AtMostIff(a: string, b: string)
    ensures AtMost(a, b) <==> a <= b || exists i :: LowerAt(a, b, i)
  {
    if a != [] && b != [] {
      if a[0] < b[0] {
        assert LowerAt(a, b, 0);
      } else if a[0] == b[0] {
        AtMostIff(a[1..], b[1..]);
        LowerLater(a, b);
      }
    }
  }

  lemma LowerLater(a: string, b: string)
    requires a != [] && b != [] && a[0] == b[0]
    ensures (exists i :: LowerAt(a, b, i)) <==> exists i :: LowerAt(a[1..], b[1..], i)
    ensures a <= b <==> a[1..] <= b[1..]
  {
    assert a == [a[0]] + a[1..] && b == [b[0]] + b[1..];
    if i: nat :| LowerAt(a[1..], b[1..], i) {
      assert a[..i + 1] == [a[0]] + a[1..][..i] && b[..i + 1] == [b[0]] + b[1..][..i];
      assert LowerAt(a, b, i + 1);
    }
    if i: nat :| LowerAt(a, b, i) {
      assert i > 0;
      assert a[1..][..i - 1] == a[..i][1..] && b[1..][..i - 1] == b[..i][1..];
      assert LowerAt(a[1..], b[1..], i - 1);
    }
  }

  lemma {:induction false} AtMostTotal(a: string, b: string)
    ensures AtMost(a, b) || AtMost(b, a)
    ensures AtMost(a, b) && AtMost(b, a) ==> a == b
  {
    if a != [] && b != [] && a[0] == b[0] {
      AtMostTotal(a[1..], b[1..]);
      assert a == [a[0]] + a[1..] && b == [b[0]] + b[1..];
    }
  }

  lemma {:induction false} AtMostTransitive(a: string, b: string, c: string)
    requires AtMost(a, b) && AtMost(b, c)
    ensures AtMost(a, c)
  {
    if a != [] && a[0] == b[0] && b[0] == c[0] {
      AtMostTransitive(a[1..], b[1..], c[1..]);
    }
  }

  lemma {:induction false} FindLeast(s: set<string>) returns (m: string)
    requires s != {}
    ensures m in s && forall x | x in s :: AtMost(m, x)
  {
    var y :| y in s;
    if s == {y} {
      m := y;
      AtMostTotal(y, y);
    } else {
      var least := FindLeast(s - {y});
      m := if AtMost(y, least) then y else least;
      AtMostTotal(least, y);
      forall x | x in s ensures AtMost(m, x) {
        if x == y {
          AtMostTotal(y, y);
        } else if m == y {
          AtMostTransitive(y, least, x);
        }
      }
    }
  }

  predicate IsLeast(m: string, s: set<string>) {
    m in s && forall x | x in s :: AtMost(m, x)
  }

  lemma OneLeast(s: set<string>)
    requires s != {}
    ensures exists m :: IsLeast(m, s)
    ensures forall m, n | IsLeast(m, s) && IsLeast(n, s) :: m == n
  {
    var least := FindLeast(s);
    assert IsLeast(least, s);
    forall m, n | IsLeast(m, s) && IsLeast(n, s) ensures m == n {
      AtMostTotal(m, n);
    }
  }

  function Least(s: set<string>): (m: string)
    requires s != {}
    ensures IsLeast(m, s)
  {
    OneLeast(s);
    var m :| IsLeast(m, s);
    m
  }

  predicate Increasing(q: seq<string>) {
    forall i, j | 0 <= i < j < |q| :: AtMost(q[i], q[j]) && q[i] != q[j]
  }

  /** The elements of `s` in increasing order. */
  function Ordered(s: set<string>): (q: seq<string>)
    ensures forall x :: x in q <==> x in s
    ensures |q| == |s|
  {
    if s == {} then [] else
      var m := Least(s);
      var rest := Ordered(s - {m});
      [m] + rest
  }

  lemma {:induction false} OrderedIncreases(s: set<string>)
    ensures Increasing(Ordered(s))
  {
    if s != {} {
      var m := Least(s);
      var rest := Ordered(s - {m});
      OrderedIncreases(s - {m});
      forall x | x in rest ensures x != m && AtMost(m, x) {
        assert x in s - {m};
      }
      LeastFirst(m, rest);
    }
  }

  lemma LeastFirst(m: string, rest: seq<string>)
    requires Increasing(rest) && forall x | x in rest :: x != m && AtMost(m, x)
    ensures Increasing([m] + rest)
  {
    var q := [m] + rest;
    forall i, j | 0 <= i < j < |q| ensures AtMost(q[i], q[j]) && q[i] != q[j] {
      assert q[j] == rest[j - 1] && q[j] in rest;
      assert i > 0 ==> q[i] == rest[i - 1];
    }
  }
}
