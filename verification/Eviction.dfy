/**
  Oldest-first eviction under a byte budget (crates/catalyrst-bvimposters/src/store.rs, `evict_pass`).
  The directory tree is a table of files; a rename that fails leaves its file in place. Times are in
  milliseconds.
 */
module Eviction {

  type Path = string

  datatype File = File(mtime: int, len: nat)

  datatype Entry = Entry(path: Path, mtime: int, len: nat)

  const EVICT_MIN_AGE := 3_600_000

  /** A file from the future counts as age zero. */
  predicate Young(mtime: int, now: int) {
    now - mtime < EVICT_MIN_AGE
  }

  function Sum(q: seq<Entry>): nat {
    if q == [] then 0 else q[0].len + Sum(q[1..])
  }

  function InsertByAge(e: Entry, q: seq<Entry>): (r: seq<Entry>)
    ensures forall x :: x in r <==> x == e || x in q
    ensures Sum(r) == e.len + Sum(q)
  {
    if q == [] || e.mtime <= q[0].mtime then
      assert ([e] + q)[1..] == q;
      [e] + q
    else
      var rest := InsertByAge(e, q[1..]);
      assert q == [q[0]] + q[1..] && ([q[0]] + rest)[1..] == rest;
      [q[0]] + rest
  }

  /** Stable sort by modification time. */
  function SortByAge(q: seq<Entry>): (r: seq<Entry>)
    ensures forall x :: x in r <==> x in q
    ensures Sum(r) == Sum(q)
  {
    if q == [] then [] else
      assert q == [q[0]] + q[1..];
      InsertByAge(q[0], SortByAge(q[1..]))
  }

  ghost predicate OldestFirst(q: seq<Entry>) {
    forall i, j | 0 <= i < j < |q| :: q[i].mtime <= q[j].mtime
  }

  ghost predicate DistinctPaths(q: seq<Entry>) {
    forall i, j | 0 <= i < j < |q| :: q[i].path != q[j].path
  }

  lemma {:induction false} InsertKeepsOrder(e: Entry, q: seq<Entry>)
    requires OldestFirst(q)
    ensures OldestFirst(InsertByAge(e, q))
  {
    if q != [] && e.mtime > q[0].mtime {
      InsertKeepsOrder(e, q[1..]);
      var rest := InsertByAge(e, q[1..]);
      forall i | 0 <= i < |rest| ensures q[0].mtime <= rest[i].mtime {
        assert rest[i] in rest;
      }
    }
  }

  lemma {:induction false} InsertKeepsDistinct(e: Entry, q: seq<Entry>)
    requires DistinctPaths(q) && forall x | x in q :: x.path != e.path
    ensures DistinctPaths(InsertByAge(e, q))
  {
    if q != [] && e.mtime > q[0].mtime {
      InsertKeepsDistinct(e, q[1..]);
      var rest := InsertByAge(e, q[1..]);
      forall i | 0 <= i < |rest| ensures q[0].path != rest[i].path {
        assert rest[i] in rest;
      }
    }
  }

  lemma {:induction false} SortKeeps(q: seq<Entry>)
    requires DistinctPaths(q)
    ensures OldestFirst(SortByAge(q)) && DistinctPaths(SortByAge(q))
  {
    if q != [] {
      SortKeeps(q[1..]);
      forall x | x in SortByAge(q[1..]) ensures x.path != q[0].path {
        assert x in q[1..];
      }
      InsertKeepsOrder(q[0], SortByAge(q[1..]));
      InsertKeepsDistinct(q[0], SortByAge(q[1..]));
    }
  }

  /** The entries last modified at `mtime`, in order. */
  function AtTime(q: seq<Entry>, mtime: int): seq<Entry> {
    if q == [] then []
    else if q[0].mtime == mtime then [q[0]] + AtTime(q[1..], mtime)
    else AtTime(q[1..], mtime)
  }

  lemma AtTimeFirst(e: Entry, q: seq<Entry>, mtime: int)
    ensures AtTime([e] + q, mtime) == if e.mtime == mtime then [e] + AtTime(q, mtime) else AtTime(q, mtime)
  {
    assert ([e] + q)[1..] == q;
  }

  lemma {:induction false} InsertFirstAmongEquals(e: Entry, q: seq<Entry>, mtime: int)
    ensures AtTime(InsertByAge(e, q), mtime) == if e.mtime == mtime then [e] + AtTime(q, mtime) else AtTime(q, mtime)
  {
    if q == [] || e.mtime <= q[0].mtime {
      AtTimeFirst(e, q, mtime);
    } else {
      AtTimeFirst(q[0], InsertByAge(e, q[1..]), mtime);
      InsertFirstAmongEquals(e, q[1..], mtime);
    }
  }

  /** The sort is stable: entries of one time keep their order, and none is lost or doubled. */
  lemma {:induction false} SortIsStable(q: seq<Entry>, mtime: int)
    ensures AtTime(SortByAge(q), mtime) == AtTime(q, mtime)
  {
    if q != [] {
      SortIsStable(q[1..], mtime);
      InsertFirstAmongEquals(q[0], SortByAge(q[1..]), mtime);
    }
  }

  // ----- the sweep -----

  datatype Swept = Swept(evicted: seq<Entry>, kept: seq<Entry>)

  predicate Movable(e: Entry, now: int, stuck: set<Path>) {
    !Young(e.mtime, now) && e.path !in stuck
  }

  /** The removal loop over the files still to be visited, `total` being the bytes left in the store. */
  function SweepFrom(q: seq<Entry>, total: int, now: int, budget: nat, stuck: set<Path>): Swept {
    if q == [] || total <= budget then Swept([], q)
    else if Movable(q[0], now, stuck) then
      var r := SweepFrom(q[1..], total - q[0].len, now, budget, stuck);
      Swept([q[0]] + r.evicted, r.kept)
    else
      var r := SweepFrom(q[1..], total, now, budget, stuck);
      Swept(r.evicted, [q[0]] + r.kept)
  }

  /** The total left to account for once the first file has been looked at. */
  function NextTotal(q: seq<Entry>, total: int, now: int, stuck: set<Path>): int
    requires q != []
  {
    if Movable(q[0], now, stuck) then total - q[0].len else total
  }

  /** Every file is either removed or kept, and bytes are accounted for. */
  lemma {:induction false} SweepPartitions(q: seq<Entry>, total: int, now: int, budget: nat, stuck: set<Path>)
    ensures var r := SweepFrom(q, total, now, budget, stuck);
            && Sum(r.evicted) + Sum(r.kept) == Sum(q)
            && multiset(r.evicted) + multiset(r.kept) == multiset(q)
  {
    if q != [] && total > budget {
      var next := NextTotal(q, total, now, stuck);
      var r' := SweepFrom(q[1..], next, now, budget, stuck);
      SweepPartitions(q[1..], next, now, budget, stuck);
      assert q == [q[0]] + q[1..];
      assert ([q[0]] + r'.evicted)[1..] == r'.evicted && ([q[0]] + r'.kept)[1..] == r'.kept;
    }
  }

  lemma {:induction false} SweepKeepsDistinct(q: seq<Entry>, total: int, now: int, budget: nat, stuck: set<Path>)
    requires DistinctPaths(q)
    ensures var r := SweepFrom(q, total, now, budget, stuck);
            DistinctPaths(r.kept) && forall e | e in r.kept :: e in q
  {
    if q != [] && total > budget {
      SweepKeepsDistinct(q[1..], NextTotal(q, total, now, stuck), now, budget, stuck);
      assert q == [q[0]] + q[1..];
      var r' := SweepFrom(q[1..], NextTotal(q, total, now, stuck), now, budget, stuck);
      forall i | 0 <= i < |r'.kept| ensures r'.kept[i].path != q[0].path {
        assert r'.kept[i] in q[1..];
      }
    }
  }

  /** Only movable files go; it ends within budget or with nothing movable; no removal was one too many. */
  lemma {:induction false} SweepIsFair(q: seq<Entry>, total: int, now: int, budget: nat, stuck: set<Path>)
    ensures var r := SweepFrom(q, total, now, budget, stuck);
            && (forall e | e in r.evicted :: Movable(e, now, stuck))
            && (total - Sum(r.evicted) <= budget || forall e | e in r.kept :: !Movable(e, now, stuck))
            && (r.evicted != [] ==> total - Sum(r.evicted) + r.evicted[|r.evicted| - 1].len > budget)
  {
    if q != [] && total > budget {
      var next := if Movable(q[0], now, stuck) then total - q[0].len else total;
      SweepIsFair(q[1..], next, now, budget, stuck);
      var r' := SweepFrom(q[1..], next, now, budget, stuck);
      assert ([q[0]] + r'.evicted)[1..] == r'.evicted;
      if Movable(q[0], now, stuck) && r'.evicted != [] {
        assert ([q[0]] + r'.evicted)[|r'.evicted|] == r'.evicted[|r'.evicted| - 1];
      }
    }
  }

  lemma {:induction false} NothingMovable(q: seq<Entry>, total: int, now: int, budget: nat, stuck: set<Path>)
    requires forall e | e in q :: !Movable(e, now, stuck)
    ensures SweepFrom(q, total, now, budget, stuck) == Swept([], q)
  {
    if q != [] && total > budget {
      assert q == [q[0]] + q[1..];
      NothingMovable(q[1..], total, now, budget, stuck);
    }
  }

  lemma YoungFromHere(q: seq<Entry>, now: int)
    requires OldestFirst(q) && q != [] && Young(q[0].mtime, now)
    ensures forall e | e in q :: !Movable(e, now, {})
  {
    forall e | e in q ensures Young(e.mtime, now) {
      var i :| 0 <= i < |q| && q[i] == e;
      assert q[0].mtime <= q[i].mtime;
    }
  }

  lemma FirstAndRest(q: seq<Entry>, a: seq<Entry>, b: seq<Entry>)
    requires q != [] && a + b == q[1..]
    ensures ([q[0]] + a) + b == q
  {
  }

  /** When renames succeed, what goes is a prefix of the files in order of age. */
  lemma {:induction false} SweepTakesPrefix(q: seq<Entry>, total: int, now: int, budget: nat)
    requires OldestFirst(q)
    ensures var r := SweepFrom(q, total, now, budget, {}); r.evicted + r.kept == q
  {
    if q != [] && total > budget {
      if Movable(q[0], now, {}) {
        SweepTakesPrefix(q[1..], total - q[0].len, now, budget);
        var r := SweepFrom(q[1..], total - q[0].len, now, budget, {});
        FirstAndRest(q, r.evicted, r.kept);
      } else {
        YoungFromHere(q, now);
        NothingMovable(q, total, now, budget, {});
      }
    }
  }

  /**
    When renames succeed, the removed files are the shortest prefix, oldest first, that brings the store
    within budget, cut short at the first file younger than an hour.
   */
  lemma EvictsShortestPrefix(q: seq<Entry>, now: int, budget: nat) returns (k: nat)
    requires OldestFirst(q)
    ensures k <= |q| && SweepFrom(q, Sum(q), now, budget, {}) == Swept(q[..k], q[k..])
    ensures forall e | e in q[..k] :: now - e.mtime >= 3_600_000
    ensures Sum(q[k..]) <= budget || forall e | e in q[k..] :: now - e.mtime < 3_600_000
    ensures k > 0 ==> Sum(q[k - 1..]) > budget
  {
    var r := SweepFrom(q, Sum(q), now, budget, {});
    SweepTakesPrefix(q, Sum(q), now, budget);
    SweepPartitions(q, Sum(q), now, budget, {});
    SweepIsFair(q, Sum(q), now, budget, {});
    Shortest(r, Sum(q), now, budget);
    k := CutAt(q, r.evicted, r.kept);
  }

  lemma CutAt(q: seq<Entry>, a: seq<Entry>, b: seq<Entry>) returns (k: nat)
    requires a + b == q
    ensures k <= |q| && q[..k] == a && q[k..] == b && (k > 0 <==> a != [])
    ensures k > 0 ==> q[k - 1..] == [a[|a| - 1]] + b
  {
    k := |a|;
  }

  lemma Shortest(r: Swept, total: nat, now: int, budget: nat)
    requires Sum(r.evicted) + Sum(r.kept) == total
    requires forall e | e in r.evicted :: Movable(e, now, {})
    requires total - Sum(r.evicted) <= budget || forall e | e in r.kept :: !Movable(e, now, {})
    requires r.evicted != [] ==> total - Sum(r.evicted) + r.evicted[|r.evicted| - 1].len > budget
    ensures forall e | e in r.evicted :: now - e.mtime >= 3_600_000
    ensures Sum(r.kept) <= budget || forall e | e in r.kept :: now - e.mtime < 3_600_000
    ensures r.evicted != [] ==> Sum([r.evicted[|r.evicted| - 1]] + r.kept) > budget
  {
    if r.evicted != [] {
      assert ([r.evicted[|r.evicted| - 1]] + r.kept)[1..] == r.kept;
    }
  }

  // ----- the store -----

  function EntryOf(p: Path, f: File): Entry {
    Entry(p, f.mtime, f.len)
  }

  /** `q` lists the files of the table, each once. */
  ghost predicate Lists(q: seq<Entry>, files: map<Path, File>) {
    && DistinctPaths(q)
    && (forall e | e in q :: e.path in files && e == EntryOf(e.path, files[e.path]))
    && forall p | p in files :: EntryOf(p, files[p]) in q
  }

  function PathsOf(q: seq<Entry>): set<Path> {
    set e | e in q :: e.path
  }

  /** The kept files are what is left of the table once the removed ones are gone. */
  lemma KeptAreLeft(q: seq<Entry>, files: map<Path, File>, total: int, now: int, budget: nat, stuck: set<Path>)
    requires Lists(q, files)
    ensures var r := SweepFrom(q, total, now, budget, stuck); Lists(r.kept, files - PathsOf(r.evicted))
  {
    var r := SweepFrom(q, total, now, budget, stuck);
    SweepPartitions(q, total, now, budget, stuck);
    SweepKeepsDistinct(q, total, now, budget, stuck);
    var left := files - PathsOf(r.evicted);
    forall e ensures e in q <==> e in r.evicted || e in r.kept {
      assert e in multiset(q) <==> e in multiset(r.evicted) || e in multiset(r.kept);
    }
    forall e | e in r.kept ensures e.path in left {
      KeptNotEvicted(q, r, e);
    }
  }

  lemma OnceEach(q: seq<Entry>, e: Entry)
    requires DistinctPaths(q) && e in q
    ensures multiset(q)[e] == 1 && forall x | x in q && x.path == e.path :: x == e
  {
    var i :| 0 <= i < |q| && q[i] == e;
    assert q == q[..i] + [e] + q[i + 1..];
    assert e !in q[..i] && e !in q[i + 1..];
  }

  lemma KeptNotEvicted(q: seq<Entry>, r: Swept, e: Entry)
    requires DistinctPaths(q) && multiset(r.evicted) + multiset(r.kept) == multiset(q) && e in r.kept
    ensures e.path !in PathsOf(r.evicted)
  {
    assert e in multiset(r.kept) && e in multiset(q);
    OnceEach(q, e);
    forall x | x in r.evicted ensures x.path != e.path {
      assert x in multiset(r.evicted) && x in multiset(q);
      assert x != e;
    }
  }

  class Store {
    const maxBytes: nat
    var files: map<Path, File>

    constructor (maxBytes: nat, files: map<Path, File>)
      ensures this.maxBytes == maxBytes && this.files == files
    {
      this.maxBytes := maxBytes;
      this.files := files;
    }

    /** Lists the files in whatever order the directories yield them. */
    method Scan() returns (entries: seq<Entry>)
      ensures Lists(entries, files)
    {
      entries := [];
      var todo := files.Keys;
      while todo != {}
        invariant todo <= files.Keys && DistinctPaths(entries)
        invariant forall e | e in entries :: e.path in files && e.path !in todo && e == EntryOf(e.path, files[e.path])
        invariant forall p | p in files && p !in todo :: EntryOf(p, files[p]) in entries
      {
        var p :| p in todo;
        entries := entries + [EntryOf(p, files[p])];
        todo := todo - {p};
      }
    }

    /** `stuck` are the paths whose rename out of the store fails; `order` is the order of the sweep. */
    method EvictPass(now: int, stuck: set<Path>) returns (total: nat, ghost order: seq<Entry>)
      modifies this`files
      ensures Lists(order, old(files)) && OldestFirst(order)
      ensures var r := SweepFrom(order, Sum(order), now, maxBytes, stuck);
              && files == old(files) - PathsOf(r.evicted)
              && Lists(r.kept, files) && total == Sum(r.kept)
    {
      var entries := Scan();
      total := 0;
      assert entries[0..] == entries;
      for i := 0 to |entries|
        invariant total + Sum(entries[i..]) == Sum(entries)
      {
        assert entries[i..][1..] == entries[i + 1..];
        total := total + entries[i].len;
      }
      SortKeeps(entries);
      order := SortByAge(entries);
      assert Lists(order, files);
      KeptAreLeft(order, files, Sum(order), now, maxBytes, stuck);
      SweepPartitions(order, Sum(order), now, maxBytes, stuck);
      if total > maxBytes {
        entries := SortByAge(entries);
        total := Sweep(entries, total, now, stuck);
      } else {
        assert files - PathsOf([]) == files;
      }
    }

    method Sweep(entries: seq<Entry>, sum: nat, now: int, stuck: set<Path>) returns (total: nat)
      requires sum == Sum(entries)
      modifies this`files
      ensures var r := SweepFrom(entries, sum, now, maxBytes, stuck);
              files == old(files) - PathsOf(r.evicted) && total == sum - Sum(r.evicted)
    {
      total := sum;
      ghost var gone: seq<Entry> := [];
      var i := 0;
      assert entries[0..] == entries;
      ghost var all := SweepFrom(entries, sum, now, maxBytes, stuck).evicted;
      assert [] + all == all;
      while i < |entries| && total > maxBytes
        invariant 0 <= i <= |entries|
        invariant total >= Sum(entries[i..])
        invariant all == gone + SweepFrom(entries[i..], total, now, maxBytes, stuck).evicted
        invariant files == old(files) - PathsOf(gone)
        invariant total == sum - Sum(gone)
      {
        var e := entries[i];
        assert entries[i..][1..] == entries[i + 1..];
        ghost var next := if Movable(e, now, stuck) then total - e.len else total;
        ghost var rest := SweepFrom(entries[i + 1..], next, now, maxBytes, stuck).evicted;
        if !Young(e.mtime, now) {
          if e.path !in stuck {
            files := files - {e.path};
            total := total - e.len;
            assert gone + ([e] + rest) == (gone + [e]) + rest;
            SumAppend(gone, e);
            gone := gone + [e];
          }
        }
        i := i + 1;
      }
      assert gone + [] == gone;
    }
  }

  lemma {:induction false} SumAppend(q: seq<Entry>, e: Entry)
    ensures Sum(q + [e]) == Sum(q) + e.len
  {
    if q != [] {
      SumAppend(q[1..], e);
      assert (q + [e])[1..] == q[1..] + [e];
    }
  }
}
