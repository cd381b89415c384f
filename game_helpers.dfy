/**
 * `possibleCollisions` from src/lib/gameHelpers.ts: objects are put into square bins by
 * their centre, then every pair inside a bin is yielded, and every (mine, theirs) pair
 * between a bin and the bins its `adjacency` helper names. Coordinates are integers here.
 */
module GameHelpers {
  import opened Wrappers
  import opened Js
  import opened Strings

  /** An object that can collide: every point of it lies within `r` of `(x, y)`. */
  datatype Obj = Obj(x: int, y: int, r: int)

  /** `Math.max(...objs.map(v => v.r))`. */
  function MaxR(objs: seq<Obj>): (m: int)
    requires |objs| > 0
    ensures forall i :: 0 <= i < |objs| ==> objs[i].r <= m
    ensures exists i :: 0 <= i < |objs| && objs[i].r == m
    decreases |objs|
  {
    if |objs| == 1 then objs[0].r
    else
      var rest := MaxR(objs[1..]);
      assert forall i :: 1 <= i < |objs| ==> objs[i] == objs[1..][i - 1];
      if objs[0].r >= rest then objs[0].r else rest
  }

  /** The side of a bin: `maxr`, or the largest radius when `maxr` is omitted. */
  function CellSize(objs: seq<Obj>, maxr: Option<int>): int
    requires maxr.Some? || |objs| > 0
  {
    if maxr.Some? then maxr.value else MaxR(objs)
  }

  /** The inputs for which binning is defined: no objects, or a positive bin side. */
  predicate Usable(objs: seq<Obj>, maxr: Option<int>)
  {
    |objs| == 0 || CellSize(objs, maxr) > 0
  }

  /** `Math.floor(v / s)`: for a positive divisor, Euclidean division rounds down. */
  function Floor(v: int, s: int): int
    requires s > 0
  {
    v / s
  }

  /** `Floor(v, s)` is the cell of side `s` that holds `v`. */
  lemma FloorBounds(v: int, s: int)
    requires s > 0
    ensures s * Floor(v, s) <= v < s * Floor(v, s) + s
  {
  }

  /** The bin key `${fx},${fy}`. */
  function BinKey(cx: int, cy: int): string
  {
    IntToString(cx) + "," + IntToString(cy)
  }

  /** The key of the bin that holds `o` when bins have side `s`. */
  function KeyOf(o: Obj, s: int): string
    requires s > 0
  {
    BinKey(Floor(o.x, s), Floor(o.y, s))
  }

  /** Keys that `key.split(",").map(Number)` turns into two integers. */
  predicate IsBinKey(key: string)
  {
    var parts := Split(key, ',');
    |parts| == 2 && IsDecimal(parts[0]) && IsDecimal(parts[1])
  }

  /** `const [x, y] = key.split(",").map(Number)`. */
  function ParseKey(key: string): (int, int)
    requires IsBinKey(key)
  {
    var parts := Split(key, ',');
    (ParseInt(parts[0]), ParseInt(parts[1]))
  }

  /** A bin key splits back into the two cell coordinates it was made from. */
  lemma BinKeyParses(cx: int, cy: int)
    ensures IsBinKey(BinKey(cx, cy)) && ParseKey(BinKey(cx, cy)) == (cx, cy)
    ensures ' ' !in BinKey(cx, cy)
  {
    var a, b := IntToString(cx), IntToString(cy);
    assert ',' !in a && ',' !in b;
    assert BinKey(cx, cy) == a + [','] + b;
    SplitAfter(a, ',', b);
    SplitWithout(b, ',');
    IntToStringRoundTrip(cx);
    IntToStringRoundTrip(cy);
    assert ' ' !in a && ' ' !in b;
  }

  /** Different cells have different keys. */
  lemma BinKeyDistinct(a: int, b: int, c: int, d: int)
    requires (a, b) != (c, d)
    ensures BinKey(a, b) != BinKey(c, d)
  {
    BinKeyParses(a, b);
    BinKeyParses(c, d);
  }

  /** The cells `adjacency` names for cell E: F, G, H and I, in that order. */
  const Offsets: seq<(int, int)> := [(1, 0), (-1, 1), (0, 1), (1, 1)]

  /** `adjacency(key)`: the four neighbour keys, written with `sep` between the coordinates. */
  function Adjacency(key: string, sep: string): (adj: seq<string>)
    requires IsBinKey(key)
    ensures |adj| == 4
  {
    var (x, y) := ParseKey(key);
    seq(4, k requires 0 <= k < 4 => IntToString(x + Offsets[k].0) + sep + IntToString(y + Offsets[k].1))
  }

  /** For the bin of cell (cx, cy), `adjacency` yields the cells to its right and the three below. */
  lemma AdjacencyOfBinKey(cx: int, cy: int, sep: string)
    ensures IsBinKey(BinKey(cx, cy))
    ensures forall k :: 0 <= k < 4 ==>
      Adjacency(BinKey(cx, cy), sep)[k] == IntToString(cx + Offsets[k].0) + sep + IntToString(cy + Offsets[k].1)
  {
    BinKeyParses(cx, cy);
  }

  /** The bins: key to the positions of the objects it holds, in insertion order. */
  type Bins = Entries<seq<nat>>

  /** `bins[key]`, with `[]` standing for `undefined`. */
  function Lookup(bins: Bins, key: string): seq<nat>
  {
    if bins == [] then [] else if bins[0].0 == key then bins[0].1 else Lookup(bins[1..], key)
  }

  /** The bin key of every object, in input order, when bins have side `s`. */
  function KeysOf(objs: seq<Obj>, s: int): (keys: seq<string>)
    requires s > 0
    ensures |keys| == |objs| && forall i :: 0 <= i < |objs| ==> keys[i] == KeyOf(objs[i], s)
  {
    seq(|objs|, i requires 0 <= i < |objs| => KeyOf(objs[i], s))
  }

  /** The positions whose key is `key`, in input order. */
  function IndicesIn(keys: seq<string>, key: string): seq<nat>
    decreases |keys|
  {
    if keys == [] then []
    else
      var n: nat := |keys| - 1;
      IndicesIn(keys[..n], key) + (if keys[n] == key then [n] else [])
  }

  /** The bins after the filling loop has placed every object, given its key, in turn. */
  function BinsOf(keys: seq<string>): Bins
    decreases |keys|
  {
    if keys == [] then []
    else
      var n: nat := |keys| - 1;
      var bins := BinsOf(keys[..n]);
      Put<seq<nat>>(bins, keys[n], Lookup(bins, keys[n]) + [n])
  }

  lemma {:induction false} LookupPut(bins: Bins, k: string, v: seq<nat>, key: string)
    ensures Lookup(Put(bins, k, v), key) == if key == k then v else Lookup(bins, key)
  {
    if bins != [] && bins[0].0 != k {
      LookupPut(bins[1..], k, v, key);
      assert Put(bins, k, v)[1..] == Put(bins[1..], k, v);
    }
  }

  /** With unique keys, looking up a bin's key finds that bin. */
  lemma {:induction false} LookupAt(bins: Bins, b: nat)
    requires DistinctKeys(bins) && b < |bins|
    ensures Lookup(bins, bins[b].0) == bins[b].1
  {
    if b > 0 {
      assert DistinctKeys(bins[1..]) by {
        forall i, j | 0 <= i < j < |bins[1..]| ensures bins[1..][i].0 != bins[1..][j].0 {
          assert bins[1..][i] == bins[i + 1] && bins[1..][j] == bins[j + 1];
        }
      }
      assert bins[1..][b - 1] == bins[b];
      LookupAt(bins[1..], b - 1);
    }
  }

  /** The positions in a bin are exactly those with that key. */
  lemma {:induction false} IndicesInMembers(keys: seq<string>, key: string)
    ensures forall i: nat :: i in IndicesIn(keys, key) <==> i < |keys| && keys[i] == key
    decreases |keys|
  {
    if keys != [] {
      var n: nat := |keys| - 1;
      IndicesInMembers(keys[..n], key);
      var tail: seq<nat> := if keys[n] == key then [n] else [];
      assert IndicesIn(keys, key) == IndicesIn(keys[..n], key) + tail;
      forall i: nat ensures i in IndicesIn(keys, key) <==> i < |keys| && keys[i] == key {
        if i < n {
          assert keys[..n][i] == keys[i];
        }
      }
    }
  }

  /** The positions in a bin are strictly increasing: input order. */
  lemma {:induction false} IndicesInIncreasing(keys: seq<string>, key: string)
    ensures forall i :: i in IndicesIn(keys, key) ==> i < |keys|
    ensures forall p, q :: 0 <= p < q < |IndicesIn(keys, key)| ==>
      IndicesIn(keys, key)[p] < IndicesIn(keys, key)[q]
    decreases |keys|
  {
    if keys != [] {
      var n: nat := |keys| - 1;
      IndicesInIncreasing(keys[..n], key);
      var prefix := IndicesIn(keys[..n], key);
      var tail: seq<nat> := if keys[n] == key then [n] else [];
      assert IndicesIn(keys, key) == prefix + tail;
      forall p, q | 0 <= p < q < |prefix + tail| ensures (prefix + tail)[p] < (prefix + tail)[q] {
        if q >= |prefix| {
          assert prefix[p] in prefix;
        }
      }
    }
  }

  /** Filling the bins places every object in the bin of its own key, in input order. */
  lemma {:induction false} BinsOfLookup(keys: seq<string>, key: string)
    ensures Lookup(BinsOf(keys), key) == IndicesIn(keys, key)
    decreases |keys|
  {
    if keys != [] {
      var n: nat := |keys| - 1;
      var bins := BinsOf(keys[..n]);
      var v := Lookup(bins, keys[n]) + [n];
      assert BinsOf(keys) == Put(bins, keys[n], v);
      LookupPut(bins, keys[n], v, key);
      BinsOfLookup(keys[..n], key);
      if key == keys[n] {
        assert IndicesIn(keys, key) == IndicesIn(keys[..n], key) + [n];
      } else {
        assert IndicesIn(keys, key) == IndicesIn(keys[..n], key) + [];
      }
    }
  }

  /** No key has two bins. */
  lemma {:induction false} BinsOfDistinct(keys: seq<string>)
    ensures DistinctKeys(BinsOf(keys))
    decreases |keys|
  {
    if keys != [] {
      var n: nat := |keys| - 1;
      var bins := BinsOf(keys[..n]);
      BinsOfDistinct(keys[..n]);
      PutDistinct(bins, keys[n], Lookup(bins, keys[n]) + [n]);
    }
  }

  /** A bin exists exactly for the keys some object has. */
  lemma {:induction false} BinsOfKeySet(keys: seq<string>, key: string)
    ensures key in Keys(BinsOf(keys)) <==> key in keys
    decreases |keys|
  {
    if keys != [] {
      var n: nat := |keys| - 1;
      var bins := BinsOf(keys[..n]);
      BinsOfKeySet(keys[..n], key);
      PutKeys(bins, keys[n], Lookup(bins, keys[n]) + [n]);
      assert keys == keys[..n] + [keys[n]];
    }
  }

  /** Keys that `adjacency` can parse and that contain no space. */
  predicate WellKeyed(keys: seq<string>)
  {
    forall i :: 0 <= i < |keys| ==> IsBinKey(keys[i]) && ' ' !in keys[i]
  }

  lemma KeysOfWellKeyed(objs: seq<Obj>, s: int)
    requires s > 0
    ensures WellKeyed(KeysOf(objs, s))
  {
    forall i | 0 <= i < |objs| ensures IsBinKey(KeysOf(objs, s)[i]) && ' ' !in KeysOf(objs, s)[i] {
      BinKeyParses(Floor(objs[i].x, s), Floor(objs[i].y, s));
    }
  }

  /** Every key of the filled bins is the key of some object. */
  lemma BinsOfWellKeyed(keys: seq<string>)
    requires WellKeyed(keys)
    ensures AllBinKeys(BinsOf(keys))
    ensures forall b :: 0 <= b < |BinsOf(keys)| ==> ' ' !in BinsOf(keys)[b].0
  {
    var bins := BinsOf(keys);
    forall b | 0 <= b < |bins| ensures IsBinKey(bins[b].0) && ' ' !in bins[b].0 {
      assert Keys(bins)[b] == bins[b].0;
      BinsOfKeySet(keys, bins[b].0);
    }
  }

  predicate AllBinKeys(bins: Bins)
  {
    forall b :: 0 <= b < |bins| ==> IsBinKey(bins[b].0)
  }

  lemma BinsOfSnoc(keys: seq<string>, n: nat)
    requires n < |keys|
    ensures BinsOf(keys[..n + 1]) == Put(BinsOf(keys[..n]), keys[n], Lookup(BinsOf(keys[..n]), keys[n]) + [n])
  {
    assert keys[..n + 1][..n] == keys[..n];
  }

  /** The bin-filling loop: `(bins[key] ?? (bins[key] = [])).push(obj)` for each object. */
  method FillBins(objs: seq<Obj>, s: int) returns (bins: Bins)
    requires s > 0
    ensures bins == BinsOf(KeysOf(objs, s))
  {
    ghost var keys := KeysOf(objs, s);
    bins := [];
    var n := 0;
    while n < |objs|
      invariant n <= |objs|
      invariant bins == BinsOf(keys[..n])
    {
      var key := KeyOf(objs[n], s);
      BinsOfSnoc(keys, n);
      bins := Put<seq<nat>>(bins, key, Lookup(bins, key) + [n]);
      n := n + 1;
    }
    assert keys[..n] == keys;
  }

  /** The parts one after another. */
  function Concat<T>(parts: seq<seq<T>>): seq<T>
    decreases |parts|
  {
    if parts == [] then [] else Concat(parts[..|parts| - 1]) + parts[|parts| - 1]
  }

  lemma ConcatSnoc<T>(parts: seq<seq<T>>, n: nat)
    requires n < |parts|
    ensures Concat(parts[..n + 1]) == Concat(parts[..n]) + parts[n]
  {
    assert parts[..n + 1][..n] == parts[..n];
  }

  /** Something is in the concatenation exactly when it is in one of the parts. */
  lemma {:induction false} ConcatMember<T>(parts: seq<seq<T>>, x: T)
    ensures x in Concat(parts) <==> exists k :: 0 <= k < |parts| && x in parts[k]
    decreases |parts|
  {
    if parts != [] {
      var n := |parts| - 1;
      ConcatMember(parts[..n], x);
      assert forall k :: 0 <= k < n ==> parts[..n][k] == parts[k];
    }
  }

  /** A candidate pair: the positions of the two objects. */
  type Pair = (nat, nat)

  /** What the inner loop yields for `i1`: `contents[i1]` with each later object of the bin. */
  function Row(c: seq<nat>, i1: nat): seq<Pair>
    requires i1 < |c|
  {
    seq(|c| - 1 - i1, j requires 0 <= j < |c| - 1 - i1 => (c[i1], c[i1 + 1 + j]))
  }

  function Rows(c: seq<nat>): seq<seq<Pair>>
  {
    seq(|c|, i1 requires 0 <= i1 < |c| => Row(c, i1))
  }

  /** All pairs within one bin, in the order the two index loops yield them. */
  function Within(c: seq<nat>): seq<Pair>
  {
    Concat(Rows(c))
  }

  function ProductRows(mine: seq<nat>, theirs: seq<nat>): seq<seq<Pair>>
  {
    seq(|mine|, m requires 0 <= m < |mine| =>
      seq(|theirs|, t requires 0 <= t < |theirs| => (mine[m], theirs[t])))
  }

  /** `for (const mine of contents) for (const theirs of other) yield [mine, theirs]`. */
  function Product(mine: seq<nat>, theirs: seq<nat>): seq<Pair>
  {
    Concat(ProductRows(mine, theirs))
  }

  /** For each adjacency key in turn: nothing when it has no bin, else the product with that bin. */
  function CrossParts(bins: Bins, c: seq<nat>, adj: seq<string>): seq<seq<Pair>>
  {
    seq(|adj|, k requires 0 <= k < |adj| =>
      if adj[k] in Keys(bins) then Product(c, Lookup(bins, adj[k])) else [])
  }

  /** What one bin contributes: its own pairs, then those with the bins `adjacency` names. */
  function BinCandidates(bins: Bins, b: nat, sep: string): seq<Pair>
    requires b < |bins| && IsBinKey(bins[b].0)
  {
    Within(bins[b].1) + Concat(CrossParts(bins, bins[b].1, Adjacency(bins[b].0, sep)))
  }

  function CandidateParts(bins: Bins, sep: string): seq<seq<Pair>>
    requires AllBinKeys(bins)
  {
    seq(|bins|, b requires 0 <= b < |bins| && IsBinKey(bins[b].0) => BinCandidates(bins, b, sep))
  }

  /** Everything the generator yields, bin by bin in insertion order. */
  function Candidates(bins: Bins, sep: string): seq<Pair>
    requires AllBinKeys(bins)
  {
    Concat(CandidateParts(bins, sep))
  }

  /** The two index loops over one bin. */
  method WithinLoop(c: seq<nat>) returns (pairs: seq<Pair>)
    ensures pairs == Within(c)
  {
    pairs := [];
    var i1 := 0;
    while i1 < |c| - 1
      invariant 0 <= i1 <= |c| && (|c| > 0 ==> i1 < |c|)
      invariant pairs == Concat(Rows(c)[..i1])
    {
      var i2 := i1 + 1;
      ghost var before := pairs;
      while i2 < |c|
        invariant i1 + 1 <= i2 <= |c|
        invariant pairs == before + Row(c, i1)[..i2 - i1 - 1]
      {
        assert Row(c, i1)[..i2 - i1] == Row(c, i1)[..i2 - i1 - 1] + [(c[i1], c[i2])];
        pairs := pairs + [(c[i1], c[i2])];
        i2 := i2 + 1;
      }
      assert Row(c, i1)[..i2 - i1 - 1] == Row(c, i1);
      ConcatSnoc(Rows(c), i1);
      i1 := i1 + 1;
    }
    if |c| > 0 {
      ConcatSnoc(Rows(c), i1);
      assert Row(c, i1) == [];
      assert Rows(c)[..i1 + 1] == Rows(c);
    } else {
      assert Rows(c)[..i1] == Rows(c);
    }
  }

  /** The two loops over `mine` and `theirs`. */
  method ProductLoop(mine: seq<nat>, theirs: seq<nat>) returns (pairs: seq<Pair>)
    ensures pairs == Product(mine, theirs)
  {
    pairs := [];
    var m := 0;
    while m < |mine|
      invariant 0 <= m <= |mine|
      invariant pairs == Concat(ProductRows(mine, theirs)[..m])
    {
      var t := 0;
      ghost var before := pairs;
      ghost var row := ProductRows(mine, theirs)[m];
      while t < |theirs|
        invariant 0 <= t <= |theirs|
        invariant pairs == before + row[..t]
      {
        assert row[..t + 1] == row[..t] + [(mine[m], theirs[t])];
        pairs := pairs + [(mine[m], theirs[t])];
        t := t + 1;
      }
      assert row[..t] == row;
      ConcatSnoc(ProductRows(mine, theirs), m);
      m := m + 1;
    }
    assert ProductRows(mine, theirs)[..m] == ProductRows(mine, theirs);
  }

  /** `for (const adj of adjacency(key)) { const other = bins[adj]; if (other === undefined) continue; ... }`. */
  method CrossLoop(bins: Bins, c: seq<nat>, adj: seq<string>) returns (pairs: seq<Pair>)
    ensures pairs == Concat(CrossParts(bins, c, adj))
  {
    pairs := [];
    var k := 0;
    while k < |adj|
      invariant 0 <= k <= |adj|
      invariant pairs == Concat(CrossParts(bins, c, adj)[..k])
    {
      ConcatSnoc(CrossParts(bins, c, adj), k);
      if adj[k] in Keys(bins) {
        var other := Lookup(bins, adj[k]);
        var more := ProductLoop(c, other);
        pairs := pairs + more;
      } else {
        assert pairs + [] == pairs;
      }
      k := k + 1;
    }
    assert CrossParts(bins, c, adj)[..k] == CrossParts(bins, c, adj);
  }

  /** The body of `possibleCollisions` once the bin side `s` is known; `sep` is the adjacency key separator. */
  method Collisions(objs: seq<Obj>, s: int, sep: string) returns (pairs: seq<Pair>)
    requires s > 0
    ensures AllBinKeys(BinsOf(KeysOf(objs, s)))
    ensures pairs == Candidates(BinsOf(KeysOf(objs, s)), sep)
  {
    var bins := FillBins(objs, s);
    KeysOfWellKeyed(objs, s);
    BinsOfWellKeyed(KeysOf(objs, s));
    ghost var parts := CandidateParts(bins, sep);
    pairs := [];
    var b := 0;
    while b < |bins|
      invariant 0 <= b <= |bins|
      invariant pairs == Concat(parts[..b])
    {
      var (key, contents) := bins[b];
      var within := WithinLoop(contents);
      var adj := Adjacency(key, sep);
      var cross := CrossLoop(bins, contents, adj);
      ConcatSnoc(parts, b);
      pairs := pairs + (within + cross);
      b := b + 1;
    }
    assert parts[..b] == parts;
  }

  lemma {:induction false} ConcatEmpty<T>(parts: seq<seq<T>>)
    requires forall k :: 0 <= k < |parts| ==> parts[k] == []
    ensures Concat(parts) == []
    decreases |parts|
  {
    if parts != [] {
      ConcatEmpty(parts[..|parts| - 1]);
    }
  }

  /** The pairs of a bin are its entries taken two at a time, the earlier entry first. */
  lemma WithinMember(c: seq<nat>, p: Pair)
    ensures p in Within(c) <==> exists i1, i2 :: 0 <= i1 < i2 < |c| && p == (c[i1], c[i2])
  {
    ConcatMember(Rows(c), p);
    if p in Within(c) {
      var k :| 0 <= k < |Rows(c)| && p in Rows(c)[k];
      var j :| 0 <= j < |Row(c, k)| && Row(c, k)[j] == p;
      assert p == (c[k], c[k + 1 + j]);
    }
    if exists i1, i2 :: 0 <= i1 < i2 < |c| && p == (c[i1], c[i2]) {
      var i1, i2 :| 0 <= i1 < i2 < |c| && p == (c[i1], c[i2]);
      assert Row(c, i1)[i2 - i1 - 1] == p;
      assert p in Rows(c)[i1];
    }
  }

  /** A bin of `n` objects yields `n(n-1)/2` pairs of its own. */
  lemma WithinCount(c: seq<nat>)
    ensures 2 * |Within(c)| == |c| * (|c| - 1)
  {
    var i := 0;
    while i < |c|
      invariant 0 <= i <= |c|
      invariant 2 * |Concat(Rows(c)[..i])| == i * (2 * |c| - 1 - i)
    {
      ConcatSnoc(Rows(c), i);
      assert |Rows(c)[i]| == |c| - 1 - i;
      assert (i + 1) * (2 * |c| - 2 - i) == i * (2 * |c| - 1 - i) + 2 * (|c| - 1 - i);
      i := i + 1;
    }
    assert Rows(c)[..i] == Rows(c);
  }

  /** The objects of one bin yield exactly the pairs of distinct objects with its key, earlier object first. */
  lemma WithinBin(keys: seq<string>, key: string, p: Pair)
    ensures p in Within(IndicesIn(keys, key)) <==>
      p.0 < p.1 < |keys| && keys[p.0] == key && keys[p.1] == key
  {
    var c := IndicesIn(keys, key);
    WithinMember(c, p);
    IndicesInMembers(keys, key);
    IndicesInIncreasing(keys, key);
    if p.0 < p.1 < |keys| && keys[p.0] == key && keys[p.1] == key {
      assert p.0 in c && p.1 in c;
      var i1 :| 0 <= i1 < |c| && c[i1] == p.0;
      var i2 :| 0 <= i2 < |c| && c[i2] == p.1;
      assert i1 < i2;
    }
    if p in Within(c) {
      var i1, i2 :| 0 <= i1 < i2 < |c| && p == (c[i1], c[i2]);
      assert c[i1] in c && c[i2] in c;
    }
  }

  /** Bin `b` of the filled bins holds exactly the objects with its key. */
  lemma BinContents(keys: seq<string>, b: nat)
    requires b < |BinsOf(keys)|
    ensures BinsOf(keys)[b].1 == IndicesIn(keys, BinsOf(keys)[b].0)
  {
    BinsOfDistinct(keys);
    LookupAt(BinsOf(keys), b);
    BinsOfLookup(keys, BinsOf(keys)[b].0);
  }

  /** The product holds exactly the pairs of one of `mine` and one of `theirs`. */
  lemma ProductMember(mine: seq<nat>, theirs: seq<nat>, p: Pair)
    ensures p in Product(mine, theirs) <==> p.0 in mine && p.1 in theirs
  {
    var rows := ProductRows(mine, theirs);
    ConcatMember(rows, p);
    if p.0 in mine && p.1 in theirs {
      var m :| 0 <= m < |mine| && mine[m] == p.0;
      var t :| 0 <= t < |theirs| && theirs[t] == p.1;
      assert rows[m][t] == p;
    }
    if p in Product(mine, theirs) {
      var m :| 0 <= m < |rows| && p in rows[m];
      var t :| 0 <= t < |rows[m]| && rows[m][t] == p;
      assert p == (mine[m], theirs[t]);
    }
  }

  /** The candidates are what the bins contribute. */
  lemma CandidatesMember(bins: Bins, sep: string, p: Pair)
    requires AllBinKeys(bins)
    ensures p in Candidates(bins, sep) <==> exists b :: 0 <= b < |bins| && p in BinCandidates(bins, b, sep)
  {
    var parts := CandidateParts(bins, sep);
    ConcatMember(parts, p);
    assert forall b :: 0 <= b < |bins| ==> parts[b] == BinCandidates(bins, b, sep);
  }

  /** What a bin contributes is among the candidates: its own pairs and those with a named bin. */
  lemma FromBin(bins: Bins, sep: string, b: nat, p: Pair)
    requires AllBinKeys(bins) && b < |bins|
    requires p in Within(bins[b].1) || p in Concat(CrossParts(bins, bins[b].1, Adjacency(bins[b].0, sep)))
    ensures p in Candidates(bins, sep)
  {
    assert p in BinCandidates(bins, b, sep);
    CandidatesMember(bins, sep, p);
  }

  /** Adjacency keys written with ", " name no bin, so a bin contributes only its own pairs. */
  lemma NoCrossAsWritten(keys: seq<string>, b: nat)
    requires WellKeyed(keys) && AllBinKeys(BinsOf(keys)) && b < |BinsOf(keys)|
    ensures BinCandidates(BinsOf(keys), b, ", ") == Within(BinsOf(keys)[b].1)
  {
    var bins := BinsOf(keys);
    BinsOfWellKeyed(keys);
    var key := bins[b].0;
    var adj := Adjacency(key, ", ");
    var (x, y) := ParseKey(key);
    forall k | 0 <= k < 4 ensures adj[k] !in Keys(bins) {
      var a := IntToString(x + Offsets[k].0);
      assert adj[k] == a + ", " + IntToString(y + Offsets[k].1);
      assert adj[k][|a| + 1] == ' ';
      forall b2 | 0 <= b2 < |bins| ensures Keys(bins)[b2] != adj[k] {
        assert Keys(bins)[b2] == bins[b2].0;
      }
    }
    ConcatEmpty(CrossParts(bins, bins[b].1, adj));
  }

  /**
   * As written, a candidate is exactly a pair of distinct objects in the same bin, the earlier
   * object first: no pair spanning two bins is ever produced.
   */
  lemma AsWrittenCandidates(keys: seq<string>, p: Pair)
    requires WellKeyed(keys) && AllBinKeys(BinsOf(keys))
    ensures p in Candidates(BinsOf(keys), ", ") <==> p.0 < p.1 < |keys| && keys[p.0] == keys[p.1]
  {
    var bins := BinsOf(keys);
    CandidatesMember(bins, ", ", p);
    forall b | 0 <= b < |bins|
      ensures p in BinCandidates(bins, b, ", ") <==>
        p.0 < p.1 < |keys| && keys[p.0] == bins[b].0 && keys[p.1] == bins[b].0
    {
      NoCrossAsWritten(keys, b);
      BinContents(keys, b);
      WithinBin(keys, bins[b].0, p);
    }
    if p.0 < p.1 < |keys| && keys[p.0] == keys[p.1] {
      assert keys[p.0] in keys;
      BinsOfKeySet(keys, keys[p.0]);
      var b :| 0 <= b < |bins| && Keys(bins)[b] == keys[p.0];
      assert p in BinCandidates(bins, b, ", ");
    }
  }

  /**
   * Every candidate pairs an object with a later one in its own bin, or with an object in a
   * bin whose key `adjacency` yields for its own.
   */
  lemma CandidatesSound(keys: seq<string>, sep: string, p: Pair)
    requires WellKeyed(keys) && AllBinKeys(BinsOf(keys))
    ensures p in Candidates(BinsOf(keys), sep) ==>
      p.0 < |keys| && p.1 < |keys| &&
      ((p.0 < p.1 && keys[p.0] == keys[p.1]) ||
       exists k :: 0 <= k < 4 && Adjacency(keys[p.0], sep)[k] == keys[p.1])
  {
    if p in Candidates(BinsOf(keys), sep) {
      SoundCandidate(keys, sep, p);
    }
  }

  /** `CandidatesSound` for a pair known to be a candidate. */
  lemma SoundCandidate(keys: seq<string>, sep: string, p: Pair)
    requires WellKeyed(keys) && AllBinKeys(BinsOf(keys))
    requires p in Candidates(BinsOf(keys), sep)
    ensures p.0 < |keys| && p.1 < |keys|
    ensures (p.0 < p.1 && keys[p.0] == keys[p.1]) ||
      exists k :: 0 <= k < 4 && Adjacency(keys[p.0], sep)[k] == keys[p.1]
  {
    var bins := BinsOf(keys);
    CandidatesMember(bins, sep, p);
    var b :| 0 <= b < |bins| && p in BinCandidates(bins, b, sep);
    var key := bins[b].0;
    BinContents(keys, b);
    IndicesInMembers(keys, key);
    if p in Within(bins[b].1) {
      WithinBin(keys, key, p);
    } else {
      var adj := Adjacency(key, sep);
      var parts := CrossParts(bins, bins[b].1, adj);
      ConcatMember(parts, p);
      var k :| 0 <= k < |parts| && p in parts[k];
      assert adj[k] in Keys(bins);
      ProductMember(bins[b].1, Lookup(bins, adj[k]), p);
      BinsOfLookup(keys, adj[k]);
      IndicesInMembers(keys, adj[k]);
      assert keys[p.1] == adj[k];
    }
  }

  /** The bin of a key some object has: it holds exactly the objects with that key. */
  lemma BinIndexOf(keys: seq<string>, key: string) returns (b: nat)
    requires key in keys
    ensures b < |BinsOf(keys)| && BinsOf(keys)[b].0 == key
    ensures BinsOf(keys)[b].1 == IndicesIn(keys, key)
  {
    BinsOfKeySet(keys, key);
    var bins := BinsOf(keys);
    var k :| 0 <= k < |bins| && Keys(bins)[k] == key;
    b := k;
    BinContents(keys, b);
  }

  /** Every object's key has a bin, and that bin holds exactly the objects with the key. */
  ghost predicate Filled(bins: Bins, keys: seq<string>)
  {
    forall i :: 0 <= i < |keys| ==>
      exists b :: 0 <= b < |bins| && bins[b].0 == keys[i] && bins[b].1 == IndicesIn(keys, keys[i])
  }

  /** The filled bins are `Filled` and keyed uniquely. */
  lemma BinsOfFilled(keys: seq<string>)
    ensures Filled(BinsOf(keys), keys) && DistinctKeys(BinsOf(keys))
  {
    BinsOfDistinct(keys);
    forall i | 0 <= i < |keys|
      ensures exists b ::
        0 <= b < |BinsOf(keys)| && BinsOf(keys)[b].0 == keys[i] && BinsOf(keys)[b].1 == IndicesIn(keys, keys[i])
    {
      var b := BinIndexOf(keys, keys[i]);
    }
  }

  /** An object is paired with every later object of its own bin. */
  lemma WithinIncluded(bins: Bins, keys: seq<string>, sep: string, i: nat, j: nat)
    requires AllBinKeys(bins) && Filled(bins, keys)
    requires i < j < |keys| && keys[i] == keys[j]
    ensures (i, j) in Candidates(bins, sep)
  {
    var b :| 0 <= b < |bins| && bins[b].0 == keys[i] && bins[b].1 == IndicesIn(keys, keys[i]);
    WithinBin(keys, keys[i], (i, j));
    FromBin(bins, sep, b, (i, j));
  }

  /** Objects `i` and `j` listed in bins `b` and `bj`, where `bj`'s key is `k`-th in `b`'s adjacency. */
  lemma InCross(bins: Bins, sep: string, b: nat, bj: nat, k: nat, i: nat, j: nat)
    requires AllBinKeys(bins) && b < |bins| && bj < |bins| && k < 4
    requires Adjacency(bins[b].0, sep)[k] == bins[bj].0
    requires Lookup(bins, bins[bj].0) == bins[bj].1
    requires i in bins[b].1 && j in bins[bj].1
    ensures (i, j) in Candidates(bins, sep)
  {
    var theirs := bins[bj].1;
    assert bins[bj].0 in Keys(bins) by {
      assert Keys(bins)[bj] == bins[bj].0;
    }
    ProductMember(bins[b].1, theirs, (i, j));
    var parts := CrossParts(bins, bins[b].1, Adjacency(bins[b].0, sep));
    assert parts[k] == Product(bins[b].1, theirs);
    ConcatMember(parts, (i, j));
    FromBin(bins, sep, b, (i, j));
  }

  /** An object is paired with every object of each bin that `adjacency` names for its own. */
  lemma CrossIncluded(bins: Bins, keys: seq<string>, sep: string, i: nat, j: nat, k: nat)
    requires AllBinKeys(bins) && DistinctKeys(bins) && Filled(bins, keys)
    requires i < |keys| && j < |keys| && k < 4
    requires IsBinKey(keys[i]) && Adjacency(keys[i], sep)[k] == keys[j]
    ensures (i, j) in Candidates(bins, sep)
  {
    var b :| 0 <= b < |bins| && bins[b].0 == keys[i] && bins[b].1 == IndicesIn(keys, keys[i]);
    var bj :| 0 <= bj < |bins| && bins[bj].0 == keys[j] && bins[bj].1 == IndicesIn(keys, keys[j]);
    IndicesInMembers(keys, keys[i]);
    IndicesInMembers(keys, keys[j]);
    LookupAt(bins, bj);
    InCross(bins, sep, b, bj, k, i, j);
  }

  /** Two values at most `s` apart fall in the same cell of side `s` or in neighbouring ones. */
  lemma FloorNear(v: int, w: int, s: int)
    requires s > 0 && -s <= w - v <= s
    ensures -1 <= Floor(w, s) - Floor(v, s) <= 1
  {
    FloorBounds(v, s);
    FloorBounds(w, s);
    var d := Floor(w, s) - Floor(v, s);
    assert s * d == s * Floor(w, s) - s * Floor(v, s);
    assert -2 * s < s * d < 2 * s;
  }

  /** Each of the eight neighbouring cells is one `adjacency` names, seen from one cell or the other. */
  lemma OffsetOf(dx: int, dy: int) returns (k: nat, forward: bool)
    requires -1 <= dx <= 1 && -1 <= dy <= 1 && (dx, dy) != (0, 0)
    ensures k < 4 && Offsets[k] == (if forward then (dx, dy) else (-dx, -dy))
  {
    if (dx, dy) in Offsets {
      k :| 0 <= k < 4 && Offsets[k] == (dx, dy);
      forward := true;
    } else {
      assert (-dx, -dy) in Offsets;
      k :| 0 <= k < 4 && Offsets[k] == (-dx, -dy);
      forward := false;
    }
  }

  /** The `k`-th adjacency key of a cell, written with ",", is the key of the cell `Offsets[k]` away. */
  lemma AdjacentCell(cx: int, cy: int, ex: int, ey: int, k: nat)
    requires k < 4 && Offsets[k] == (ex - cx, ey - cy)
    ensures IsBinKey(BinKey(cx, cy)) && Adjacency(BinKey(cx, cy), ",")[k] == BinKey(ex, ey)
  {
    AdjacencyOfBinKey(cx, cy, ",");
  }

  /** Two objects in the same or neighbouring cells are compared, in one order or the other. */
  lemma CellsCompared(bins: Bins, keys: seq<string>, i: nat, j: nat, xi: int, yi: int, xj: int, yj: int)
    requires AllBinKeys(bins) && DistinctKeys(bins) && Filled(bins, keys)
    requires i < |keys| && j < |keys| && i != j
    requires keys[i] == BinKey(xi, yi) && keys[j] == BinKey(xj, yj)
    requires -1 <= xj - xi <= 1 && -1 <= yj - yi <= 1
    ensures (i, j) in Candidates(bins, ",") || (j, i) in Candidates(bins, ",")
  {
    if (xj - xi, yj - yi) == (0, 0) {
      if i < j {
        WithinIncluded(bins, keys, ",", i, j);
      } else {
        WithinIncluded(bins, keys, ",", j, i);
      }
    } else {
      var k, forward := OffsetOf(xj - xi, yj - yi);
      if forward {
        AdjacentCell(xi, yi, xj, yj, k);
        CrossIncluded(bins, keys, ",", i, j, k);
      } else {
        AdjacentCell(xj, yj, xi, yi, k);
        CrossIncluded(bins, keys, ",", j, i, k);
      }
    }
  }

  /**
   * With adjacency keys written like bin keys, two objects whose centres are at most one bin
   * side apart in each coordinate are always compared, in one order or the other.
   */
  lemma NeighboursCompared(objs: seq<Obj>, s: int, bins: Bins, i: nat, j: nat)
    requires s > 0 && AllBinKeys(bins) && DistinctKeys(bins) && Filled(bins, KeysOf(objs, s))
    requires i < |objs| && j < |objs| && i != j
    requires -s <= objs[j].x - objs[i].x <= s && -s <= objs[j].y - objs[i].y <= s
    ensures (i, j) in Candidates(bins, ",") || (j, i) in Candidates(bins, ",")
  {
    FloorNear(objs[i].x, objs[j].x, s);
    FloorNear(objs[i].y, objs[j].y, s);
    CellsCompared(bins, KeysOf(objs, s), i, j,
      Floor(objs[i].x, s), Floor(objs[i].y, s), Floor(objs[j].x, s), Floor(objs[j].y, s));
  }

  /** No cell is its own neighbour. */
  lemma NotOwnNeighbour(cx: int, cy: int)
    ensures IsBinKey(BinKey(cx, cy))
    ensures forall k :: 0 <= k < 4 ==> Adjacency(BinKey(cx, cy), ",")[k] != BinKey(cx, cy)
  {
    AdjacencyOfBinKey(cx, cy, ",");
    forall k | 0 <= k < 4 ensures Adjacency(BinKey(cx, cy), ",")[k] != BinKey(cx, cy) {
      BinKeyDistinct(cx + Offsets[k].0, cy + Offsets[k].1, cx, cy);
    }
  }

  /** With adjacency keys written like bin keys, a candidate still pairs two distinct objects. */
  lemma CandidatesDistinct(objs: seq<Obj>, s: int, p: Pair)
    requires s > 0
    requires AllBinKeys(BinsOf(KeysOf(objs, s))) && p in Candidates(BinsOf(KeysOf(objs, s)), ",")
    ensures p.0 < |objs| && p.1 < |objs| && p.0 != p.1
  {
    var keys := KeysOf(objs, s);
    KeysOfWellKeyed(objs, s);
    CandidatesSound(keys, ",", p);
    NotOwnNeighbour(Floor(objs[p.0].x, s), Floor(objs[p.0].y, s));
  }

  /** The circles of `a` and `b` meet: their centres are at most `a.r + b.r` apart. */
  predicate Touch(a: Obj, b: Obj)
  {
    (a.x - b.x) * (a.x - b.x) + (a.y - b.y) * (a.y - b.y) <= (a.r + b.r) * (a.r + b.r)
  }

  /** A vector no longer than `len` is at most `len` long in each coordinate. */
  lemma SquareBound(d: int, e: int, len: int)
    requires len >= 0 && d * d + e * e <= len * len
    ensures -len <= d <= len
  {
    assert e * e >= 0;
    assert (len - d) * (len + d) == len * len - d * d;
  }

  /**
   * `possibleCollisions(objs, maxr)` as written, on object positions: the pairs yielded are
   * exactly the pairs of distinct objects whose centres fall in the same bin of side `maxr`,
   * the earlier object first.
   */
  method PossibleCollisions(objs: seq<Obj>, maxr: Option<int>) returns (pairs: seq<Pair>)
    requires Usable(objs, maxr)
    ensures |objs| == 0 ==> pairs == []
    ensures |objs| > 0 ==> forall p: Pair :: p in pairs <==>
      p.0 < p.1 < |objs| && KeyOf(objs[p.0], CellSize(objs, maxr)) == KeyOf(objs[p.1], CellSize(objs, maxr))
  {
    if |objs| == 0 {
      return [];
    }
    var s := if maxr.Some? then maxr.value else MaxR(objs);
    pairs := Collisions(objs, s, ", ");
    KeysOfWellKeyed(objs, s);
    forall p: Pair
      ensures p in pairs <==> p.0 < p.1 < |objs| && KeyOf(objs[p.0], s) == KeyOf(objs[p.1], s)
    {
      AsWrittenCandidates(KeysOf(objs, s), p);
    }
  }

  /**
   * `possibleCollisions` as its design describes it: bins of side twice the largest radius,
   * and adjacency keys written like bin keys. Every two touching objects are yielded, in one
   * order or the other, and every pair yielded is two distinct objects.
   */
  method PossibleCollisionsIntended(objs: seq<Obj>, maxr: Option<int>) returns (pairs: seq<Pair>)
    requires Usable(objs, maxr)
    requires forall i :: 0 <= i < |objs| ==> 0 <= objs[i].r
    requires maxr.Some? ==> forall i :: 0 <= i < |objs| ==> objs[i].r <= maxr.value
    ensures forall i, j :: 0 <= i < |objs| && 0 <= j < |objs| && i != j && Touch(objs[i], objs[j]) ==>
      (i, j) in pairs || (j, i) in pairs
    ensures forall p :: p in pairs ==> p.0 < |objs| && p.1 < |objs| && p.0 != p.1
  {
    if |objs| == 0 {
      return [];
    }
    var s := if maxr.Some? then maxr.value else MaxR(objs);
    pairs := Collisions(objs, 2 * s, ",");
    AllRadiiBelow(objs, maxr);
    IntendedCandidates(objs, s);
  }

  /** Every radius is at most the bin-size parameter `s` the collision search starts from. */
  lemma AllRadiiBelow(objs: seq<Obj>, maxr: Option<int>)
    requires |objs| > 0
    requires maxr.Some? ==> forall i :: 0 <= i < |objs| ==> objs[i].r <= maxr.value
    ensures forall i :: 0 <= i < |objs| ==> objs[i].r <= CellSize(objs, maxr)
  {
  }

  /** Two touching objects, neither wider than `s`, are compared with bins of side `2 * s`. */
  lemma TouchingCompared(objs: seq<Obj>, s: int, bins: Bins, i: nat, j: nat)
    requires s > 0 && AllBinKeys(bins) && DistinctKeys(bins) && Filled(bins, KeysOf(objs, 2 * s))
    requires i < |objs| && j < |objs| && i != j && Touch(objs[i], objs[j])
    requires 0 <= objs[i].r <= s && 0 <= objs[j].r <= s
    ensures (i, j) in Candidates(bins, ",") || (j, i) in Candidates(bins, ",")
  {
    TouchNear(objs[i], objs[j], s);
    NeighboursCompared(objs, 2 * s, bins, i, j);
  }

  /** Touching objects no wider than `s` have centres at most `2 * s` apart in each coordinate. */
  lemma TouchNear(a: Obj, b: Obj, s: int)
    requires Touch(a, b) && 0 <= a.r <= s && 0 <= b.r <= s
    ensures -2 * s <= b.x - a.x <= 2 * s && -2 * s <= b.y - a.y <= 2 * s
  {
    SquareBound(a.x - b.x, a.y - b.y, a.r + b.r);
    SquareBound(a.y - b.y, a.x - b.x, a.r + b.r);
  }

  /** The candidates with bins of side `2 * s` and "," keys: complete for touching objects, and sound. */
  lemma IntendedCandidates(objs: seq<Obj>, s: int)
    requires s > 0
    requires forall i :: 0 <= i < |objs| ==> 0 <= objs[i].r <= s
    ensures AllBinKeys(BinsOf(KeysOf(objs, 2 * s)))
    ensures forall i, j :: 0 <= i < |objs| && 0 <= j < |objs| && i != j && Touch(objs[i], objs[j]) ==>
      (i, j) in Candidates(BinsOf(KeysOf(objs, 2 * s)), ",") || (j, i) in Candidates(BinsOf(KeysOf(objs, 2 * s)), ",")
    ensures forall p :: p in Candidates(BinsOf(KeysOf(objs, 2 * s)), ",") ==> p.0 < |objs| && p.1 < |objs| && p.0 != p.1
  {
    var keys := KeysOf(objs, 2 * s);
    var bins := BinsOf(keys);
    KeysOfWellKeyed(objs, 2 * s);
    BinsOfWellKeyed(keys);
    BinsOfFilled(keys);
    forall i, j | 0 <= i < |objs| && 0 <= j < |objs| && i != j && Touch(objs[i], objs[j])
      ensures (i, j) in Candidates(bins, ",") || (j, i) in Candidates(bins, ",")
    {
      TouchingCompared(objs, s, bins, i, j);
    }
    forall p | p in Candidates(bins, ",")
      ensures p.0 < |objs| && p.1 < |objs| && p.0 != p.1
    {
      CandidatesDistinct(objs, 2 * s, p);
    }
  }

  /**
   * As written, two touching objects in neighbouring bins are never compared: with no
   * `maxr`, the bin side is 1, the objects land in bins "0,0" and "1,0", and the adjacency
   * key "1, 0" names no bin.
   */
  lemma AsWrittenMissesNeighbour()
    ensures var objs := [Obj(0, 0, 1), Obj(1, 0, 1)];
      var bins := BinsOf(KeysOf(objs, CellSize(objs, None)));
      Touch(objs[0], objs[1]) && AllBinKeys(bins) &&
      (0, 1) !in Candidates(bins, ", ") && (1, 0) !in Candidates(bins, ", ")
  {
    var objs := [Obj(0, 0, 1), Obj(1, 0, 1)];
    assert CellSize(objs, None) == 1;
    var keys := KeysOf(objs, 1);
    BinKeyDistinct(0, 0, 1, 0);
    assert keys[0] != keys[1];
    KeysOfWellKeyed(objs, 1);
    BinsOfWellKeyed(keys);
    AsWrittenCandidates(keys, (0, 1));
    AsWrittenCandidates(keys, (1, 0));
  }

  /**
   * Bins of side `maxr` are too small even once the adjacency keys are mended: two touching
   * objects of radius 2 at x = 1 and x = 4 land in bins "0,0" and "2,0", which are not
   * neighbours.
   */
  lemma AsWrittenCellTooSmall()
    ensures var objs := [Obj(1, 0, 2), Obj(4, 0, 2)];
      var bins := BinsOf(KeysOf(objs, CellSize(objs, None)));
      Touch(objs[0], objs[1]) && AllBinKeys(bins) &&
      (0, 1) !in Candidates(bins, ",") && (1, 0) !in Candidates(bins, ",")
  {
    var objs := [Obj(1, 0, 2), Obj(4, 0, 2)];
    assert CellSize(objs, None) == 2;
    var keys := KeysOf(objs, 2);
    assert keys[0] == BinKey(0, 0) && keys[1] == BinKey(2, 0);
    BinKeyDistinct(0, 0, 2, 0);
    KeysOfWellKeyed(objs, 2);
    BinsOfWellKeyed(keys);
    AdjacencyOfBinKey(0, 0, ",");
    AdjacencyOfBinKey(2, 0, ",");
    forall k | 0 <= k < 4
      ensures Adjacency(keys[0], ",")[k] != keys[1] && Adjacency(keys[1], ",")[k] != keys[0]
    {
      BinKeyDistinct(Offsets[k].0, Offsets[k].1, 2, 0);
      BinKeyDistinct(2 + Offsets[k].0, Offsets[k].1, 0, 0);
    }
    CandidatesSound(keys, ",", (0, 1));
    CandidatesSound(keys, ",", (1, 0));
  }
}
