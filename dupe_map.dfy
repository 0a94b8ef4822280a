/** The duplicate map: an insertion-ordered dictionary from content digest to
    the list of paths whose content has that digest.
    `order` lists the keys in the order the dictionary iterates them (the order
    in which they were first inserted); `buckets` holds the path list of each
    key. A missing key reads as the empty list, as it does for a dictionary
    that creates an empty list for a key on first access. */
module DupeMaps {
  import opened FileTree

  type Digest = string

  datatype DupeMap = DupeMap(order: seq<Digest>, buckets: map<Digest, seq<Path>>)

  /** One (key, paths) pair as the dictionary yields it. */
  type Item = (Digest, seq<Path>)

  /** The map a tracker starts with. */
  const Empty: DupeMap := DupeMap([], map[])

  predicate Distinct<T(==)>(s: seq<T>) {
    forall i, j :: 0 <= i < j < |s| ==> s[i] != s[j]
  }

  /** What every reachable map satisfies: each key is iterated exactly once,
      the iteration order names exactly the keys, and a bucket is only ever
      created by appending a path to it, so none is empty. */
  ghost predicate WellFormed(d: DupeMap) {
    && Distinct(d.order)
    && (forall h :: h in d.order <==> h in d.buckets)
    && (forall h :: h in d.buckets ==> d.buckets[h] != [])
  }

  /** The path list of key `h`, the empty list when `h` is not a key. */
  function Bucket(d: DupeMap, h: Digest): seq<Path> {
    if h in d.buckets then d.buckets[h] else []
  }

  /** Appending `p` to the list for `h`, creating the list (and the key, at
      the end of the iteration order) when `h` is new. */
  function Append(d: DupeMap, h: Digest, p: Path): (r: DupeMap)
    ensures Bucket(r, h) == Bucket(d, h) + [p]
    ensures forall k :: k != h ==> Bucket(r, k) == Bucket(d, k)
    ensures r.buckets.Keys == d.buckets.Keys + {h}
    ensures r.order == if h in d.buckets then d.order else d.order + [h]
    ensures WellFormed(d) ==> WellFormed(r)
  {
    if h in d.buckets then
      DupeMap(d.order, d.buckets[h := d.buckets[h] + [p]])
    else
      DupeMap(d.order + [h], d.buckets[h := [p]])
  }

  /** `o` with every element of `s` dropped, the rest kept in order. */
  function FilterOut(o: seq<Digest>, s: set<Digest>): (r: seq<Digest>)
    ensures |r| <= |o|
    ensures forall i :: 0 <= i < |r| ==> r[i] !in s
  {
    if o == [] then []
    else if o[0] in s then FilterOut(o[1..], s)
    else [o[0]] + FilterOut(o[1..], s)
  }

  /** Deleting every key of `s`: the remaining keys keep their relative
      iteration order and their path lists. */
  function Without(d: DupeMap, s: set<Digest>): (r: DupeMap)
    ensures r.buckets.Keys == d.buckets.Keys - s
    ensures forall h :: h in r.buckets ==> r.buckets[h] == d.buckets[h]
    ensures forall h :: h in r.order <==> h in d.order && h !in s
  {
    FilterOutKeeps(d.order, s);
    DupeMap(FilterOut(d.order, s), d.buckets - s)
  }

  /** The keys whose bucket holds exactly one path. */
  function Singletons(d: DupeMap): set<Digest> {
    set h | h in d.buckets && |d.buckets[h]| == 1
  }

  /** The map with every single-path bucket removed. */
  function Trimmed(d: DupeMap): (r: DupeMap)
    ensures r.buckets.Keys <= d.buckets.Keys
    ensures forall h :: h in r.buckets ==> |r.buckets[h]| != 1
    ensures forall h :: h in d.buckets && |d.buckets[h]| != 1 ==>
              h in r.buckets && r.buckets[h] == d.buckets[h]
    ensures forall h :: h in r.order <==> h in d.order && |Bucket(d, h)| != 1
  {
    Without(d, Singletons(d))
  }

  /** Every path of every bucket, bucket after bucket in iteration order. */
  function Flatten(o: seq<Digest>, b: map<Digest, seq<Path>>): seq<Path> {
    if o == [] then []
    else
      var h := o[|o| - 1];
      Flatten(o[..|o| - 1], b) + (if h in b then b[h] else [])
  }

  function AllPaths(d: DupeMap): seq<Path> {
    Flatten(d.order, d.buckets)
  }

  /** The (key, paths) pairs of the keys `o`, in the order of `o`. */
  function ItemsOf(d: DupeMap, o: seq<Digest>): (r: seq<Item>)
    ensures |r| == |o|
    ensures forall i :: 0 <= i < |o| ==> r[i] == (o[i], Bucket(d, o[i]))
  {
    if o == [] then [] else [(o[0], Bucket(d, o[0]))] + ItemsOf(d, o[1..])
  }

  /** The (key, paths) pairs in the order the dictionary yields its items. */
  function Items(d: DupeMap): seq<Item> {
    ItemsOf(d, d.order)
  }

  // ---------------------------------------------------------------------
  // Deleting keys

  lemma {:induction false} FilterOutDistinct(o: seq<Digest>, s: set<Digest>)
    requires Distinct(o)
    ensures Distinct(FilterOut(o, s))
  {
    if o != [] {
      assert Distinct(o[1..]);
      FilterOutDistinct(o[1..], s);
      FilterOutHas(o[1..], s, o[0]);
    }
  }

  lemma {:induction false} FilterOutTwice(o: seq<Digest>, s: set<Digest>, t: set<Digest>)
    ensures FilterOut(FilterOut(o, s), t) == FilterOut(o, s + t)
  {
    if o != [] {
      FilterOutTwice(o[1..], s, t);
      if o[0] !in s {
        var r := FilterOut(o[1..], s);
        assert ([o[0]] + r)[0] == o[0] && ([o[0]] + r)[1..] == r;
      }
    }
  }

  lemma FilterOutCons(h: Digest, rest: seq<Digest>, s: set<Digest>)
    ensures FilterOut([h] + rest, s) == (if h in s then [] else [h]) + FilterOut(rest, s)
  {
    assert ([h] + rest)[0] == h && ([h] + rest)[1..] == rest;
  }

  /** Deleting keys keeps the survivors in their relative order: filtering
      distributes over concatenation. */
  lemma {:induction false} FilterOutAppend(a: seq<Digest>, b: seq<Digest>, s: set<Digest>)
    ensures FilterOut(a + b, s) == FilterOut(a, s) + FilterOut(b, s)
    decreases |a|
  {
    if a == [] {
      assert a + b == b;
    } else {
      var h, rest := a[0], a[1..];
      assert a == [h] + rest;
      assert a + b == [h] + (rest + b);
      FilterOutCons(h, rest, s);
      FilterOutCons(h, rest + b, s);
      FilterOutAppend(rest, b, s);
      var keep, x, y := (if h in s then [] else [h]), FilterOut(rest, s), FilterOut(b, s);
      assert keep + (x + y) == (keep + x) + y;
    }
  }

  /** A key survives deletion exactly when it was present and is not
      deleted. */
  lemma {:induction false} FilterOutHas(o: seq<Digest>, s: set<Digest>, h: Digest)
    ensures h in FilterOut(o, s) <==> h in o && h !in s
    decreases |o|
  {
    if o != [] {
      var x, rest := o[0], o[1..];
      assert o == [x] + rest;
      FilterOutCons(x, rest, s);
      FilterOutHas(rest, s, h);
    }
  }

  lemma FilterOutKeeps(o: seq<Digest>, s: set<Digest>)
    ensures forall h :: h in FilterOut(o, s) <==> h in o && h !in s
  {
    forall h ensures h in FilterOut(o, s) <==> h in o && h !in s {
      FilterOutHas(o, s, h);
    }
  }

  /** A single key survives deletion exactly when it is not deleted. */
  lemma FilterOutOne(h: Digest, s: set<Digest>)
    ensures FilterOut([h], s) == if h in s then [] else [h]
  {
    assert [h][1..] == [];
  }

  lemma {:induction false} FilterOutNone(o: seq<Digest>, s: set<Digest>)
    requires forall h :: h in o ==> h !in s
    ensures FilterOut(o, s) == o
  {
    if o != [] {
      FilterOutNone(o[1..], s);
      assert [o[0]] + o[1..] == o;
    }
  }

  /** Deleting keys keeps a map well formed. */
  lemma WithoutWellFormed(d: DupeMap, s: set<Digest>)
    requires WellFormed(d)
    ensures WellFormed(Without(d, s))
  {
    FilterOutDistinct(d.order, s);
  }

  /** Deleting the keys of `s` and then those of `t` is deleting those of
      `s + t` at once; this is what lets a loop delete keys one by one. */
  lemma WithoutTwice(d: DupeMap, s: set<Digest>, t: set<Digest>)
    ensures Without(Without(d, s), t) == Without(d, s + t)
  {
    FilterOutTwice(d.order, s, t);
    assert d.buckets - s - t == d.buckets - (s + t);
  }

  // ---------------------------------------------------------------------
  // Trimming

  lemma TrimmedWellFormed(d: DupeMap)
    requires WellFormed(d)
    ensures WellFormed(Trimmed(d))
  {
    WithoutWellFormed(d, Singletons(d));
  }

  /** The keys of `o` whose bucket holds exactly one path, in the order of `o`. */
  ghost function SingleKeys(d: DupeMap, o: seq<Digest>): seq<Digest> {
    if o == [] then []
    else
      var h := o[|o| - 1];
      SingleKeys(d, o[..|o| - 1]) + (if |Bucket(d, h)| == 1 then [h] else [])
  }

  ghost function Elems(s: seq<Digest>): set<Digest> {
    set h | h in s
  }

  lemma ElemsSnoc(s: seq<Digest>, j: nat)
    requires j < |s|
    ensures Elems(s[..j + 1]) == Elems(s[..j]) + {s[j]}
  {
    assert s[..j + 1] == s[..j] + [s[j]];
  }

  lemma {:induction false} SingleKeysHas(d: DupeMap, o: seq<Digest>, h: Digest)
    ensures h in SingleKeys(d, o) <==> h in o && |Bucket(d, h)| == 1
  {
    if o != [] {
      SingleKeysHas(d, o[..|o| - 1], h);
      assert o == o[..|o| - 1] + [o[|o| - 1]];
    }
  }

  /** In a well-formed map, the keys met along the iteration order whose
      bucket holds one path are exactly the single-path keys. */
  lemma SingleKeysAreSingletons(d: DupeMap)
    requires WellFormed(d)
    ensures Elems(SingleKeys(d, d.order)) == Singletons(d)
  {
    forall h ensures h in SingleKeys(d, d.order) <==> h in Singletons(d) {
      SingleKeysHas(d, d.order, h);
    }
  }

  lemma WithoutNothing(d: DupeMap)
    ensures Without(d, {}) == d
  {
    FilterOutNone(d.order, {});
    assert d.buckets - {} == d.buckets;
  }

  /** Trimming twice is trimming once: after the first pass no bucket holds
      exactly one path, so the second pass deletes nothing. */
  lemma TrimIdempotent(d: DupeMap)
    ensures Trimmed(Trimmed(d)) == Trimmed(d)
  {
    var t := Trimmed(d);
    assert Singletons(t) == {};
    WithoutNothing(t);
  }

  // ---------------------------------------------------------------------
  // All paths across buckets

  lemma {:induction false} FlattenSame(o: seq<Digest>, b: map<Digest, seq<Path>>, c: map<Digest, seq<Path>>)
    requires forall h :: h in o ==> (h in b <==> h in c) && (h in b ==> b[h] == c[h])
    ensures Flatten(o, b) == Flatten(o, c)
  {
    if o != [] {
      FlattenSame(o[..|o| - 1], b, c);
    }
  }

  /** Appending `p` to one bucket that the order visits exactly once adds
      exactly one occurrence of `p` to the flattened paths. */
  lemma {:induction false} FlattenUpdate(o: seq<Digest>, b: map<Digest, seq<Path>>, h: Digest, p: Path)
    requires Distinct(o) && h in o && h in b
    ensures multiset(Flatten(o, b[h := b[h] + [p]])) == multiset(Flatten(o, b)) + multiset{p}
  {
    var c := b[h := b[h] + [p]];
    var init, last := o[..|o| - 1], o[|o| - 1];
    assert o == init + [last];
    assert Distinct(init);
    if last == h {
      assert h !in init;
      FlattenSame(init, b, c);
    } else {
      assert h in init;
      FlattenUpdate(init, b, h, p);
    }
  }

  /** Appending a path adds exactly that path to the multiset of all paths:
      nothing is dropped, nothing is duplicated. */
  lemma AppendPaths(d: DupeMap, h: Digest, p: Path)
    requires WellFormed(d)
    ensures multiset(AllPaths(Append(d, h, p))) == multiset(AllPaths(d)) + multiset{p}
  {
    var r := Append(d, h, p);
    if h in d.buckets {
      FlattenUpdate(d.order, d.buckets, h, p);
    } else {
      assert r.order[..|r.order| - 1] == d.order;
      FlattenSame(d.order, d.buckets, r.buckets);
    }
  }
}
