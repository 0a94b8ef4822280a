/** The duplicate tracker: maps every qualifying file found by a recursive
    walk to the bucket of its content digest, and can drop the buckets that
    hold a single file.
    The digest of a file is a function `hash` of its content, fixed when the
    tracker is built; the optional suffix filter is fixed too. */
module DupeTracker {
  import opened FileTree
  import opened DupeMaps

  datatype Option<T> = None | Some(value: T)

  /** ASCII lower-casing of one character. */
  function LowerChar(c: char): char {
    if 'A' <= c <= 'Z' then (c as int - 'A' as int + 'a' as int) as char else c
  }

  function Lower(s: string): string {
    seq(|s|, i requires 0 <= i < |s| => LowerChar(s[i]))
  }

  /** Whether a file with suffix `fileSuffix` is skipped: only when a non-empty
      filter is configured and the two suffixes differ once lower-cased. */
  predicate Skips(filter: Option<string>, fileSuffix: string)
    ensures filter.Some? && fileSuffix == filter.value ==> !Skips(filter, fileSuffix)
    ensures filter.Some? && filter.value != "" && |fileSuffix| != |filter.value| ==> Skips(filter, fileSuffix)
  {
    filter.Some? && filter.value != "" && Lower(fileSuffix) != Lower(filter.value)
  }

  /** What mapping one file does to the map. */
  function Step(filter: Option<string>, hash: Content -> Digest, d: DupeMap, f: FileEntry): DupeMap
  {
    if Skips(filter, f.suffix) then d else Append(d, hash(f.content), f.path)
  }

  /** Mapping the files `fs` one after the other. */
  function Fill(filter: Option<string>, hash: Content -> Digest, d: DupeMap, fs: seq<FileEntry>): (r: DupeMap)
    ensures d.buckets.Keys <= r.buckets.Keys
    decreases fs
  {
    if fs == [] then d else Fill(filter, hash, Step(filter, hash, d, fs[0]), fs[1..])
  }

  /** Mapping a non-empty list maps its first file, then the rest. */
  lemma FillCons(filter: Option<string>, hash: Content -> Digest, d: DupeMap, f: FileEntry, rest: seq<FileEntry>)
    ensures Fill(filter, hash, d, [f] + rest) == Fill(filter, hash, Step(filter, hash, d, f), rest)
  {
    assert ([f] + rest)[0] == f && ([f] + rest)[1..] == rest;
  }

  lemma ConcatAssoc(a: seq<Path>, b: seq<Path>, c: seq<Path>)
    ensures (a + b) + c == a + (b + c)
  {
  }

  /** The files of `fs` that the filter lets through, in order. */
  function Accepted(filter: Option<string>, fs: seq<FileEntry>): seq<FileEntry>
  {
    if fs == [] then []
    else (if Skips(filter, fs[0].suffix) then [] else [fs[0]]) + Accepted(filter, fs[1..])
  }

  function Paths(fs: seq<FileEntry>): seq<Path> {
    seq(|fs|, i requires 0 <= i < |fs| => fs[i].path)
  }

  lemma PathsCons(f: FileEntry, fs: seq<FileEntry>)
    ensures Paths([f] + fs) == [f.path] + Paths(fs)
  {
    var l, r := Paths([f] + fs), [f.path] + Paths(fs);
    assert |l| == |r|;
    forall i | 0 <= i < |l| ensures l[i] == r[i] {
      if i > 0 {
        assert ([f] + fs)[i] == fs[i - 1];
      }
    }
  }

  /** The paths of the files of `fs` whose content has digest `h`, in order. */
  function PathsWithHash(hash: Content -> Digest, fs: seq<FileEntry>, h: Digest): seq<Path>
  {
    if fs == [] then []
    else (if hash(fs[0].content) == h then [fs[0].path] else []) + PathsWithHash(hash, fs[1..], h)
  }

  // ---------------------------------------------------------------------
  // The suffix filter

  /** Lower-casing is case-insensitive in the expected sense: upper-case ASCII
      letters become their lower-case form and nothing else changes. */
  lemma LowerChars(s: string)
    ensures |Lower(s)| == |s|
    ensures forall i :: 0 <= i < |s| && 'A' <= s[i] <= 'Z' ==> Lower(s)[i] == s[i] - 'A' + 'a'
    ensures forall i :: 0 <= i < |s| && !('A' <= s[i] <= 'Z') ==> Lower(s)[i] == s[i]
  {
  }

  /** With no filter (absent or the empty string) no file is skipped. */
  lemma NoFilterMapsAll(filter: Option<string>, hash: Content -> Digest, d: DupeMap, f: FileEntry)
    requires filter == None || filter == Some("")
    ensures Step(filter, hash, d, f) == Append(d, hash(f.content), f.path)
  {
  }

  /** A file whose suffix differs from the filter only in letter case is
      mapped; one whose suffix differs otherwise is skipped, including a file
      without a suffix, and every file when the filter lacks the leading dot
      that a suffix carries. */
  lemma SuffixExamples()
    ensures !Skips(Some(".txt"), ".TXT")
    ensures !Skips(Some(".TXT"), ".txt")
    ensures Skips(Some(".txt"), ".md")
    ensures Skips(Some(".txt"), "")
    ensures Skips(Some("txt"), ".txt")
  {
    assert Lower(".TXT") == ".txt";
    assert Lower(".md") != Lower(".txt") by { assert Lower(".md")[1] == 'm'; }
    assert |Lower("txt")| != |Lower(".txt")|;
  }

  // ---------------------------------------------------------------------
  // Mapping a sequence of files

  lemma {:induction false} FillAppend(filter: Option<string>, hash: Content -> Digest, d: DupeMap, a: seq<FileEntry>, b: seq<FileEntry>)
    ensures Fill(filter, hash, d, a + b) == Fill(filter, hash, Fill(filter, hash, d, a), b)
    decreases a
  {
    if a == [] {
      assert a + b == b;
    } else {
      assert (a + b)[0] == a[0];
      assert (a + b)[1..] == a[1..] + b;
      FillAppend(filter, hash, Step(filter, hash, d, a[0]), a[1..], b);
    }
  }

  /** Keys already in the map keep their place in the iteration order; the
      keys a walk creates all come after them. */
  lemma {:induction false} FillOrderPrefix(filter: Option<string>, hash: Content -> Digest, d: DupeMap, fs: seq<FileEntry>)
    ensures |d.order| <= |Fill(filter, hash, d, fs).order|
    ensures Fill(filter, hash, d, fs).order[..|d.order|] == d.order
    decreases fs
  {
    if fs != [] {
      var d1 := Step(filter, hash, d, fs[0]);
      FillOrderPrefix(filter, hash, d1, fs[1..]);
      var r := Fill(filter, hash, d1, fs[1..]);
      assert d1.order[..|d.order|] == d.order;
      assert r.order[..|d.order|] == r.order[..|d1.order|][..|d.order|];
    }
  }

  /** The digests of the contents of `fs`, in order. */
  function Digests(hash: Content -> Digest, fs: seq<FileEntry>): seq<Digest>
    decreases fs
  {
    if fs == [] then [] else [hash(fs[0].content)] + Digests(hash, fs[1..])
  }

  /** The elements of `s` not in `seen`, each once, in the order of their
      first occurrence in `s`. */
  function FirstOccurrences(s: seq<Digest>, seen: set<Digest>): (r: seq<Digest>)
    ensures Distinct(r)
    ensures forall i :: 0 <= i < |r| ==> r[i] in s && r[i] !in seen
    decreases |s|
  {
    if s == [] then []
    else if s[0] in seen then FirstOccurrences(s[1..], seen)
    else [s[0]] + FirstOccurrences(s[1..], seen + {s[0]})
  }

  lemma FirstOccurrencesCons(h: Digest, t: seq<Digest>, seen: set<Digest>)
    ensures FirstOccurrences([h] + t, seen)
         == if h in seen then FirstOccurrences(t, seen) else [h] + FirstOccurrences(t, seen + {h})
  {
    assert ([h] + t)[0] == h && ([h] + t)[1..] == t;
  }

  /** Every element of `s` outside `seen` is listed. */
  lemma {:induction false} FirstOccurrencesHas(s: seq<Digest>, seen: set<Digest>, h: Digest)
    requires h in s && h !in seen
    ensures h in FirstOccurrences(s, seen)
    decreases |s|
  {
    var x, t := s[0], s[1..];
    assert s == [x] + t;
    FirstOccurrencesCons(x, t, seen);
    if x != h {
      if x in seen {
        FirstOccurrencesHas(t, seen, h);
      } else {
        FirstOccurrencesHas(t, seen + {x}, h);
      }
    }
  }

  /** The digest that mapping `f` may add: its own, unless the filter
      skips it. */
  function AddedDigest(filter: Option<string>, hash: Content -> Digest, f: FileEntry): seq<Digest> {
    if Skips(filter, f.suffix) then [] else [hash(f.content)]
  }

  lemma AcceptedDigestsCons(filter: Option<string>, hash: Content -> Digest, f: FileEntry, rest: seq<FileEntry>)
    ensures Digests(hash, Accepted(filter, [f] + rest))
         == AddedDigest(filter, hash, f) + Digests(hash, Accepted(filter, rest))
  {
    assert ([f] + rest)[0] == f && ([f] + rest)[1..] == rest;
    var acc := Accepted(filter, rest);
    if Skips(filter, f.suffix) {
      assert Accepted(filter, [f] + rest) == acc;
      assert AddedDigest(filter, hash, f) + Digests(hash, acc) == Digests(hash, acc);
    } else {
      assert Accepted(filter, [f] + rest) == [f] + acc;
      assert ([f] + acc)[0] == f && ([f] + acc)[1..] == acc;
    }
  }

  lemma AppendOldKeyOrder(d: DupeMap, h: Digest, p: Path, later: seq<Digest>)
    requires h in d.buckets
    ensures Append(d, h, p).order + FirstOccurrences(later, Append(d, h, p).buckets.Keys)
         == d.order + FirstOccurrences([h] + later, d.buckets.Keys)
  {
    FirstOccurrencesCons(h, later, d.buckets.Keys);
    assert Append(d, h, p).buckets.Keys == d.buckets.Keys;
  }

  lemma AppendNewKeyOrder(d: DupeMap, h: Digest, p: Path, later: seq<Digest>)
    requires h !in d.buckets
    ensures Append(d, h, p).order + FirstOccurrences(later, Append(d, h, p).buckets.Keys)
         == d.order + FirstOccurrences([h] + later, d.buckets.Keys)
  {
    FirstOccurrencesCons(h, later, d.buckets.Keys);
    var tail := FirstOccurrences(later, d.buckets.Keys + {h});
    assert (d.order + [h]) + tail == d.order + ([h] + tail);
  }

  /** One mapping step puts a new digest at the end of the order, which is
      where the first occurrences of the digests still to come place it. */
  lemma StepOrder(filter: Option<string>, hash: Content -> Digest, d: DupeMap, f: FileEntry, later: seq<Digest>)
    ensures Step(filter, hash, d, f).order + FirstOccurrences(later, Step(filter, hash, d, f).buckets.Keys)
         == d.order + FirstOccurrences(AddedDigest(filter, hash, f) + later, d.buckets.Keys)
  {
    if Skips(filter, f.suffix) {
      assert AddedDigest(filter, hash, f) + later == later;
    } else {
      var h := hash(f.content);
      assert AddedDigest(filter, hash, f) + later == [h] + later;
      if h in d.buckets {
        AppendOldKeyOrder(d, h, f.path, later);
      } else {
        AppendNewKeyOrder(d, h, f.path, later);
      }
    }
  }

  /** Insertion order is discovery order: after a walk, the iteration order
      is the old one followed by the digests of the accepted files that were
      not yet keys, each once, in the order their first file was met. */
  lemma {:induction false} FillOrder(filter: Option<string>, hash: Content -> Digest, d: DupeMap, fs: seq<FileEntry>)
    ensures Fill(filter, hash, d, fs).order
         == d.order + FirstOccurrences(Digests(hash, Accepted(filter, fs)), d.buckets.Keys)
    decreases |fs|
  {
    if fs == [] {
      assert d.order + [] == d.order;
    } else {
      var f, rest := fs[0], fs[1..];
      assert fs == [f] + rest;
      FillOrder(filter, hash, Step(filter, hash, d, f), rest);
      AcceptedDigestsCons(filter, hash, f, rest);
      StepOrder(filter, hash, d, f, Digests(hash, Accepted(filter, rest)));
    }
  }

  lemma {:induction false} FillWellFormed(filter: Option<string>, hash: Content -> Digest, d: DupeMap, fs: seq<FileEntry>)
    requires WellFormed(d)
    ensures WellFormed(Fill(filter, hash, d, fs))
    decreases fs
  {
    if fs != [] {
      FillWellFormed(filter, hash, Step(filter, hash, d, fs[0]), fs[1..]);
    }
  }

  /** Mapping one file extends the bucket of its own digest by its path,
      unless the filter skips it, and changes no other bucket. */
  lemma StepBucket(filter: Option<string>, hash: Content -> Digest, d: DupeMap, f: FileEntry, h: Digest)
    ensures Bucket(Step(filter, hash, d, f), h)
         == Bucket(d, h) + (if hash(f.content) == h then Added(filter, f) else [])
  {
  }

  lemma AcceptedHashCons(filter: Option<string>, hash: Content -> Digest, fs: seq<FileEntry>, h: Digest)
    requires fs != []
    ensures PathsWithHash(hash, Accepted(filter, fs), h)
         == (if hash(fs[0].content) == h then Added(filter, fs[0]) else [])
            + PathsWithHash(hash, Accepted(filter, fs[1..]), h)
  {
    var rest := Accepted(filter, fs[1..]);
    if Skips(filter, fs[0].suffix) {
      assert Accepted(filter, fs) == rest;
    } else {
      assert Accepted(filter, fs) == [fs[0]] + rest;
      assert ([fs[0]] + rest)[1..] == rest;
    }
  }

  /** The bucket of every digest `h` ends up as its old contents followed by
      the paths of the accepted files with digest `h`, in the order the files
      were mapped; so every mapped path sits in the bucket of its own digest,
      and no other bucket changes. */
  lemma {:induction false} FillBucket(filter: Option<string>, hash: Content -> Digest, d: DupeMap, fs: seq<FileEntry>, h: Digest)
    ensures Bucket(Fill(filter, hash, d, fs), h)
         == Bucket(d, h) + PathsWithHash(hash, Accepted(filter, fs), h)
    decreases fs
  {
    if fs != [] {
      var d' := Step(filter, hash, d, fs[0]);
      assert fs == [fs[0]] + fs[1..];
      FillCons(filter, hash, d, fs[0], fs[1..]);
      StepBucket(filter, hash, d, fs[0], h);
      FillBucket(filter, hash, d', fs[1..], h);
      AcceptedHashCons(filter, hash, fs, h);
      ConcatAssoc(Bucket(d, h), if hash(fs[0].content) == h then Added(filter, fs[0]) else [],
                  PathsWithHash(hash, Accepted(filter, fs[1..]), h));
    }
  }

  /** The paths that mapping `f` adds: its own, unless the filter skips it. */
  function Added(filter: Option<string>, f: FileEntry): seq<Path> {
    if Skips(filter, f.suffix) then [] else [f.path]
  }

  lemma AcceptedPathsCons(filter: Option<string>, fs: seq<FileEntry>)
    requires fs != []
    ensures Paths(Accepted(filter, fs)) == Added(filter, fs[0]) + Paths(Accepted(filter, fs[1..]))
  {
    var rest := Accepted(filter, fs[1..]);
    if Skips(filter, fs[0].suffix) {
      assert Accepted(filter, fs) == rest;
    } else {
      assert Accepted(filter, fs) == [fs[0]] + rest;
      PathsCons(fs[0], rest);
    }
  }

  /** Mapping one file adds its path to the multiset of all paths when the
      filter accepts it, and nothing otherwise. */
  lemma StepPaths(filter: Option<string>, hash: Content -> Digest, d: DupeMap, f: FileEntry)
    requires WellFormed(d)
    ensures WellFormed(Step(filter, hash, d, f))
    ensures multiset(AllPaths(Step(filter, hash, d, f))) == multiset(AllPaths(d)) + multiset(Added(filter, f))
  {
    if !Skips(filter, f.suffix) {
      AppendPaths(d, hash(f.content), f.path);
    }
  }

  /** Mapping files adds exactly the paths of the accepted files to the
      multiset of all paths in all buckets. */
  lemma {:induction false} FillPaths(filter: Option<string>, hash: Content -> Digest, d: DupeMap, fs: seq<FileEntry>)
    requires WellFormed(d)
    ensures multiset(AllPaths(Fill(filter, hash, d, fs)))
         == multiset(AllPaths(d)) + multiset(Paths(Accepted(filter, fs)))
    decreases fs
  {
    if fs != [] {
      var d' := Step(filter, hash, d, fs[0]);
      StepPaths(filter, hash, d, fs[0]);
      FillPaths(filter, hash, d', fs[1..]);
      AcceptedPathsCons(filter, fs);
    }
  }

  /** The total number of paths grows by exactly the number of accepted files. */
  lemma FillCount(filter: Option<string>, hash: Content -> Digest, d: DupeMap, fs: seq<FileEntry>)
    requires WellFormed(d)
    ensures |AllPaths(Fill(filter, hash, d, fs))| == |AllPaths(d)| + |Accepted(filter, fs)|
  {
    FillPaths(filter, hash, d, fs);
    assert |multiset(AllPaths(Fill(filter, hash, d, fs)))| == |AllPaths(Fill(filter, hash, d, fs))|;
    assert |multiset(Paths(Accepted(filter, fs)))| == |Paths(Accepted(filter, fs))|;
  }

  lemma {:induction false} AcceptedHas(filter: Option<string>, fs: seq<FileEntry>, f: FileEntry)
    ensures f in Accepted(filter, fs) <==> f in fs && !Skips(filter, f.suffix)
    decreases fs
  {
    if fs != [] {
      AcceptedHas(filter, fs[1..], f);
      assert fs == [fs[0]] + fs[1..];
    }
  }

  lemma {:induction false} PathsWithHashHas(hash: Content -> Digest, fs: seq<FileEntry>, h: Digest, p: Path)
    ensures p in PathsWithHash(hash, fs, h) <==>
            exists f :: f in fs && f.path == p && hash(f.content) == h
    decreases fs
  {
    if fs != [] {
      PathsWithHashHas(hash, fs[1..], h, p);
      assert fs == [fs[0]] + fs[1..];
      if exists f :: f in fs && f.path == p && hash(f.content) == h {
        var f :| f in fs && f.path == p && hash(f.content) == h;
        if f != fs[0] {
          assert f in fs[1..];
        }
      }
    }
  }

  /** Scanning from an empty map: a path lies in the bucket of `h` exactly when
      an accepted file with that path has content with digest `h`. */
  lemma FromEmptyBucket(filter: Option<string>, hash: Content -> Digest, fs: seq<FileEntry>, h: Digest, p: Path)
    ensures p in Bucket(Fill(filter, hash, Empty, fs), h) <==>
            exists f :: f in fs && !Skips(filter, f.suffix) && f.path == p && hash(f.content) == h
  {
    FillBucket(filter, hash, Empty, fs, h);
    PathsWithHashHas(hash, Accepted(filter, fs), h, p);
    forall f: FileEntry
      ensures f in Accepted(filter, fs) <==> f in fs && !Skips(filter, f.suffix)
    {
      AcceptedHas(filter, fs, f);
    }
  }

  /** Among files with distinct paths, a path names at most one file. */
  lemma DistinctPathsSameFile(fs: seq<FileEntry>, f1: FileEntry, f2: FileEntry)
    requires Distinct(Paths(fs))
    requires f1 in fs && f2 in fs && f1.path == f2.path
    ensures f1 == f2
  {
    var i :| 0 <= i < |fs| && fs[i] == f1;
    var j :| 0 <= j < |fs| && fs[j] == f2;
    assert Paths(fs)[i] == Paths(fs)[j];
  }

  /** When the scanned files have distinct paths, as the entries of a real
      directory tree do, every mapped path sits in exactly one bucket. */
  lemma FromEmptyOneBucket(filter: Option<string>, hash: Content -> Digest, fs: seq<FileEntry>, p: Path, h1: Digest, h2: Digest)
    requires Distinct(Paths(fs))
    requires p in Bucket(Fill(filter, hash, Empty, fs), h1)
    requires p in Bucket(Fill(filter, hash, Empty, fs), h2)
    ensures h1 == h2
  {
    FromEmptyBucket(filter, hash, fs, h1, p);
    FromEmptyBucket(filter, hash, fs, h2, p);
    var f1 :| f1 in fs && f1.path == p && hash(f1.content) == h1;
    var f2 :| f2 in fs && f2.path == p && hash(f2.content) == h2;
    DistinctPathsSameFile(fs, f1, f2);
  }

  // ---------------------------------------------------------------------
  // The tracker

  class Tracker {
    /** The configured suffix filter; `None` or the empty string disable it. */
    const suffix: Option<string>
    /** The digest of a file's content. */
    const hash: Content -> Digest
    var dupeMap: DupeMap

    ghost predicate Valid()
      reads this
    {
      WellFormed(dupeMap)
    }

    constructor (suffix: Option<string>, hash: Content -> Digest)
      ensures Valid()
      ensures this.suffix == suffix && this.hash == hash
      ensures dupeMap == Empty
    {
      this.suffix := suffix;
      this.hash := hash;
      dupeMap := Empty;
    }

    /** Maps one non-directory entry: skipped when the filter rejects its
        suffix, otherwise its path goes at the end of its digest's bucket. */
    method MapFile(f: FileEntry)
      requires Valid()
      modifies this`dupeMap
      ensures Valid()
      ensures dupeMap == Step(suffix, hash, old(dupeMap), f)
      ensures Skips(suffix, f.suffix) ==> dupeMap == old(dupeMap)
      ensures !Skips(suffix, f.suffix) ==>
                Bucket(dupeMap, hash(f.content)) == Bucket(old(dupeMap), hash(f.content)) + [f.path]
      ensures forall k :: k != hash(f.content) ==> Bucket(dupeMap, k) == Bucket(old(dupeMap), k)
    {
      if Skips(suffix, f.suffix) {
        return;
      }
      var fileHash := hash(f.content);
      dupeMap := Append(dupeMap, fileHash, f.path);
    }

    /** Walks the children of `dir` depth first: every non-directory child is
        mapped, every directory child is walked in turn, in child order. */
    method ScanDir(dir: Entry)
      requires Valid() && dir.Dir?
      modifies this`dupeMap
      ensures Valid()
      ensures dupeMap == Fill(suffix, hash, old(dupeMap), Files(dir.children))
      decreases dir
    {
      var children := dir.children;
      for i := 0 to |children|
        invariant Valid()
        invariant dupeMap == Fill(suffix, hash, old(dupeMap), Files(children[..i]))
      {
        var child := children[i];
        ghost var before := dupeMap;
        if child.Dir? {
          ScanDir(child);
          assert dupeMap == Fill(suffix, hash, before, Files(child.children));
        } else {
          MapFile(child);
          assert [child][1..] == [];
          assert dupeMap == Fill(suffix, hash, before, [child]);
        }
        assert children[..i + 1] == children[..i] + [child];
        FilesSnoc(children[..i], child);
        FillAppend(suffix, hash, old(dupeMap), Files(children[..i]),
                   if child.Dir? then Files(child.children) else [child]);
      }
      assert children[..|children|] == children;
    }

    /** The keys whose bucket holds exactly one path, collected in
        iteration order. */
    method SingleHashes() returns (singleHashes: seq<Digest>)
      requires Valid()
      ensures singleHashes == SingleKeys(dupeMap, dupeMap.order)
      ensures Elems(singleHashes) == Singletons(dupeMap)
    {
      var order := dupeMap.order;
      singleHashes := [];
      for i := 0 to |order|
        invariant singleHashes == SingleKeys(dupeMap, order[..i])
      {
        var fileHash := order[i];
        assert order[..i + 1][..i] == order[..i];
        if |dupeMap.buckets[fileHash]| == 1 {
          singleHashes := singleHashes + [fileHash];
        }
      }
      assert order[..|order|] == order;
      SingleKeysAreSingletons(dupeMap);
    }

    /** Deletes every bucket holding exactly one path: first collects their
        keys, then deletes them one by one. */
    method TrimDupeMap()
      requires Valid()
      modifies this`dupeMap
      ensures Valid()
      ensures dupeMap == Trimmed(old(dupeMap))
    {
      var singleHashes := SingleHashes();
      ghost var d0 := dupeMap;
      assert Elems(singleHashes[..0]) == {};
      WithoutNothing(d0);
      for j := 0 to |singleHashes|
        invariant dupeMap == Without(d0, Elems(singleHashes[..j]))
      {
        var singleHash := singleHashes[j];
        ElemsSnoc(singleHashes, j);
        WithoutTwice(d0, Elems(singleHashes[..j]), {singleHash});
        dupeMap := Without(dupeMap, {singleHash});
      }
      assert singleHashes[..|singleHashes|] == singleHashes;
      TrimmedWellFormed(d0);
    }
  }
}
