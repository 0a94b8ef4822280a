/** Concrete scans: small directory trees, the map a fresh tracker builds
    from them, what trimming leaves and what the report shows. The digest
    function is left open; each scenario only requires that the digests of
    different contents differ where that matters. */
module Scenarios {
  import opened FileTree
  import opened DupeMaps
  import opened DupeTracker
  import opened DupeReport

  const Hello: Content := [104, 101, 108, 108, 111]
  const World: Content := [119, 111, 114, 108, 100]

  const A: FileEntry := File("a.txt", ".txt", Hello)
  const B: FileEntry := File("b.txt", ".txt", Hello)
  const C: FileEntry := File("c.txt", ".txt", World)

  /** A directory holding `a.txt` and `b.txt` with the same bytes and
      `c.txt` with different ones. */
  const ThreeRoot: Entry := Dir("root", [A, B, C])

  /** The map a fresh tracker builds from `ThreeRoot`, given its digests. */
  function ThreeMap(h: Digest, w: Digest): DupeMap {
    DupeMap([h, w], map[h := ["a.txt", "b.txt"], w := ["c.txt"]])
  }

  lemma ThreeFilesWalk()
    ensures Files(ThreeRoot.children) == [A, B, C]
  {
    assert Files([C]) == [C] by { assert [C][1..] == []; }
    assert Files([B, C]) == [B] + Files([C]) by { assert [B, C][1..] == [C]; }
    assert Files([A, B, C]) == [A] + Files([B, C]) by { assert [A, B, C][1..] == [B, C]; }
  }

  /** How the walk's file list splits, first file by first file. */
  lemma ThreeSplit()
    ensures [A, B, C] == [A] + [B, C] && [B, C] == [B] + [C] && [C] == [C] + []
  {
  }

  /** Scanning `ThreeRoot` gives two buckets, the shared one listing `a.txt`
      before `b.txt`, keyed in the order their first file was met. */
  lemma ThreeFilesMap(hash: Content -> Digest)
    requires hash(Hello) != hash(World)
    ensures Fill(None, hash, Empty, Files(ThreeRoot.children)) == ThreeMap(hash(Hello), hash(World))
  {
    ThreeFilesWalk();
    var h, w := hash(Hello), hash(World);
    var d1 := DupeMap([h], map[h := ["a.txt"]]);
    var d2 := DupeMap([h], map[h := ["a.txt", "b.txt"]]);
    var d3 := ThreeMap(h, w);
    assert Step(None, hash, Empty, A) == d1;
    assert Step(None, hash, d1, B) == d2 by {
      assert ["a.txt"] + ["b.txt"] == ["a.txt", "b.txt"];
      assert d1.buckets[h := ["a.txt", "b.txt"]] == d2.buckets;
    }
    assert Step(None, hash, d2, C) == d3 by {
      assert [h] + [w] == [h, w];
    }
    ThreeSplit();
    FillCons(None, hash, Empty, A, [B, C]);
    FillCons(None, hash, d1, B, [C]);
    FillCons(None, hash, d2, C, []);
  }

  /** Trimming drops the bucket of `c.txt` alone. */
  lemma ThreeFilesTrim(h: Digest, w: Digest)
    requires h != w
    ensures Trimmed(ThreeMap(h, w)) == DupeMap([h], map[h := ["a.txt", "b.txt"]])
  {
    var d := ThreeMap(h, w);
    assert Singletons(d) == {w};
    assert FilterOut([h, w], {w}) == [h] by {
      assert [h, w][1..] == [w];
      assert [w][1..] == [];
    }
    assert d.buckets - {w} == map[h := ["a.txt", "b.txt"]];
  }

  lemma TwoPathsLine()
    ensures PathsLine(["a.txt", "b.txt"]) == "    a.txt\n    b.txt"
  {
    assert ["a.txt", "b.txt"][1..] == ["b.txt"];
    assert Join("\n" + Indent, ["a.txt", "b.txt"]) == "a.txt" + "\n    " + "b.txt";
  }

  /** The report names the shared digest and lists its two paths on one
      message, one per line, each indented by four spaces. */
  lemma ThreeFilesReport(h: Digest, w: Digest)
    requires h != w
    ensures ReportLines(Items(ThreeMap(h, w))) == [Header, HashLine(h), "    a.txt\n    b.txt"]
  {
    var d := ThreeMap(h, w);
    var x, y := (h, ["a.txt", "b.txt"]), (w, ["c.txt"]);
    assert ItemsOf(d, [w]) == [y] by { assert [w][1..] == []; }
    assert Items(d) == [x] + ItemsOf(d, [w]) by { assert [h, w][1..] == [w]; }
    assert [x, y][..1] == [x];
    assert [x][..0] == [];
    assert GroupLines([x]) == [HashLine(h), PathsLine(x.1)];
    assert GroupLines([x, y]) == GroupLines([x]);
    TwoPathsLine();
  }

  const X: FileEntry := File("root/x.bin", ".bin", Hello)
  const Y: FileEntry := File("root/sub/y.bin", ".bin", Hello)

  /** Identical files directly under the root and one level down. */
  const NestedRoot: Entry := Dir("root", [X, Dir("root/sub", [Y])])

  /** The walk meets the file under the root before the one in `sub`. */
  lemma NestedWalk()
    ensures Files(NestedRoot.children) == [X, Y]
  {
    var sub := Dir("root/sub", [Y]);
    assert Files([Y]) == [Y] by { assert [Y][1..] == []; }
    assert Files([sub]) == Files([Y]) + Files([]) by { assert [sub][1..] == []; }
    assert Files([X, sub]) == [X] + Files([sub]) by { assert [X, sub][1..] == [sub]; }
  }

  /** Identical files at two depths land in one bucket, the file met first
      in the walk (the one directly under the root) first. */
  lemma NestedDirectories(hash: Content -> Digest)
    ensures Fill(None, hash, Empty, Files(NestedRoot.children))
              == DupeMap([hash(Hello)], map[hash(Hello) := ["root/x.bin", "root/sub/y.bin"]])
  {
    NestedWalk();
    var h := hash(Hello);
    var d1 := DupeMap([h], map[h := ["root/x.bin"]]);
    var d2 := DupeMap([h], map[h := ["root/x.bin", "root/sub/y.bin"]]);
    assert Step(None, hash, Empty, X) == d1;
    assert Step(None, hash, d1, Y) == d2 by {
      assert ["root/x.bin"] + ["root/sub/y.bin"] == ["root/x.bin", "root/sub/y.bin"];
      assert d1.buckets[h := ["root/x.bin", "root/sub/y.bin"]] == d2.buckets;
    }
    assert [X, Y] == [X] + [Y] && [Y] == [Y] + [];
    FillCons(None, hash, Empty, X, [Y]);
    FillCons(None, hash, d1, Y, []);
  }

  const Upper: FileEntry := File("a.TXT", ".TXT", Hello)
  const Markdown: FileEntry := File("b.md", ".md", Hello)

  /** With the filter `.txt`, `a.TXT` is mapped and `b.md` is not, although
      both hold the same bytes. */
  lemma FilteredScan(hash: Content -> Digest)
    ensures Fill(Some(".txt"), hash, Empty, Files([Upper, Markdown]))
              == DupeMap([hash(Hello)], map[hash(Hello) := ["a.TXT"]])
  {
    SuffixExamples();
    assert Files([Markdown]) == [Markdown] by { assert [Markdown][1..] == []; }
    assert Files([Upper, Markdown]) == [Upper] + Files([Markdown]) by {
      assert [Upper, Markdown][1..] == [Markdown];
    }
    var d1 := DupeMap([hash(Hello)], map[hash(Hello) := ["a.TXT"]]);
    assert Step(Some(".txt"), hash, Empty, Upper) == d1;
    assert Step(Some(".txt"), hash, d1, Markdown) == d1;
    assert [Upper, Markdown] == [Upper] + [Markdown] && [Markdown] == [Markdown] + [];
    FillCons(Some(".txt"), hash, Empty, Upper, [Markdown]);
    FillCons(Some(".txt"), hash, d1, Markdown, []);
  }

  /** An empty directory leaves the map empty and the report a bare header. */
  lemma EmptyDirectory(filter: Option<string>, hash: Content -> Digest)
    ensures Fill(filter, hash, Empty, Files(Dir("root", []).children)) == Empty
    ensures ReportLines(Items(Empty)) == [Header]
  {
  }
}
