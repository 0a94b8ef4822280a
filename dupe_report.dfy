/** The duplicate report: a header line, then, for every bucket that does not
    hold exactly one path, a line naming the digest and a line listing the
    bucket's paths, one per line, each indented by four spaces.
    The map is given as its (digest, paths) items in iteration order, and the
    report as the sequence of messages handed to the output. */
module DupeReport {
  import opened FileTree
  import opened DupeMaps

  const Header: string := "The following duplicate files have been found:"
  const Indent: string := "    "

  function HashLine(h: Digest): string {
    "\nHash " + h + " is repeated in:"
  }

  /** The strings of `xs` with `sep` between consecutive ones. */
  function Join(sep: string, xs: seq<string>): string {
    if |xs| == 0 then ""
    else if |xs| == 1 then xs[0]
    else xs[0] + sep + Join(sep, xs[1..])
  }

  function PathsLine(paths: seq<Path>): string {
    Indent + Join("\n" + Indent, paths)
  }

  /** The two messages of one item, none for an item with exactly one path. */
  function ItemLines(item: Item): seq<string> {
    if |item.1| == 1 then [] else [HashLine(item.0), PathsLine(item.1)]
  }

  function GroupLines(items: seq<Item>): seq<string> {
    if items == [] then []
    else GroupLines(items[..|items| - 1]) + ItemLines(items[|items| - 1])
  }

  /** Every message the report shows, in order. */
  function ReportLines(items: seq<Item>): seq<string> {
    [Header] + GroupLines(items)
  }

  /** The items that hold other than exactly one path, in order. */
  function Groups(items: seq<Item>): (r: seq<Item>)
    ensures forall i :: 0 <= i < |r| ==> |r[i].1| != 1
    ensures |r| <= |items|
  {
    if items == [] then []
    else (if |items[0].1| == 1 then [] else [items[0]]) + Groups(items[1..])
  }

  lemma GroupsCons(x: Item, rest: seq<Item>)
    ensures Groups([x] + rest) == (if |x.1| == 1 then [] else [x]) + Groups(rest)
  {
    assert ([x] + rest)[0] == x && ([x] + rest)[1..] == rest;
  }

  /** The report visits the items in order: selecting distributes over
      concatenation. */
  lemma {:induction false} GroupsAppend(a: seq<Item>, b: seq<Item>)
    ensures Groups(a + b) == Groups(a) + Groups(b)
    decreases |a|
  {
    if a == [] {
      assert a + b == b;
    } else {
      var x, rest := a[0], a[1..];
      assert a == [x] + rest;
      assert a + b == [x] + (rest + b);
      GroupsCons(x, rest);
      GroupsCons(x, rest + b);
      GroupsAppend(rest, b);
    }
  }

  /** An item is selected exactly when it is one of the items and its path
      list does not have length 1. */
  lemma {:induction false} GroupsHas(items: seq<Item>, x: Item)
    ensures x in Groups(items) <==> x in items && |x.1| != 1
    decreases |items|
  {
    if items != [] {
      var y, rest := items[0], items[1..];
      assert items == [y] + rest;
      GroupsCons(y, rest);
      GroupsHas(rest, x);
    }
  }

  /** A single item is kept exactly when its path list does not have
      length 1. */
  lemma GroupsOne(x: Item)
    ensures Groups([x]) == if |x.1| == 1 then [] else [x]
  {
    assert [x][1..] == [];
  }

  /** Builds the report message by message: the header, then the two
      messages of each item in iteration order, skipping single-path items. */
  method PrintDupeReport(items: seq<Item>) returns (messages: seq<string>)
    ensures messages == ReportLines(items)
  {
    messages := [Header];
    for i := 0 to |items|
      invariant messages == [Header] + GroupLines(items[..i])
    {
      var (fileHash, dupeList) := items[i];
      assert items[..i + 1][..i] == items[..i];
      if |dupeList| == 1 {
        continue;
      }
      messages := messages + [HashLine(fileHash)];
      messages := messages + [PathsLine(dupeList)];
    }
    assert items[..|items|] == items;
  }

  // ---------------------------------------------------------------------
  // Shape of the report

  lemma {:induction false} GroupLinesAppend(a: seq<Item>, b: seq<Item>)
    ensures GroupLines(a + b) == GroupLines(a) + GroupLines(b)
    decreases |b|
  {
    if b == [] {
      assert a + b == a;
    } else {
      var init, last := b[..|b| - 1], b[|b| - 1];
      assert (a + b)[..|a + b| - 1] == a + init;
      GroupLinesAppend(a, init);
    }
  }

  lemma GroupLinesCons(x: Item, rest: seq<Item>)
    ensures GroupLines([x] + rest) == ItemLines(x) + GroupLines(rest)
  {
    GroupLinesAppend([x], rest);
    assert [x][..0] == [];
  }

  /** Single-path items contribute nothing: the report of `items` is the
      report of its multi-path items alone. */
  lemma {:induction false} GroupLinesOfGroups(items: seq<Item>)
    ensures GroupLines(items) == GroupLines(Groups(items))
    decreases |items|
  {
    if items != [] {
      var x, rest := items[0], items[1..];
      assert items == [x] + rest;
      GroupLinesCons(x, rest);
      GroupLinesOfGroups(rest);
      if |x.1| != 1 {
        assert Groups(items) == [x] + Groups(rest);
        GroupLinesCons(x, Groups(rest));
      } else {
        assert Groups(items) == Groups(rest);
      }
    }
  }

  lemma {:induction false} GroupLinesLength(gs: seq<Item>)
    requires forall i :: 0 <= i < |gs| ==> |gs[i].1| != 1
    ensures |GroupLines(gs)| == 2 * |gs|
    decreases |gs|
  {
    if gs != [] {
      var init := gs[..|gs| - 1];
      assert forall i :: 0 <= i < |init| ==> init[i] == gs[i];
      GroupLinesLength(init);
    }
  }

  /** Each multi-path item contributes exactly two messages, so the report
      has one message more than twice the number of multi-path items. */
  lemma ReportLength(items: seq<Item>)
    ensures |ReportLines(items)| == 1 + 2 * |Groups(items)|
  {
    GroupLinesOfGroups(items);
    GroupLinesLength(Groups(items));
  }

  /** The report opens with the header. */
  lemma ReportHeader(items: seq<Item>)
    ensures |ReportLines(items)| >= 1 && ReportLines(items)[0] == Header
  {
  }

  /** Messages 2k + 1 and 2k + 2 of the report are the digest line and the
      paths line of the k-th multi-path item. */
  lemma ReportAt(items: seq<Item>, k: nat)
    requires k < |Groups(items)|
    ensures 2 * k + 2 < |ReportLines(items)|
    ensures ReportLines(items)[2 * k + 1] == HashLine(Groups(items)[k].0)
    ensures ReportLines(items)[2 * k + 2] == PathsLine(Groups(items)[k].1)
  {
    ReportHashAt(items, k);
    ReportPathsAt(items, k);
  }

  lemma ReportHashAt(items: seq<Item>, k: nat)
    requires k < |Groups(items)|
    ensures 2 * k + 2 < |ReportLines(items)|
    ensures ReportLines(items)[2 * k + 1] == HashLine(Groups(items)[k].0)
  {
    var gs := Groups(items);
    GroupLinesOfGroups(items);
    GroupsLinesAt(gs, k);
    ReportLinesAt(items, 2 * k);
  }

  lemma ReportPathsAt(items: seq<Item>, k: nat)
    requires k < |Groups(items)|
    ensures 2 * k + 2 < |ReportLines(items)|
    ensures ReportLines(items)[2 * k + 2] == PathsLine(Groups(items)[k].1)
  {
    var gs := Groups(items);
    GroupLinesOfGroups(items);
    GroupsLinesAt(gs, k);
    ReportLinesAt(items, 2 * k + 1);
  }

  /** Message `j + 1` of the report is message `j` of the item messages. */
  lemma ReportLinesAt(items: seq<Item>, j: nat)
    requires j < |GroupLines(items)|
    ensures |ReportLines(items)| == 1 + |GroupLines(items)|
    ensures ReportLines(items)[j + 1] == GroupLines(items)[j]
  {
  }

  lemma {:induction false} GroupsLinesAt(gs: seq<Item>, k: nat)
    requires forall i :: 0 <= i < |gs| ==> |gs[i].1| != 1
    requires k < |gs|
    ensures |GroupLines(gs)| == 2 * |gs|
    ensures GroupLines(gs)[2 * k] == HashLine(gs[k].0)
    ensures GroupLines(gs)[2 * k + 1] == PathsLine(gs[k].1)
    decreases |gs|
  {
    var init := gs[..|gs| - 1];
    assert forall i :: 0 <= i < |init| ==> init[i] == gs[i];
    GroupLinesLength(gs);
    GroupLinesLength(init);
    if k < |init| {
      GroupsLinesAt(init, k);
    }
  }

  /** An empty map reports the header alone. */
  lemma EmptyReport()
    ensures ReportLines(Items(Empty)) == [Header]
  {
  }

  // ---------------------------------------------------------------------
  // The paths line

  /** The pieces of `s` between newline characters, as splitting a string at
      every newline yields them. */
  function Lines(s: string): (r: seq<string>)
    ensures |r| >= 1
  {
    if s == [] then [""]
    else
      var rest := Lines(s[1..]);
      if s[0] == '\n' then [""] + rest else [[s[0]] + rest[0]] + rest[1..]
  }

  lemma {:induction false} LinesNoBreak(a: string)
    requires '\n' !in a
    ensures Lines(a) == [a]
    decreases |a|
  {
    if a != [] {
      LinesNoBreak(a[1..]);
      assert [a[0]] + a[1..] == a;
    }
  }

  lemma {:induction false} LinesBreak(a: string, b: string)
    requires '\n' !in a
    ensures Lines(a + "\n" + b) == [a] + Lines(b)
    decreases |a|
  {
    if a == [] {
      assert a + "\n" + b == "\n" + b;
      assert ("\n" + b)[1..] == b;
    } else {
      assert (a + "\n" + b)[0] == a[0];
      assert (a + "\n" + b)[1..] == a[1..] + "\n" + b;
      LinesBreak(a[1..], b);
      assert [a[0]] + a[1..] == a;
    }
  }

  function Indented(paths: seq<Path>): (r: seq<string>)
    ensures |r| == |paths|
  {
    seq(|paths|, i requires 0 <= i < |paths| => Indent + paths[i])
  }

  /** Splitting the paths line at its newlines gives back the bucket's paths,
      each with its four-space indent, provided no path holds a newline. */
  lemma {:induction false} PathsLineSplits(paths: seq<Path>)
    requires paths != []
    requires forall p :: p in paths ==> '\n' !in p
    ensures Lines(PathsLine(paths)) == Indented(paths)
    decreases |paths|
  {
    var first := Indent + paths[0];
    assert paths[0] in paths;
    assert '\n' !in first by {
      forall i | 0 <= i < |first| ensures first[i] != '\n' {
        if i >= |Indent| {
          assert first[i] == paths[0][i - |Indent|];
        } else {
          assert first[i] == Indent[i];
        }
      }
    }
    if |paths| == 1 {
      LinesNoBreak(first);
    } else {
      var rest := paths[1..];
      assert PathsLine(paths) == first + "\n" + PathsLine(rest);
      LinesBreak(first, PathsLine(rest));
      PathsLineSplits(rest);
      assert Indented(paths) == [first] + Indented(rest);
    }
  }

  // ---------------------------------------------------------------------
  // Report and trimming

  lemma {:induction false} GroupsOfWithout(d: DupeMap, o: seq<Digest>)
    ensures Groups(ItemsOf(Trimmed(d), FilterOut(o, Singletons(d)))) == Groups(ItemsOf(d, o))
    decreases |o|
  {
    if o != [] {
      var h, rest := o[0], o[1..];
      GroupsOfWithout(d, rest);
      if h !in Singletons(d) {
        var t := Trimmed(d);
        assert Bucket(t, h) == Bucket(d, h);
        var r := FilterOut(rest, Singletons(d));
        assert FilterOut(o, Singletons(d)) == [h] + r;
        assert ([h] + r)[0] == h && ([h] + r)[1..] == r;
      }
    }
  }

  /** Trimming the map does not change the report: the buckets it removes
      are exactly those the report skips. */
  lemma ReportIgnoresTrim(d: DupeMap)
    ensures ReportLines(Items(Trimmed(d))) == ReportLines(Items(d))
  {
    GroupsOfWithout(d, d.order);
    GroupLinesOfGroups(Items(Trimmed(d)));
    GroupLinesOfGroups(Items(d));
  }
}
