/** The directory tree that a scan walks.
    A real filesystem is replaced by a finite tree: a directory lists its
    children in the order the directory iterator yields them, and every other
    entry (regular file, link to a non-directory, device ...) is a leaf that carries the full path
    string, the path's suffix (its file extension, leading dot included, or
    the empty string) and the bytes it holds. */
module FileTree {

  newtype byte = x: int | 0 <= x < 256

  type Path = string
  type Content = seq<byte>

  datatype Entry =
    | Dir(path: Path, children: seq<Entry>)
    | File(path: Path, suffix: string, content: Content)

  /** A non-directory entry. */
  type FileEntry = e: Entry | e.File? witness File("", "", [])

  /** The non-directory entries below `es`, in the depth-first pre-order in
      which a recursive walk that descends into each directory as soon as it
      meets it discovers them. */
  function Files(es: seq<Entry>): (r: seq<FileEntry>)
    ensures forall i :: 0 <= i < |es| && es[i].File? ==> es[i] in r
    decreases es
  {
    if es == [] then []
    else
      (match es[0]
       case Dir(_, children) => Files(children)
       case File(_, _, _) => [es[0]])
      + Files(es[1..])
  }

  /** Discovery order distributes over concatenation of sibling lists: the
      files of `a + b` are those of `a` followed by those of `b`. */
  lemma {:induction false} FilesAppend(a: seq<Entry>, b: seq<Entry>)
    ensures Files(a + b) == Files(a) + Files(b)
    decreases a
  {
    if a == [] {
      assert a + b == b;
    } else {
      assert (a + b)[0] == a[0];
      assert (a + b)[1..] == a[1..] + b;
      FilesAppend(a[1..], b);
    }
  }

  /** A directory contributes exactly the files of its children, and a
      non-directory contributes itself; this is the step a walk over the
      children of a directory takes. */
  lemma FilesSnoc(es: seq<Entry>, e: Entry)
    ensures Files(es + [e]) == Files(es) + (if e.Dir? then Files(e.children) else [e])
  {
    FilesAppend(es, [e]);
    assert [e][1..] == [];
  }
}
