/**
 * The source directory tree the anonymiser reads, the two listings it takes of
 * a directory (the `dirs` that `os.walk` reports, and the entries whose names
 * end with the extension) and the order in which `os.walk` reports directories.
 */
module Tree {
  import opened Wrappers
  import opened Text

  /** A parsed DICOM dataset: element keyword to value. */
  type Record = map<string, string>

  /** An entry of the source tree. A file's content is the dataset the DICOM
      reader would return for it, or None when the reader rejects the file. */
  datatype Node =
    | File(name: string, content: Option<Record>)
    | Dir(name: string, children: seq<Node>)

  /** What listing a node gives: the children of a directory, nothing for a file. */
  function Entries(n: Node): seq<Node>
  {
    if n.Dir? then n.children else []
  }

  /** `a` is `b` with some elements left out, the rest in the same order. */
  predicate IsSubsequence<T(==)>(a: seq<T>, b: seq<T>)
    decreases |b|
  {
    if a == [] then true
    else if b == [] then false
    else if a[0] == b[0] then IsSubsequence(a[1..], b[1..])
    else IsSubsequence(a, b[1..])
  }

  /** The subdirectories among a directory's entries, in listing order: the
      `dirs` that `os.walk` reports for it. */
  function Subdirs(cs: seq<Node>): (ds: seq<Node>)
    ensures forall x :: multiset(ds)[x] == if x.Dir? then multiset(cs)[x] else 0
    ensures forall x :: x in ds <==> x in cs && x.Dir?
    ensures IsSubsequence(ds, cs)
  {
    if cs == [] then []
    else
      var rest := Subdirs(cs[1..]);
      assert cs == [cs[0]] + cs[1..];
      if cs[0].Dir? then
        assert ([cs[0]] + rest)[1..] == rest;
        [cs[0]] + rest
      else
        rest
  }

  /** The entries whose names end with `ext`, in listing order: the list
      comprehension over `ls(join(root, d))` filtered by `f.endswith(ext)`. */
  function Matching(cs: seq<Node>, ext: string): (found: seq<Node>)
    ensures forall x :: multiset(found)[x] == if EndsWith(x.name, ext) then multiset(cs)[x] else 0
    ensures forall x :: x in found <==> x in cs && EndsWith(x.name, ext)
    ensures IsSubsequence(found, cs)
  {
    if cs == [] then []
    else
      var rest := Matching(cs[1..], ext);
      assert cs == [cs[0]] + cs[1..];
      if EndsWith(cs[0].name, ext) then
        assert ([cs[0]] + rest)[1..] == rest;
        [cs[0]] + rest
      else
        rest
  }

  /** The directories `os.walk(top)` reports as `dirs`, one after the other, in
      the order the anonymiser visits them: top-down, a directory's
      subdirectories first, then everything below each of them in turn.
      A file as `top` reports nothing, and `top` itself is never reported. */
  function WalkOrder(top: Node): (ds: seq<Node>)
    ensures forall d :: d in ds ==> d.Dir?
    decreases top
  {
    match top
    case File(_, _) => []
    case Dir(_, cs) => Subdirs(cs) + Below(cs)
  }

  /** Everything `os.walk` reports below the entries `cs`, one entry after the other. */
  function Below(cs: seq<Node>): (ds: seq<Node>)
    ensures forall d :: d in ds ==> d.Dir?
    decreases cs
  {
    if cs == [] then [] else WalkOrder(cs[0]) + Below(cs[1..])
  }

  /** `d` is a directory somewhere below `top`: a subdirectory of `top`, or
      below one of its entries. */
  ghost predicate DirBelow(d: Node, top: Node)
    decreases top
  {
    top.Dir? && exists c :: c in top.children && ((c == d && d.Dir?) || DirBelow(d, c))
  }

  /** `d` is below one of the entries `cs`. */
  ghost predicate DirBelowSome(d: Node, cs: seq<Node>)
  {
    exists c :: c in cs && DirBelow(d, c)
  }

  /** The walk reports exactly the directories below `top`. */
  lemma {:induction false} WalkOrderMembers(d: Node, top: Node)
    ensures d in WalkOrder(top) <==> DirBelow(d, top)
    decreases top, 1
  {
    if top.Dir? {
      BelowMembers(d, top.children);
      if DirBelow(d, top) {
        var c :| c in top.children && ((c == d && d.Dir?) || DirBelow(d, c));
        if !(c == d && d.Dir?) {
          assert DirBelowSome(d, top.children);
        }
      }
    }
  }

  /** Everything `os.walk` reports below the entries `cs` is exactly the
      directories below one of them. */
  lemma {:induction false} BelowMembers(d: Node, cs: seq<Node>)
    ensures d in Below(cs) <==> DirBelowSome(d, cs)
    decreases cs, 0
  {
    if cs != [] {
      WalkOrderMembers(d, cs[0]);
      BelowMembers(d, cs[1..]);
      if DirBelowSome(d, cs) {
        var c :| c in cs && DirBelow(d, c);
        if c != cs[0] {
          assert c in cs[1..];
        }
      }
      if DirBelowSome(d, cs[1..]) {
        var c :| c in cs[1..] && DirBelow(d, c);
        assert c in cs;
      }
    }
  }

  /** The walk reports exactly the directories below the folder it starts from. */
  lemma WalkOrderAll(top: Node)
    ensures forall d :: d in WalkOrder(top) <==> DirBelow(d, top)
  {
    forall d {
      WalkOrderMembers(d, top);
    }
  }

  /** Whatever is below `top` is smaller than it. */
  lemma {:induction false} DirBelowSmaller(d: Node, top: Node)
    requires DirBelow(d, top)
    ensures d < top
    decreases top
  {
    var c :| c in top.children && ((c == d && d.Dir?) || DirBelow(d, c));
    if c != d || !d.Dir? {
      DirBelowSmaller(d, c);
    }
  }

  /** The walk never reports the directory it starts from. */
  lemma WalkSkipsTop(top: Node)
    ensures top !in WalkOrder(top)
  {
    WalkOrderMembers(top, top);
    if DirBelow(top, top) {
      DirBelowSmaller(top, top);
    }
  }

  /** Files among the entries add nothing below them. */
  lemma {:induction false} BelowSubdirs(cs: seq<Node>)
    ensures Below(Subdirs(cs)) == Below(cs)
    decreases |cs|
  {
    if cs != [] {
      BelowSubdirs(cs[1..]);
      if cs[0].Dir? {
        assert ([cs[0]] + Subdirs(cs[1..]))[1..] == Subdirs(cs[1..]);
      }
    }
  }

  /** Listing the subdirectories of a listing of subdirectories changes nothing. */
  lemma {:induction false} SubdirsIdempotent(cs: seq<Node>)
    ensures Subdirs(Subdirs(cs)) == Subdirs(cs)
    decreases |cs|
  {
    if cs != [] {
      SubdirsIdempotent(cs[1..]);
      if cs[0].Dir? {
        assert ([cs[0]] + Subdirs(cs[1..]))[1..] == Subdirs(cs[1..]);
      }
    }
  }

  /** The walk does not depend on the top directory's name or on the files
      that sit directly in it: only its subdirectories matter. */
  lemma WalkIgnoresTopFiles(name: string, other: string, cs: seq<Node>)
    ensures WalkOrder(Dir(name, cs)) == WalkOrder(Dir(other, Subdirs(cs)))
  {
    SubdirsIdempotent(cs);
    BelowSubdirs(cs);
  }
}
