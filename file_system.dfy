/** The slice of Node's `fs` module the renamer touches: `stat` (and
    `access`) as lookups, and `rename` with its POSIX semantics, over a
    filesystem that maps every existing path to what is stored there. */
module NodeFs {
  import opened Results
  import opened NodePath
  import opened IsoDate

  datatype Kind = RegularFile | Directory

  /** What `stat` reports about an existing path, and the bytes stored there. */
  datatype Node = Node(kind: Kind, mtime: Stamp, data: seq<bv8>)

  datatype FsError =
    | NoEntry(path: Path)      // ENOENT
    | IsDirectory(path: Path)  // EISDIR
    | NotDirectory(path: Path) // ENOTDIR

  /** The `code` of the error Node raises. */
  function Code(e: FsError): string
  {
    match e
    case NoEntry(_) => "ENOENT"
    case IsDirectory(_) => "EISDIR"
    case NotDirectory(_) => "ENOTDIR"
  }

  /** `error.message` for a failed `rename(src, dst)`: the code, its
      description and the call, as libuv words it. */
  function RenameMessage(e: FsError, src: Path, dst: Path): string
  {
    var description := match e
      case NoEntry(_) => "no such file or directory"
      case IsDirectory(_) => "illegal operation on a directory"
      case NotDirectory(_) => "not a directory";
    Code(e) + ": " + description + ", rename '" + src + "' -> '" + dst + "'"
  }

  /** `error.message` for a `stat(p)` on a missing path. */
  function StatMessage(p: Path): string
  {
    "ENOENT: no such file or directory, stat '" + p + "'"
  }

  type Tree = map<Path, Node>

  /** `fs.stat` / `statSync`: the node at `p`, or `None` when it throws. */
  function Stat(t: Tree, p: Path): Option<Node>
  {
    if p in t then Some(t[p]) else None
  }

  /** `fs.rename(src, dst)`: moves the node at `src` to `dst`, replacing a
      regular file already at `dst` (POSIX `rename` does not refuse to
      overwrite). Fails when `src` does not exist, and when a directory
      would replace or be replaced by something already at `dst`. */
  function RenameIn(t: Tree, src: Path, dst: Path): (r: Result<Tree, FsError>)
    ensures r.Ok? ==> src in t
    ensures src in t && dst !in t ==> r.Ok?
    ensures r.Ok? && src != dst ==>
      && r.value.Keys == t.Keys - {src} + {dst}
      && r.value[dst] == t[src]
      && forall p :: p in t && p != src && p != dst ==> r.value[p] == t[p]
    ensures r.Ok? && src == dst ==> r.value == t
  {
    if src !in t then Err(NoEntry(src))
    else if src == dst then Ok(t)
    else if dst in t && t[dst].kind == Directory then Err(IsDirectory(dst))
    else if dst in t && t[src].kind == Directory then Err(NotDirectory(dst))
    else Ok((t - {src})[dst := t[src]])
  }

  /** Renaming onto a free path loses nothing: the number of entries and
      every stored node survive. */
  lemma RenameToFreePathKeepsAll(t: Tree, src: Path, dst: Path)
    requires src in t && dst !in t
    ensures RenameIn(t, src, dst).Ok?
    ensures |RenameIn(t, src, dst).value.Keys| == |t.Keys|
    ensures t.Values <= RenameIn(t, src, dst).value.Values
  {
    var t' := RenameIn(t, src, dst).value;
    assert src != dst;
    assert t'.Keys == (t.Keys - {src}) + {dst};
    assert |t.Keys - {src}| == |t.Keys| - 1;
    forall v | v in t.Values
      ensures v in t'.Values
    {
      var p :| p in t && t[p] == v;
      if p == src {
        assert t'[dst] == v;
      } else {
        assert t'[p] == v;
      }
    }
  }

  /** Renaming a regular file onto another existing regular file succeeds and
      drops the file that was there: one entry fewer. */
  lemma RenameOverwrites(t: Tree, src: Path, dst: Path)
    requires src in t && dst in t && src != dst
    requires t[src].kind == RegularFile && t[dst].kind == RegularFile
    ensures RenameIn(t, src, dst).Ok?
    ensures |RenameIn(t, src, dst).value.Keys| == |t.Keys| - 1
    ensures RenameIn(t, src, dst).value[dst] == t[src]
  {
    var t' := RenameIn(t, src, dst).value;
    assert t'.Keys == t.Keys - {src};
  }

  /** The filesystem the program runs against; `rename` changes it in place. */
  class FileSystem {
    var tree: Tree

    constructor (t: Tree)
      ensures tree == t
    {
      tree := t;
    }

    /** `fs.access(p)` with the default mode: does `p` exist? */
    predicate Exists(p: Path)
      reads this
    {
      p in tree
    }

    /** `fs.rename(src, dst)`: `None` when it resolved, the error it rejected with otherwise. */
    method Rename(src: Path, dst: Path) returns (err: Option<FsError>)
      modifies this
      ensures err.None? <==> RenameIn(old(tree), src, dst).Ok?
      ensures err.None? ==> tree == RenameIn(old(tree), src, dst).value
      ensures err.Some? ==> tree == old(tree) && err.value == RenameIn(old(tree), src, dst).error
    {
      match RenameIn(tree, src, dst)
      case Ok(t') =>
        tree := t';
        err := None;
      case Err(e) =>
        err := Some(e);
    }
  }
}
