/** The part of `java.nio.file.Path` the generators use: a path is absolute
    or relative and holds a sequence of name segments. */
module Paths {
  import opened JavaText

  datatype Path = Path(absolute: bool, segs: seq<String>)

  /** `resolve` of a name, taken as one segment. */
  function Resolve(p: Path, name: String): Path {
    Path(p.absolute, p.segs + [name])
  }

  /** `getParent`: no parent for the root, for the empty path and for a
      one-segment relative path; the root for a one-segment absolute path. */
  function Parent(p: Path): (r: Option<Path>)
    ensures r.Some? <==> |p.segs| > 1 || (|p.segs| == 1 && p.absolute)
    ensures r.Some? ==> r.value.absolute == p.absolute && r.value.segs == p.segs[..|p.segs| - 1]
  {
    if |p.segs| == 0 || (|p.segs| == 1 && !p.absolute) then None
    else Some(Path(p.absolute, p.segs[..|p.segs| - 1]))
  }

  /** `getFileName`: `null` for the root, the last segment otherwise (the
      empty path is its own file name). */
  function FileName(p: Path): (r: Option<String>)
    ensures r.None? <==> p.absolute && p.segs == []
    ensures |p.segs| > 0 ==> r == Some(p.segs[|p.segs| - 1])
  {
    if |p.segs| > 0 then Some(p.segs[|p.segs| - 1])
    else if p.absolute then None
    else Some([])
  }

  /** Resolving a name below a directory and asking for the parent and the
      file name gives the directory and the name back. */
  lemma ResolveParent(p: Path, name: String)
    requires p.absolute || |p.segs| > 0
    ensures Parent(Resolve(p, name)) == Some(p)
    ensures FileName(Resolve(p, name)) == Some(name)
  {
    assert (p.segs + [name])[..|p.segs|] == p.segs;
  }
}
