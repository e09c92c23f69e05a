/** File-system paths as the generator manipulates them through `camino`:
    an optional root plus a sequence of normal components ("a/b/c.wit" is
    `Path(false, ["a", "b", "c.wit"])`). Paths are compared component-wise,
    as `Path`'s equality does. */
module Paths {
  import opened Results
  import opened Text

  datatype Path = Path(absolute: bool, components: seq<string>)

  /** The empty relative path `""`. */
  const EmptyPath := Path(false, [])

  /** `Path::strip_prefix`: the rest of `p` after `base`, when `base`'s root
      and components lead `p`'s. The root counts as a leading component, so
      the empty base leads every path and gives it back whole, root included;
      any other base leaves a relative rest. */
  function StripPrefix(p: Path, base: Path): (r: Option<Path>)
    ensures r.Some? <==> base == EmptyPath || (p.absolute == base.absolute && base.components <= p.components)
    ensures r.Some? ==> base.components + r.value.components == p.components
    ensures r.Some? ==> (r.value.absolute <==> p.absolute && !base.absolute)
  {
    if base == EmptyPath then Some(p)
    else if p.absolute == base.absolute && base.components <= p.components then
      assert base.components + p.components[|base.components|..] == p.components;
      Some(Path(false, p.components[|base.components|..]))
    else None
  }

  /** `Path::parent`: the path without its last component; `""` and `"/"`
      have no parent, a single relative component has the empty parent. */
  function Parent(p: Path): (r: Option<Path>)
    ensures r.None? <==> |p.components| == 0
    ensures r.Some? ==>
              && r.value.absolute == p.absolute
              && r.value.components + [p.components[|p.components| - 1]] == p.components
  {
    if |p.components| == 0 then None
    else
      var n := |p.components| - 1;
      assert p.components[..n] + [p.components[n]] == p.components;
      Some(Path(p.absolute, p.components[..n]))
  }

  /** `path.strip_prefix(base).unwrap_or(path)`. */
  function RelativeTo(p: Path, base: Path): Path {
    match StripPrefix(p, base)
    case Some(rest) => rest
    case None => p
  }

  /** The `Display` form of a path. */
  function Render(p: Path): string {
    (if p.absolute then "/" else "") + Join(p.components, "/")
  }

  /** A file `f` in directory `dir` below the root sits, relative to the
      root, in `dir`; for a file directly in the root that is the empty path. */
  lemma DirectoryOfFile(root: Path, dir: seq<string>, f: string)
    ensures Parent(RelativeTo(Path(root.absolute, root.components + dir + [f]), root)) == Some(Path(false, dir))
    ensures dir == [] ==> Parent(RelativeTo(Path(root.absolute, root.components + [f]), root)) == Some(EmptyPath)
  {
    var p := Path(root.absolute, root.components + dir + [f]);
    assert root.components <= p.components;
    assert p.components[|root.components|..] == dir + [f];
    assert (dir + [f])[..|dir|] == dir;
    if dir == [] {
      assert root.components + dir + [f] == root.components + [f];
    }
  }
}
