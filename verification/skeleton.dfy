/** Manifest generation (crates/wasm-rquickjs/src/skeleton.rs): the Cargo
    manifest of the wrapper crate gets the world's name as package name and a
    `[package.metadata.component.target.dependencies]` entry per WIT
    dependency directory; the app manifest gets its placeholder tokens filled. */
module Skeleton {
  import opened Results
  import opened Text
  import opened Paths
  import opened Wit
  import opened Toml
  import opened Generator
  import opened Collections

  /** The keys leading to the dependency table of the Cargo manifest. */
  const DependenciesPath: seq<string> := ["package", "metadata", "component", "target", "dependencies"]

  datatype ManifestError =
    | DependencyTableUnavailable  // "Failed to create the package.metadata.component.target.dependencies table"
    | MultipleSourceDirectories(package: PackageName, parents: set<Path>)  // "Package {:?} has multiple source directories: {:?}"
    | NoSourceDirectories(package: PackageName)  // "Package {:?} has no source directories"

  /** The parent directories of a package's source files, relative to the WIT
      root when they lie under it, in file order; files without a parent are
      skipped. */
  function ParentList(paths: seq<Path>, witRoot: Path): seq<Path>
  {
    if |paths| == 0 then []
    else
      var rest := ParentList(paths[1..], witRoot);
      match Parent(RelativeTo(paths[0], witRoot))
      case Some(q) => [q] + rest
      case None => rest
  }

  /** A directory is collected exactly when it is the parent of some file's
      path, taken relative to the WIT root when it lies under it. */
  lemma {:induction false} ParentListMembers(paths: seq<Path>, witRoot: Path, q: Path)
    ensures q in ParentList(paths, witRoot) <==>
              exists i :: 0 <= i < |paths| && Parent(RelativeTo(paths[i], witRoot)) == Some(q)
    decreases |paths|
  {
    if |paths| > 0 {
      ParentListMembers(paths[1..], witRoot, q);
      assert forall i :: 0 < i < |paths| ==> paths[i] == paths[1..][i - 1];
      if exists i :: 0 <= i < |paths[1..]| && Parent(RelativeTo(paths[1..][i], witRoot)) == Some(q) {
        var i :| 0 <= i < |paths[1..]| && Parent(RelativeTo(paths[1..][i], witRoot)) == Some(q);
        assert Parent(RelativeTo(paths[i + 1], witRoot)) == Some(q);
      }
    }
  }

  /** The set of source directories `add_wit_dependencies` collects for a package. */
  function SourceParents(paths: seq<Path>, witRoot: Path): set<Path> {
    Elements(ParentList(paths, witRoot))
  }

  /** The single source directory of a package, or the error the source
      raises when there are several or none. */
  function PackageDirectory(name: PackageName, paths: seq<Path>, witRoot: Path): (r: Result<Path, ManifestError>)
    ensures r.Success? <==> |SourceParents(paths, witRoot)| == 1
    ensures r.Success? ==> SourceParents(paths, witRoot) == {r.value}
    ensures r.Failure? ==>
              if |SourceParents(paths, witRoot)| > 1
              then r.error == MultipleSourceDirectories(name, SourceParents(paths, witRoot))
              else r.error == NoSourceDirectories(name)
    ensures r.Failure? ==> !r.error.DependencyTableUnavailable? && r.error.package == name
  {
    var ps := ParentList(paths, witRoot);
    ElementsCount(ps);
    if |ps| == 0 then Failure(NoSourceDirectories(name))
    else if exists j :: 0 <= j < |ps| && ps[j] != ps[0] then Failure(MultipleSourceDirectories(name, Elements(ps)))
    else Success(ps[0])
  }

  /** A package whose files all lie in one directory below the WIT root
      gets that directory, relative to the root. */
  lemma {:induction false} OneDirectoryPackage(
    name: PackageName, witRoot: Path, dir: seq<string>, files: seq<string>)
    requires |files| > 0
    ensures var paths := seq(|files|, i requires 0 <= i < |files| =>
                              Path(witRoot.absolute, witRoot.components + dir + [files[i]]));
            PackageDirectory(name, paths, witRoot) == Success(Path(false, dir))
  {
    var paths := seq(|files|, i requires 0 <= i < |files| =>
                       Path(witRoot.absolute, witRoot.components + dir + [files[i]]));
    forall i | 0 <= i < |paths|
      ensures Parent(RelativeTo(paths[i], witRoot)) == Some(Path(false, dir))
    {
      DirectoryOfFile(witRoot, dir, files[i]);
    }
    ParentListUniform(paths, witRoot, Path(false, dir));
    ElementsCount(ParentList(paths, witRoot));
  }

  /** A package with files in two different directories below the WIT root is rejected. */
  lemma TwoDirectoryPackage(
    name: PackageName, witRoot: Path, dir1: seq<string>, f1: string, dir2: seq<string>, f2: string)
    requires dir1 != dir2
    ensures var paths := [Path(witRoot.absolute, witRoot.components + dir1 + [f1]),
                          Path(witRoot.absolute, witRoot.components + dir2 + [f2])];
            PackageDirectory(name, paths, witRoot).Failure?
            && PackageDirectory(name, paths, witRoot).error ==
                 MultipleSourceDirectories(name, {Path(false, dir1), Path(false, dir2)})
  {
    var paths := [Path(witRoot.absolute, witRoot.components + dir1 + [f1]),
                  Path(witRoot.absolute, witRoot.components + dir2 + [f2])];
    var q1, q2 := Path(false, dir1), Path(false, dir2);
    TwoParents(witRoot, dir1, f1, dir2, f2);
    assert |{q1, q2}| == 2;
  }

  lemma TwoParents(witRoot: Path, dir1: seq<string>, f1: string, dir2: seq<string>, f2: string)
    ensures SourceParents([Path(witRoot.absolute, witRoot.components + dir1 + [f1]),
                           Path(witRoot.absolute, witRoot.components + dir2 + [f2])], witRoot)
            == {Path(false, dir1), Path(false, dir2)}
  {
    DirectoryOfFile(witRoot, dir1, f1);
    DirectoryOfFile(witRoot, dir2, f2);
    var q1, q2 := Path(false, dir1), Path(false, dir2);
    ParentListPair([Path(witRoot.absolute, witRoot.components + dir1 + [f1]),
                    Path(witRoot.absolute, witRoot.components + dir2 + [f2])], witRoot, q1, q2);
    assert Elements([q1, q2]) == {q1, q2};
  }

  lemma ParentListPair(paths: seq<Path>, witRoot: Path, q1: Path, q2: Path)
    requires |paths| == 2
    requires Parent(RelativeTo(paths[0], witRoot)) == Some(q1)
    requires Parent(RelativeTo(paths[1], witRoot)) == Some(q2)
    ensures ParentList(paths, witRoot) == [q1, q2]
  {
    assert paths[1..] == [paths[1]];
    assert paths[1..][1..] == [];
    assert ParentList(paths[1..], witRoot) == [q2] + ParentList([], witRoot);
  }

  lemma {:induction false} ParentListUniform(paths: seq<Path>, witRoot: Path, q: Path)
    requires forall i :: 0 <= i < |paths| ==> Parent(RelativeTo(paths[i], witRoot)) == Some(q)
    ensures ParentList(paths, witRoot) == seq(|paths|, i => q)
    decreases |paths|
  {
    if |paths| > 0 {
      assert forall i :: 0 <= i < |paths[1..]| ==> paths[1..][i] == paths[i + 1];
      ParentListUniform(paths[1..], witRoot, q);
    }
  }

  /** The key of a dependency entry: the package name without its version. */
  function DependencyKey(name: PackageName): string {
    name.WithoutVersion().ToString()
  }

  /** The entry value: a table whose `path` points at the directory under `wit/`. */
  function DependencyItem(dir: Path): Item {
    Table(map["path" := Str("wit/" + Render(dir))])
  }

  /** Package `j` appears in the source map and all its files sit in one directory. */
  predicate HasSingleDirectory(packages: seq<Package>, sourceMap: map<PackageId, seq<Path>>, witRoot: Path, j: nat)
    requires j < |packages|
  {
    PackageId(j) in sourceMap && PackageDirectory(packages[j].name, sourceMap[PackageId(j)], witRoot).Success?
  }

  /** Package `j` gets a dependency entry: one source directory, and not the WIT root itself. */
  predicate Contributes(packages: seq<Package>, sourceMap: map<PackageId, seq<Path>>, witRoot: Path, j: nat)
    requires j < |packages|
  {
    HasSingleDirectory(packages, sourceMap, witRoot, j)
    && PackageDirectory(packages[j].name, sourceMap[PackageId(j)], witRoot).value != EmptyPath
  }

  /** The table after package `k`, when `k` has a single directory or none is recorded. */
  function Step(
    packages: seq<Package>, sourceMap: map<PackageId, seq<Path>>, witRoot: Path,
    k: nat, deps: Entries): Entries
    requires k < |packages|
  {
    if Contributes(packages, sourceMap, witRoot, k)
    then deps[DependencyKey(packages[k].name) :=
                DependencyItem(PackageDirectory(packages[k].name, sourceMap[PackageId(k)], witRoot).value)]
    else deps
  }

  /** The loop of `add_wit_dependencies` from package `k` on, over packages
      in id order, inserting into the dependency table `deps`. A package
      missing from the source map is skipped; one whose directory is the WIT
      root adds nothing; the first package with several or no directories
      aborts the loop. */
  function CollectDependencies(
    packages: seq<Package>, sourceMap: map<PackageId, seq<Path>>, witRoot: Path,
    k: nat, deps: Entries): Result<Entries, ManifestError>
    requires k <= |packages|
    decreases |packages| - k
  {
    if k == |packages| then Success(deps)
    else if PackageId(k) !in sourceMap then CollectDependencies(packages, sourceMap, witRoot, k + 1, deps)
    else
      match PackageDirectory(packages[k].name, sourceMap[PackageId(k)], witRoot)
      case Failure(e) => Failure(e)
      case Success(_) => CollectDependencies(packages, sourceMap, witRoot, k + 1, Step(packages, sourceMap, witRoot, k, deps))
  }

  /** The loop succeeds exactly when every package of the source map from
      `k` on has a single source directory. */
  lemma {:induction false} CollectSucceeds(
    packages: seq<Package>, sourceMap: map<PackageId, seq<Path>>, witRoot: Path,
    k: nat, deps: Entries)
    requires k <= |packages|
    ensures CollectDependencies(packages, sourceMap, witRoot, k, deps).Success? <==>
              forall j :: k <= j < |packages| && PackageId(j) in sourceMap ==>
                HasSingleDirectory(packages, sourceMap, witRoot, j)
    decreases |packages| - k
  {
    if k < |packages| {
      var next := Step(packages, sourceMap, witRoot, k, deps);
      CollectSucceeds(packages, sourceMap, witRoot, k + 1, next);
    }
  }

  /** The error is the one of the first package, in id order, whose files
      are not in exactly one directory: it names that package. */
  lemma {:induction false} CollectFailsAtFirst(
    packages: seq<Package>, sourceMap: map<PackageId, seq<Path>>, witRoot: Path,
    k: nat, deps: Entries, j: nat)
    requires k <= j < |packages|
    requires forall i :: k <= i < j && PackageId(i) in sourceMap ==>
               HasSingleDirectory(packages, sourceMap, witRoot, i)
    requires PackageId(j) in sourceMap && !HasSingleDirectory(packages, sourceMap, witRoot, j)
    ensures CollectDependencies(packages, sourceMap, witRoot, k, deps) ==
              Failure(PackageDirectory(packages[j].name, sourceMap[PackageId(j)], witRoot).error)
    ensures CollectDependencies(packages, sourceMap, witRoot, k, deps).error.package == packages[j].name
    decreases j - k
  {
    if k < j {
      CollectFailsAtFirst(packages, sourceMap, witRoot, k + 1, Step(packages, sourceMap, witRoot, k, deps), j);
    }
  }

  /** The keys of the entries the packages from `k` on contribute. */
  function ContributedKeys(
    packages: seq<Package>, sourceMap: map<PackageId, seq<Path>>, witRoot: Path, k: nat): set<string>
    requires k <= |packages|
  {
    set j | k <= j < |packages| && Contributes(packages, sourceMap, witRoot, j) :: DependencyKey(packages[j].name)
  }

  /** On success the table holds its old keys plus the version-less name of
      every package outside the WIT root, and nothing more: root-level
      packages add no entry. */
  lemma {:induction false} CollectKeys(
    packages: seq<Package>, sourceMap: map<PackageId, seq<Path>>, witRoot: Path,
    k: nat, deps: Entries)
    requires k <= |packages|
    requires CollectDependencies(packages, sourceMap, witRoot, k, deps).Success?
    ensures CollectDependencies(packages, sourceMap, witRoot, k, deps).value.Keys ==
              deps.Keys + ContributedKeys(packages, sourceMap, witRoot, k)
    decreases |packages| - k
  {
    if k < |packages| {
      var next := Step(packages, sourceMap, witRoot, k, deps);
      CollectKeys(packages, sourceMap, witRoot, k + 1, next);
      var here := ContributedKeys(packages, sourceMap, witRoot, k);
      var later := ContributedKeys(packages, sourceMap, witRoot, k + 1);
      if Contributes(packages, sourceMap, witRoot, k) {
        assert here == {DependencyKey(packages[k].name)} + later;
      } else {
        assert here == later;
      }
    }
  }

  /** The entry of a contributing package points at its directory under
      `wit/`, unless a later package with the same version-less name
      overwrote it. */
  lemma {:induction false} CollectEntry(
    packages: seq<Package>, sourceMap: map<PackageId, seq<Path>>, witRoot: Path,
    k: nat, deps: Entries, j: nat)
    requires k <= j < |packages|
    requires CollectDependencies(packages, sourceMap, witRoot, k, deps).Success?
    requires Contributes(packages, sourceMap, witRoot, j)
    requires forall i :: j < i < |packages| && Contributes(packages, sourceMap, witRoot, i) ==>
               DependencyKey(packages[i].name) != DependencyKey(packages[j].name)
    ensures var r := CollectDependencies(packages, sourceMap, witRoot, k, deps).value;
            var key := DependencyKey(packages[j].name);
            key in r && r[key] == DependencyItem(PackageDirectory(packages[j].name, sourceMap[PackageId(j)], witRoot).value)
    decreases |packages| - k
  {
    var next := Step(packages, sourceMap, witRoot, k, deps);
    if k < j {
      CollectEntry(packages, sourceMap, witRoot, k + 1, next, j);
    } else {
      CollectKeeps(packages, sourceMap, witRoot, k + 1, next, DependencyKey(packages[j].name));
    }
  }

  /** An entry whose key no package from `k` on contributes survives the loop. */
  lemma {:induction false} CollectKeeps(
    packages: seq<Package>, sourceMap: map<PackageId, seq<Path>>, witRoot: Path,
    k: nat, deps: Entries, key: string)
    requires k <= |packages|
    requires CollectDependencies(packages, sourceMap, witRoot, k, deps).Success?
    requires key in deps
    requires forall i :: k <= i < |packages| && Contributes(packages, sourceMap, witRoot, i) ==>
               DependencyKey(packages[i].name) != key
    ensures var r := CollectDependencies(packages, sourceMap, witRoot, k, deps).value;
            key in r && r[key] == deps[key]
    decreases |packages| - k
  {
    if k < |packages| {
      var next := Step(packages, sourceMap, witRoot, k, deps);
      CollectKeeps(packages, sourceMap, witRoot, k + 1, next, key);
    }
  }

  /** The number of packages from `k` on that contribute an entry. */
  function ContributorCount(
    packages: seq<Package>, sourceMap: map<PackageId, seq<Path>>, witRoot: Path, k: nat): nat
    requires k <= |packages|
    decreases |packages| - k
  {
    if k == |packages| then 0
    else (if Contributes(packages, sourceMap, witRoot, k) then 1 else 0)
         + ContributorCount(packages, sourceMap, witRoot, k + 1)
  }

  /** With one directory per dependency (distinct version-less names) the
      table gains exactly one entry per dependency directory. */
  lemma {:induction false} CollectCount(
    packages: seq<Package>, sourceMap: map<PackageId, seq<Path>>, witRoot: Path,
    k: nat, deps: Entries)
    requires k <= |packages|
    requires CollectDependencies(packages, sourceMap, witRoot, k, deps).Success?
    requires forall i :: k <= i < |packages| && Contributes(packages, sourceMap, witRoot, i) ==>
               DependencyKey(packages[i].name) !in deps
    requires forall i, j ::
               k <= i < j < |packages|
               && Contributes(packages, sourceMap, witRoot, i)
               && Contributes(packages, sourceMap, witRoot, j)
               ==> DependencyKey(packages[i].name) != DependencyKey(packages[j].name)
    ensures |CollectDependencies(packages, sourceMap, witRoot, k, deps).value| ==
              |deps| + ContributorCount(packages, sourceMap, witRoot, k)
    decreases |packages| - k
  {
    if k < |packages| {
      var next := Step(packages, sourceMap, witRoot, k, deps);
      if Contributes(packages, sourceMap, witRoot, k) {
        assert |next| == |deps| + 1;
      }
      CollectCount(packages, sourceMap, witRoot, k + 1, next);
    }
  }

  /** `add_wit_dependencies`: walk (creating as needed) to the dependency
      table, then run the package loop on it. */
  function AddWitDependencies(doc: Entries, ctx: Context): (r: Result<Entries, ManifestError>)
    ensures TableAt(doc, DependenciesPath).None? ==> r == Failure(DependencyTableUnavailable)
    ensures r.Success? ==>
              && TableAt(doc, DependenciesPath).Some?
              && var collected := CollectDependencies(ctx.resolve.packages, ctx.sourceMap, ctx.witSourcePath, 0, TableAt(doc, DependenciesPath).value);
                 && collected.Success?
                 && TableAt(r.value, DependenciesPath) == Some(collected.value)
    ensures TableAt(doc, DependenciesPath).Some? ==>
              var collected := CollectDependencies(ctx.resolve.packages, ctx.sourceMap, ctx.witSourcePath, 0, TableAt(doc, DependenciesPath).value);
              collected.Failure? ==> r == Failure(collected.error)
    ensures r.Success? ==> AgreeOffPath(r.value, doc, DependenciesPath)
  {
    match TableAt(doc, DependenciesPath)
    case None => Failure(DependencyTableUnavailable)
    case Some(deps) =>
      var collected :- CollectDependencies(ctx.resolve.packages, ctx.sourceMap, ctx.witSourcePath, 0, deps);
      TableAtPut(doc, DependenciesPath, collected);
      PutTableAtAgrees(doc, DependenciesPath, collected);
      Success(PutTableAt(doc, DependenciesPath, collected))
  }

  /** `change_package_name`: `package.name` becomes the world's name; every
      other key of the document and of `[package]` stays as it was. */
  function ChangePackageName(doc: Entries, worldName: string): (r: Entries)
    requires "package" in doc && doc["package"].Table?
    ensures r.Keys == doc.Keys
    ensures forall k :: k in doc && k != "package" ==> r[k] == doc[k]
    ensures r["package"].Table?
    ensures "name" in r["package"].entries && r["package"].entries["name"] == Str(worldName)
    ensures r["package"].entries.Keys == doc["package"].entries.Keys + {"name"}
    ensures forall k :: k in doc["package"].entries && k != "name" ==>
              r["package"].entries[k] == doc["package"].entries[k]
  {
    var package := doc["package"].entries;
    doc["package" := Table(package["name" := Str(worldName)])]
  }

  /** The edits `generate_cargo_toml` applies to the skeleton manifest. */
  function CargoToml(skeleton: Entries, ctx: Context): Result<Entries, ManifestError>
    requires "package" in skeleton && skeleton["package"].Table?
  {
    AddWitDependencies(ChangePackageName(skeleton, ctx.worldName), ctx)
  }

  /** The generated manifest keeps the world's name as package name, and its
      dependency table is the skeleton's one extended by the package loop;
      generation fails exactly when some package of the source map spans
      several directories or none, or when the table cannot be reached. */
  lemma CargoTomlContents(skeleton: Entries, ctx: Context)
    requires "package" in skeleton && skeleton["package"].Table?
    ensures var r := CargoToml(skeleton, ctx);
            var packages := ctx.resolve.packages;
            r.Success? <==>
              && TableAt(skeleton, DependenciesPath).Some?
              && forall j :: 0 <= j < |packages| && PackageId(j) in ctx.sourceMap ==>
                   HasSingleDirectory(packages, ctx.sourceMap, ctx.witSourcePath, j)
    ensures var r := CargoToml(skeleton, ctx);
            r.Success? ==>
              && r.value["package"].Table?
              && "name" in r.value["package"].entries
              && r.value["package"].entries["name"] == Str(ctx.worldName)
              && TableAt(r.value, DependenciesPath) ==
                   Some(CollectDependencies(ctx.resolve.packages, ctx.sourceMap, ctx.witSourcePath, 0,
                                            TableAt(skeleton, DependenciesPath).value).value)
  {
    var renamed := ChangePackageName(skeleton, ctx.worldName);
    assert TableAt(renamed, DependenciesPath) == TableAt(skeleton, DependenciesPath);
    if TableAt(renamed, DependenciesPath).Some? {
      var deps := TableAt(renamed, DependenciesPath).value;
      CollectSucceeds(ctx.resolve.packages, ctx.sourceMap, ctx.witSourcePath, 0, deps);
      var collected := CollectDependencies(ctx.resolve.packages, ctx.sourceMap, ctx.witSourcePath, 0, deps);
      if collected.Success? {
        assert ["package", "name"][1..] == ["name"];
        assert Lookup(renamed, ["package", "name"]) == Some(Str(ctx.worldName));
        NameSurvivesDependencies(renamed, ctx, ctx.worldName);
      }
    }
  }

  /** The dependency edit leaves `package.name` alone. */
  lemma NameSurvivesDependencies(doc: Entries, ctx: Context, w: string)
    requires Lookup(doc, ["package", "name"]) == Some(Str(w))
    requires AddWitDependencies(doc, ctx).Success?
    ensures var v := AddWitDependencies(doc, ctx).value;
            && "package" in v && v["package"].Table?
            && "name" in v["package"].entries
            && v["package"].entries["name"] == Str(w)
  {
  }

  const ComponentNameToken := "component_name"
  const RootPackageToken := "root:package"

  /** The app manifest text: every `component_name` of the template becomes
      the snake-cased world name, then every `root:package` becomes the root
      package's name. `snake` is heck's snake casing. */
  function AppManifest(ctx: Context, template: string, snake: string -> string): string
    requires ctx.Valid()
  {
    Replace(Replace(template, ComponentNameToken, snake(ctx.worldName)), RootPackageToken, RootPackageName(ctx))
  }

  /** A template without the world-name token only has its root-package
      tokens filled; one with neither token comes out unchanged. */
  lemma AppManifestTokens(ctx: Context, template: string, snake: string -> string)
    requires ctx.Valid()
    ensures !Contains(template, ComponentNameToken) ==>
              AppManifest(ctx, template, snake) == Replace(template, RootPackageToken, RootPackageName(ctx))
    ensures !Contains(template, ComponentNameToken) && !Contains(template, RootPackageToken) ==>
              AppManifest(ctx, template, snake) == template
  {
    if !Contains(template, ComponentNameToken) {
      ReplaceAbsent(template, ComponentNameToken, snake(ctx.worldName));
      if !Contains(template, RootPackageToken) {
        ReplaceAbsent(template, RootPackageToken, RootPackageName(ctx));
      }
    }
  }

  /** Neither token can overlap a copy of itself. */
  lemma TokensUnbordered()
    ensures Unbordered(ComponentNameToken) && Unbordered(RootPackageToken)
  {
    UniqueHeadUnbordered(ComponentNameToken);
    UniqueHeadUnbordered(RootPackageToken);
  }

  /** A template with one `component_name`, and no `root:package` even once
      the name is filled in, gets the snake-cased world name in its place. */
  lemma AppManifestWorldName(ctx: Context, snake: string -> string, pre: string, post: string)
    requires ctx.Valid()
    requires !Contains(pre, ComponentNameToken) && !Contains(post, ComponentNameToken)
    requires !Contains(pre + snake(ctx.worldName) + post, RootPackageToken)
    ensures AppManifest(ctx, pre + ComponentNameToken + post, snake) == pre + snake(ctx.worldName) + post
  {
    TokensUnbordered();
    ReplaceLeftmost(pre, ComponentNameToken, post, snake(ctx.worldName));
    ReplaceAbsent(post, ComponentNameToken, snake(ctx.worldName));
    ReplaceAbsent(pre + snake(ctx.worldName) + post, RootPackageToken, RootPackageName(ctx));
  }

  /** In a template without `component_name`, the first `root:package`
      becomes the root package's name and the rest of the text is filled on. */
  lemma AppManifestRootPackage(ctx: Context, snake: string -> string, pre: string, post: string)
    requires ctx.Valid()
    requires !Contains(pre + RootPackageToken + post, ComponentNameToken)
    requires !Contains(pre, RootPackageToken)
    ensures AppManifest(ctx, pre + RootPackageToken + post, snake) ==
              pre + RootPackageName(ctx) + Replace(post, RootPackageToken, RootPackageName(ctx))
  {
    TokensUnbordered();
    ReplaceAbsent(pre + RootPackageToken + post, ComponentNameToken, snake(ctx.worldName));
    ReplaceLeftmost(pre, RootPackageToken, post, RootPackageName(ctx));
  }

  /** The root package's name in the app manifest keeps the version the
      dependency keys drop. */
  lemma RootPackageNameVersion(ctx: Context)
    requires ctx.Valid()
    ensures var p := ctx.resolve.packages[ctx.rootPackage.index].name;
            && (p.version.Some? ==> RootPackageName(ctx) == DependencyKey(p) + "@" + p.version.value)
            && (p.version.None? ==> RootPackageName(ctx) == DependencyKey(p))
  {
  }
}
