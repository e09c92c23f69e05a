/** The generator context (`GeneratorContext` in crates/wasm-rquickjs/src/lib.rs):
    the resolved WIT graph, the selected world, the WIT source map and the
    growing set of types whose conversions have been emitted; plus the
    read-only view of an imported interface (`ImportedInterface`). */
module Generator {
  import opened Results
  import opened Paths
  import opened Wit
  import opened Collections

  /** The generator's own (non-I/O) failures. */
  datatype GenError =
    | NoInterfaceName         // "Interface import does not have a name"
    | AnonymousInterface      // "Anonymous interface imports are not supported yet"
    | PackageNotFound(iface: string)  // "Could not find package of imported interface {name}"
    | UnknownType(id: TypeId) // "Unknown type id: {type_id:?}"
    | NoPackageName           // "imported interface has no package name"

  datatype Context = Context(
    resolve: Resolve,
    rootPackage: PackageId,
    world: WorldId,
    worldName: string,
    witSourcePath: Path,
    sourceMap: map<PackageId, seq<Path>>,
    visited: set<TypeId>)
  {
    /** What resolving the package and selecting the world guarantee. */
    predicate Valid() {
      && world in resolve.worlds
      && rootPackage.index < |resolve.packages|
      && worldName == resolve.worlds[world].name
    }
  }

  /** `GeneratorContext::new` once `push_path` and `select_world` have chosen
      the root package and the world: the world's name is cached and no type
      has been visited yet. */
  function NewContext(
    resolve: Resolve, rootPackage: PackageId, world: WorldId,
    wit: Path, sourceMap: map<PackageId, seq<Path>>): (ctx: Context)
    requires world in resolve.worlds && rootPackage.index < |resolve.packages|
    ensures ctx.Valid()
    ensures ctx.visited == {}
    ensures ctx.worldName == resolve.worlds[world].name
    ensures && ctx.resolve == resolve && ctx.rootPackage == rootPackage && ctx.world == world
            && ctx.witSourcePath == wit && ctx.sourceMap == sourceMap
  {
    Context(resolve, rootPackage, world, resolve.worlds[world].name, wit, sourceMap, {})
  }

  /** `root_package_name`: the display form of the root package's name,
      which keeps its version, unlike the version-less form. */
  function RootPackageName(ctx: Context): (r: string)
    requires ctx.Valid()
    ensures var p := ctx.resolve.packages[ctx.rootPackage.index].name;
            r == p.WithoutVersion().ToString() + (if p.version.Some? then "@" + p.version.value else "")
  {
    ctx.resolve.packages[ctx.rootPackage.index].name.ToString()
  }

  /** `record_visited_type`: the visited set gains `t`; nothing else changes. */
  function RecordVisitedType(ctx: Context, t: TypeId): (c: Context)
    ensures t in c.visited
    ensures ctx.visited <= c.visited && c.visited - ctx.visited <= {t}
    ensures c.(visited := ctx.visited) == ctx
  {
    ctx.(visited := ctx.visited + {t})
  }

  /** Recording an already visited type changes nothing, so recording is idempotent. */
  lemma RecordVisitedIdempotent(ctx: Context, t: TypeId)
    ensures t in ctx.visited ==> RecordVisitedType(ctx, t) == ctx
    ensures RecordVisitedType(RecordVisitedType(ctx, t), t) == RecordVisitedType(ctx, t)
  {
  }

  /** Records the types of a sequence of signatures, one after the other. */
  function RecordAll(ctx: Context, ts: seq<TypeId>): Context
    decreases |ts|
  {
    if |ts| == 0 then ctx else RecordAll(RecordVisitedType(ctx, ts[0]), ts[1..])
  }

  /** After a run of recordings the visited set is the old one plus exactly
      the recorded ids, however often and in whatever order they came. */
  lemma {:induction false} RecordAllVisited(ctx: Context, ts: seq<TypeId>)
    ensures RecordAll(ctx, ts).visited == ctx.visited + Elements(ts)
    ensures RecordAll(ctx, ts).(visited := ctx.visited) == ctx
    decreases |ts|
  {
    if |ts| > 0 {
      RecordAllVisited(RecordVisitedType(ctx, ts[0]), ts[1..]);
      ElementsCons(ts);
    }
  }

  /** Two runs recording the same ids, in any order or multiplicity, end in
      the same context. */
  lemma RecordAllOrderIrrelevant(ctx: Context, ts: seq<TypeId>, us: seq<TypeId>)
    requires Elements(ts) == Elements(us)
    ensures RecordAll(ctx, ts) == RecordAll(ctx, us)
  {
    RecordAllVisited(ctx, ts);
    RecordAllVisited(ctx, us);
  }

  /** When only known type ids are recorded, the visited set never outgrows
      the number of types in the resolved graph. */
  lemma VisitedBounded(ctx: Context, ts: seq<TypeId>)
    requires ctx.visited <= ctx.resolve.types.Keys
    requires forall i :: 0 <= i < |ts| ==> ts[i] in ctx.resolve.types
    ensures RecordAll(ctx, ts).visited <= ctx.resolve.types.Keys
    ensures |RecordAll(ctx, ts).visited| <= |ctx.resolve.types|
  {
    RecordAllVisited(ctx, ts);
    var v := RecordAll(ctx, ts).visited;
    assert v <= ctx.resolve.types.Keys;
    SubsetCardinality(v, ctx.resolve.types.Keys);
  }

  /** `is_exported_interface`: the selected world exports the interface. */
  function IsExportedInterface(ctx: Context, iface: InterfaceId): (r: bool)
    requires ctx.Valid()
    ensures r <==> exists k :: 0 <= k < |ctx.resolve.worlds[ctx.world].exports|
                      && ctx.resolve.worlds[ctx.world].exports[k].1 == ItemInterface(iface)
  {
    Exports(ctx.resolve.worlds[ctx.world].exports, ItemInterface(iface))
  }

  /** `is_exported_type`: decided by the type's owner alone. Unknown and
      ownerless types are not exported; a world-owned type only when the
      owner is the selected world and it lists the type among its exports;
      an interface-owned type exactly when its interface is exported. */
  function IsExportedType(ctx: Context, t: TypeId): (r: bool)
    requires ctx.Valid()
    ensures r ==> t in ctx.resolve.types
    ensures t in ctx.resolve.types && ctx.resolve.types[t].owner.OwnerNone? ==> !r
    ensures t in ctx.resolve.types && ctx.resolve.types[t].owner.OwnerWorld? ==>
              (r <==> && ctx.resolve.types[t].owner.world == ctx.world
                      && exists k :: 0 <= k < |ctx.resolve.worlds[ctx.world].exports|
                           && ctx.resolve.worlds[ctx.world].exports[k].1 == ItemType(t))
    ensures t in ctx.resolve.types && ctx.resolve.types[t].owner.OwnerInterface? ==>
              (r <==> IsExportedInterface(ctx, ctx.resolve.types[t].owner.iface))
  {
    if t in ctx.resolve.types then
      match ctx.resolve.types[t].owner
      case OwnerWorld(w) =>
        if w == ctx.world then Exports(ctx.resolve.worlds[ctx.world].exports, ItemType(t)) else false
      case OwnerInterface(i) => IsExportedInterface(ctx, i)
      case OwnerNone => false
    else false
  }

  /** Exported-ness is fixed at resolution: recording visited types never changes it. */
  lemma ExportednessStable(ctx: Context, ts: seq<TypeId>, t: TypeId)
    requires ctx.Valid()
    ensures RecordAll(ctx, ts).Valid()
    ensures IsExportedType(RecordAll(ctx, ts), t) == IsExportedType(ctx, t)
  {
    RecordAllVisited(ctx, ts);
  }

  /** `typ`: the definition of a type, failing exactly for unknown ids. */
  function Typ(ctx: Context, t: TypeId): (r: Result<TypeDef, GenError>)
    ensures r.Success? <==> t in ctx.resolve.types
    ensures r.Success? ==> r.value == ctx.resolve.types[t]
    ensures r.Failure? ==> r.error == UnknownType(t)
  {
    if t in ctx.resolve.types then Success(ctx.resolve.types[t]) else Failure(UnknownType(t))
  }

  /** Every exported type can be looked up. */
  lemma ExportedTypeIsKnown(ctx: Context, t: TypeId)
    requires ctx.Valid() && IsExportedType(ctx, t)
    ensures Typ(ctx, t).Success? && Typ(ctx, t).value.owner != OwnerNone
  {
  }

  /** The view of an interface at an import site. */
  datatype ImportedInterface = ImportedInterface(
    packageName: Option<PackageName>,
    name: string,
    functions: seq<(string, Function)>,
    iface: Option<InterfaceDef>,
    interfaceId: Option<InterfaceId>)

  /** `get_imported_interface`. The interface must exist (the source indexes
      the arena). Fails, in this order, for a nameless interface, for one
      without a package, and for a package id outside the arena. */
  function GetImportedInterface(ctx: Context, id: InterfaceId): (r: Result<ImportedInterface, GenError>)
    requires id in ctx.resolve.interfaces
    ensures var i := ctx.resolve.interfaces[id];
            r.Success? <==> i.name.Some? && i.package.Some? && i.package.value.index < |ctx.resolve.packages|
    ensures var i := ctx.resolve.interfaces[id];
            r.Failure? ==>
              if i.name.None? then r.error == NoInterfaceName
              else if i.package.None? then r.error == AnonymousInterface
              else r.error == PackageNotFound(i.name.value)
    ensures var i := ctx.resolve.interfaces[id];
            r.Success? ==>
              && r.value.name == i.name.value
              && r.value.functions == i.functions
              && r.value.iface == Some(i)
              && r.value.interfaceId == Some(id)
              && r.value.packageName == Some(ctx.resolve.packages[i.package.value.index].name)
  {
    var i := ctx.resolve.interfaces[id];
    if i.name.None? then Failure(NoInterfaceName)
    else if i.package.None? then Failure(AnonymousInterface)
    else if i.package.value.index >= |ctx.resolve.packages| then Failure(PackageNotFound(i.name.value))
    else
      var package := ctx.resolve.packages[i.package.value.index];
      Success(ImportedInterface(Some(package.name), i.name.value, i.functions, Some(i), Some(id)))
  }

  /** `module_name`: `snake(package) + "_" + snake(interface)`, failing when
      the view carries no package name. `snake` is heck's snake casing. */
  function ModuleName(view: ImportedInterface, snake: string -> string): (r: Result<string, GenError>)
    ensures r.Failure? <==> view.packageName.None?
    ensures r.Failure? ==> r.error == NoPackageName
    ensures r.Success? ==> r.value == snake(view.packageName.value.ToString()) + "_" + snake(view.name)
  {
    match view.packageName
    case None => Failure(NoPackageName)
    case Some(p) => Success(snake(p.ToString()) + "_" + snake(view.name))
  }

  /** `rust_interface_name`: `Js` + the upper-camel-cased interface name +
      `Module`. `upperCamel` is heck's upper camel casing. */
  function RustInterfaceName(view: ImportedInterface, upperCamel: string -> string): (r: string)
    ensures |r| >= 8 && r[..2] == "Js" && r[|r| - 6..] == "Module"
    ensures r[2..|r| - 6] == upperCamel(view.name)
  {
    "Js" + upperCamel(view.name) + "Module"
  }

  /** `name_and_interface`: the name together with the originating
      interface, when the view has one. */
  function NameAndInterface(view: ImportedInterface): (r: Option<(string, InterfaceDef)>)
    ensures r.Some? <==> view.iface.Some?
    ensures r.Some? ==> r.value.0 == view.name && Some(r.value.1) == view.iface
  {
    match view.iface
    case None => None
    case Some(i) => Some((view.name, i))
  }

  /** `fully_qualified_interface_name`: the package's interface id for the
      view's name (`interfaceId` is `PackageName::interface_id`), or the bare
      name without a package. */
  function FullyQualifiedInterfaceName(
    view: ImportedInterface, interfaceId: (PackageName, string) -> string): (r: string)
    ensures view.packageName.None? ==> r == view.name
    ensures view.packageName.Some? ==> r == interfaceId(view.packageName.value, view.name)
  {
    match view.packageName
    case None => view.name
    case Some(p) => interfaceId(p, view.name)
  }

  /** `interface_stack`: the originating interface id, if any, as a one-element stack. */
  function InterfaceStack(view: ImportedInterface): (r: seq<InterfaceId>)
    ensures |r| <= 1
    ensures r == [] <==> view.interfaceId.None?
    ensures forall k :: 0 <= k < |r| ==> Some(r[k]) == view.interfaceId
  {
    match view.interfaceId
    case None => []
    case Some(id) => [id]
  }

  /** A view built by `get_imported_interface` always names its module, is
      fully qualified by its package, and its interface stack starts from the
      imported interface alone. */
  lemma ImportedInterfaceNames(
    ctx: Context, id: InterfaceId, snake: string -> string,
    interfaceId: (PackageName, string) -> string)
    requires id in ctx.resolve.interfaces && GetImportedInterface(ctx, id).Success?
    ensures var view := GetImportedInterface(ctx, id).value;
            var i := ctx.resolve.interfaces[id];
            var p := ctx.resolve.packages[i.package.value.index].name;
            && ModuleName(view, snake) == Success(snake(p.ToString()) + "_" + snake(i.name.value))
            && FullyQualifiedInterfaceName(view, interfaceId) == interfaceId(p, i.name.value)
            && InterfaceStack(view) == [id]
            && NameAndInterface(view) == Some((i.name.value, i))
  {
  }
}
