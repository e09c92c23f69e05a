/** An abstract view of the resolved WIT graph (`wit_parser::Resolve`) as far
    as the generator's decision logic inspects it: who owns each type, the
    name, functions and package of each interface, the export table of each
    world, and the name of each package. Type shapes are left abstract. */
module Wit {
  import opened Results

  datatype TypeId = TypeId(index: nat)
  datatype InterfaceId = InterfaceId(index: nat)
  datatype WorldId = WorldId(index: nat)
  /** Packages live in an arena: a package id is its position in `Resolve.packages`. */
  datatype PackageId = PackageId(index: nat)

  /** `TypeOwner`: the world or interface that declares a type, or nothing. */
  datatype TypeOwner = OwnerWorld(world: WorldId) | OwnerInterface(iface: InterfaceId) | OwnerNone

  datatype TypeDef = TypeDef(name: Option<string>, owner: TypeOwner)

  /** A reference to a type from a function signature. */
  datatype WitType = Primitive(keyword: string) | Defined(id: TypeId)

  datatype Function = Function(name: string, params: seq<(string, WitType)>, result: Option<WitType>)

  /** An interface: optional name (anonymous when absent), its functions in
      declaration order, and its package (absent for world-inline interfaces). */
  datatype InterfaceDef = InterfaceDef(
    name: Option<string>,
    functions: seq<(string, Function)>,
    package: Option<PackageId>)

  /** `PackageName`: namespace, name and optional version. */
  datatype PackageName = PackageName(namespace: string, name: string, version: Option<string>) {
    /** The `Display` form `namespace:name` followed by `@version` when present. */
    function ToString(): string {
      namespace + ":" + name + (if version.Some? then "@" + version.value else "")
    }

    /** The same name with the version dropped. */
    function WithoutVersion(): (p: PackageName)
      ensures p.version.None? && p.namespace == namespace && p.name == name
    {
      this.(version := None)
    }
  }

  datatype Package = Package(name: PackageName)

  /** `WorldKey`: how an item is bound in a world's import or export table. */
  datatype WorldKey = KeyName(name: string) | KeyInterface(id: InterfaceId)

  /** `WorldItem`: an interface, a bare function or a type. */
  datatype WorldItem = ItemInterface(iface: InterfaceId) | ItemFunction(func: Function) | ItemType(ty: TypeId)

  /** A world: its name and its export table in declaration order. */
  datatype World = World(name: string, exports: seq<(WorldKey, WorldItem)>)

  datatype Resolve = Resolve(
    types: map<TypeId, TypeDef>,
    interfaces: map<InterfaceId, InterfaceDef>,
    worlds: map<WorldId, World>,
    packages: seq<Package>)

  /** The export table lists `item` (the `iter().any(...)` of the generator). */
  function Exports(exports: seq<(WorldKey, WorldItem)>, item: WorldItem): (r: bool)
    ensures r <==> exists k :: 0 <= k < |exports| && exports[k].1 == item
  {
    |exports| > 0 && (exports[0].1 == item || Exports(exports[1..], item))
  }
}
