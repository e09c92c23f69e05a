# wasm-rquickjs generator core, modelled in Dafny

wasm-rquickjs turns a WIT package and one or more JavaScript modules into a
Rust crate that implements the component's world by embedding QuickJS. This
project models the generator's decision logic, written as pure functions over
immutable data:

- **JS module specs** (`JsModules`, `Cli`). The `name=from` command-line
  syntax is parsed into a spec. Each spec derives its output file name. A
  run "uses composition" when some spec is fetched at composition time. The
  copy plan lists the `std::fs::copy` calls that `copy_js_modules` makes.
- **Generator context** (`Wit`, `Generator`). The resolved WIT graph is kept
  abstract: the owner of each type, the name, functions and package of each
  interface, and each world's export table. On top of it sit:
  - the monotone visited-type set;
  - the exported-interface and exported-type predicates;
  - the `typ` lookup;
  - the imported-interface view with its derived names.
- **Manifests** (`Toml`, `Skeleton`). The Cargo manifest gets two edits:
  - the package name becomes the world name;
  - the dependency table gets one entry per WIT dependency directory, and
    packages whose files span several directories or none are errors.

  The app manifest gets its `component_name` and `root:package` tokens
  filled in.
- **Support** (`Results`, `Text`, `Paths`). These model Rust's
  `str::replace` (leftmost-first, non-overlapping), the first-`=` search of
  `splitn(2, '=')`, and camino paths as a root flag plus a sequence of
  components, with `strip_prefix` and `parent`.

Some collaborators are parameters, not definitions:

- heck's `to_snake_case` and `to_upper_camel_case`;
- wit-parser's `PackageName::interface_id`.

These are function-typed parameters (`string -> string`,
`(PackageName, string) -> string`), so every property holds for any casing
function. A `PackageName` is displayed as `namespace:name`, followed by
`@version` when it has one. This is wit-parser's `Display`.

Behaviours of the code worth knowing:

- Every package in the source map must have exactly one source directory.
  This includes the root package, not only dependencies.
- A package that sits directly in the WIT root adds no dependency entry.
- A package with no source directory at all is an error of its own
  ("has no source directories").
- An imported interface is checked for a name first ("Interface import does
  not have a name"). Only then is it checked for a package. A missing
  package is the "Anonymous interface imports are not supported yet" error.
- The implementation module is simply the first spec in the list. Nothing
  checks that exactly one spec is primary.

## Model

| member | source | states |
|---|---|---|
| `Text.ReplaceAbsent` | crates/wasm-rquickjs/src/skeleton.rs:50-52 | `replace` leaves a text without any occurrence of the pattern unchanged |
| `Text.ReplaceChar` | crates/wasm-rquickjs/src/lib.rs:48 | replacing one character by another (`'/'` by `"_"`) substitutes position by position and keeps the length |
| `Text.ReplaceLeftmost` | crates/wasm-rquickjs/src/skeleton.rs:50-52 | for a pattern that cannot overlap itself, the first occurrence after pattern-free text becomes the replacement and the scan resumes right after it |
| `Text.ReplaceFirst` | crates/wasm-rquickjs/src/skeleton.rs:50-52 | when no occurrence starts before it, an occurrence is replaced and the rest of the text is replaced independently |
| `Text.IndexOf` | src/cli.rs:79 | the split point of `splitn(2, '=')` is the first `=`; absent exactly when the text has no `=` |
| `Paths.StripPrefix` | crates/wasm-rquickjs/src/skeleton.rs:106 | a path loses the WIT root exactly when the root is empty or a component-wise prefix with the same root kind; the root plus the rest gives the path back; the rest is absolute only when an empty root is stripped from an absolute path |
| `Paths.Parent` | crates/wasm-rquickjs/src/skeleton.rs:107 | a path has a parent unless it has no components; the parent plus the last component gives the path back |
| `Paths.DirectoryOfFile` | crates/wasm-rquickjs/src/skeleton.rs:106-109 | a file in directory `d` below the WIT root has parent `d` relative to the root; a file directly in the root has the empty parent |
| `JsModules.FileName` | crates/wasm-rquickjs/src/lib.rs:47-49 | the file name is the module name with every `/` turned into `_`, followed by `.js`; it has no `/` and ends in `.js` |
| `JsModules.FileNameCollision` | crates/wasm-rquickjs/src/lib.rs:47-49 | modules `a/b` and `a_b` get the same file `a_b.js`, so the file name does not identify the module |
| `JsModules.UsesComposition` | crates/wasm-rquickjs/src/lib.rs:342-347 | true exactly when some spec has mode `Composition`; false for the empty list |
| `JsModules.CopyPlan` | crates/wasm-rquickjs/src/lib.rs:329-340 | every copy comes from an `EmbedFile` spec and every `EmbedFile` spec is copied to `src/<file_name>`; every spec is copied exactly when none uses composition |
| `JsModules.CopyPlanAppend` | crates/wasm-rquickjs/src/lib.rs:331-338 | the plan of a concatenation is the concatenation of the plans, so copies follow the list order |
| `JsModules.CopyDestinations` | crates/wasm-rquickjs/src/lib.rs:333-334 | every copy lands directly in `src/`, under a single `.js` component without `/` |
| `Cli.ModeOf` | src/cli.rs:84-87 | `@composition` selects composition; any other text, the empty one included, is an embedded file with that path |
| `Cli.ParseSpecArg` | src/cli.rs:78-89 | rejects exactly the inputs without `=`, with `Invalid JS module spec: <s>`; otherwise the name is the text before the first `=` and the mode is chosen by the rest |
| `Cli.ParseJoined` | src/cli.rs:78-89 | round trip: `n=f` with `n` free of `=` parses to name `n` and the mode `f` denotes, whatever `=` `f` contains |
| `Cli.ToSpecPreserves` | src/cli.rs:66-73 | the conversion to `JsModuleSpec` keeps name and mode, and is a bijection between the two records |
| `Wit.Exports` | crates/wasm-rquickjs/src/lib.rs:197-201 | the `any` over a world's export table holds exactly when some entry is the given item |
| `Generator.NewContext` | crates/wasm-rquickjs/src/lib.rs:170-185 | a new context stores the given resolve, root package, world, WIT path and source map, caches the selected world's name and has an empty visited set |
| `Generator.RootPackageName` | crates/wasm-rquickjs/src/lib.rs:188-190 | the root package's display name is its version-less `namespace:name` followed by `@version` when it has one |
| `Generator.RecordVisitedType` | crates/wasm-rquickjs/src/lib.rs:192-194 | the visited set grows by the recorded id and by nothing else; the rest of the context is unchanged |
| `Generator.RecordVisitedIdempotent` | crates/wasm-rquickjs/src/lib.rs:192-194 | recording an already visited id changes nothing, so recording twice equals recording once |
| `Generator.RecordAllVisited` | crates/wasm-rquickjs/src/lib.rs:192-194 | after a run of recordings the visited set is the old set plus exactly the recorded ids |
| `Generator.RecordAllOrderIrrelevant` | crates/wasm-rquickjs/src/lib.rs:192-194 | two runs recording the same ids, in any order and multiplicity, give the same context |
| `Generator.VisitedBounded` | crates/wasm-rquickjs/src/lib.rs:192-194 | recording only known type ids keeps the visited set within the resolved types, so it never outgrows their number |
| `Generator.IsExportedInterface` | crates/wasm-rquickjs/src/lib.rs:196-202 | an interface is exported exactly when the selected world's exports contain it as an interface item |
| `Generator.IsExportedType` | crates/wasm-rquickjs/src/lib.rs:204-224 | unknown and ownerless types are not exported; a world-owned type is exported only if its world is the selected one and that world exports it; an interface-owned type is exported exactly when its interface is |
| `Generator.ExportednessStable` | crates/wasm-rquickjs/src/lib.rs:192-224 | recording visited types never changes whether a type is exported |
| `Generator.Typ` | crates/wasm-rquickjs/src/lib.rs:266-271 | the lookup fails exactly for an unknown id, with `UnknownType(id)`; otherwise it returns that id's definition |
| `Generator.ExportedTypeIsKnown` | crates/wasm-rquickjs/src/lib.rs:204-224 | every exported type can be looked up and has an owner |
| `Generator.GetImportedInterface` | crates/wasm-rquickjs/src/lib.rs:230-264 | fails in order for a nameless interface, a package-less one, and a package outside the arena; on success the view keeps the functions in order, the name, the interface and its id, and the package's name |
| `Generator.ModuleName` | crates/wasm-rquickjs/src/lib.rs:283-294 | fails exactly when the view has no package name, with `NoPackageName`; otherwise it is `snake(package)_snake(interface)` |
| `Generator.RustInterfaceName` | crates/wasm-rquickjs/src/lib.rs:296-299 | the Rust module identifier is `Js`, then the upper-camel-cased interface name, then `Module` |
| `Generator.NameAndInterface` | crates/wasm-rquickjs/src/lib.rs:301-304 | present exactly when the view has its interface, pairing it with the view's name |
| `Generator.FullyQualifiedInterfaceName` | crates/wasm-rquickjs/src/lib.rs:306-312 | with a package it is the package's interface id for the name; without one, the bare interface name |
| `Generator.InterfaceStack` | crates/wasm-rquickjs/src/lib.rs:314-316 | the stack has at most one element, the view's interface id, and is empty exactly when there is none |
| `Generator.ImportedInterfaceNames` | crates/wasm-rquickjs/src/lib.rs:230-316 | a view built for an import always has the module name `snake(package)_snake(interface)`, the package's qualified interface id, and the stack `[id]` |
| `Toml.TableAtPut` | crates/wasm-rquickjs/src/skeleton.rs:69-99 | reading the dependency table back after writing it gives the written table |
| `Toml.PutTableAtFrame` | crates/wasm-rquickjs/src/skeleton.rs:69-99 | writing at a key path leaves the item at every key path branching off it unchanged, at every depth, missing ones included |
| `Toml.PutTableAtKeys` | crates/wasm-rquickjs/src/skeleton.rs:69-99 | writing at a key path adds at most its first key to the document |
| `Skeleton.ParentListMembers` | crates/wasm-rquickjs/src/skeleton.rs:103-110 | a directory is collected exactly when it is the parent of some source file's path, made relative to the WIT root when it lies under it |
| `Skeleton.PackageDirectory` | crates/wasm-rquickjs/src/skeleton.rs:112-137 | one parent directory gives that directory; several give `MultipleSourceDirectories(package, parents)`; none give `NoSourceDirectories(package)` |
| `Skeleton.OneDirectoryPackage` | crates/wasm-rquickjs/src/skeleton.rs:102-119 | a package whose files all lie in one directory below the WIT root gets that directory, relative to the root |
| `Skeleton.TwoDirectoryPackage` | crates/wasm-rquickjs/src/skeleton.rs:112-117 | a package with files in two different directories is rejected, naming both |
| `Skeleton.CollectSucceeds` | crates/wasm-rquickjs/src/skeleton.rs:101-141 | the dependency loop succeeds exactly when every package of the source map has a single source directory |
| `Skeleton.CollectFailsAtFirst` | crates/wasm-rquickjs/src/skeleton.rs:101-139 | a failure carries the error of the first package in id order without a single directory, naming that package |
| `Skeleton.CollectKeys` | crates/wasm-rquickjs/src/skeleton.rs:118-131 | on success the table has its old keys plus the version-less name of each package outside the WIT root, and no others; root-level and unmapped packages add nothing |
| `Skeleton.CollectEntry` | crates/wasm-rquickjs/src/skeleton.rs:119-130 | an entry not overwritten by a later package of the same version-less name is a table whose `path` is `wit/<dir>` |
| `Skeleton.CollectKeeps` | crates/wasm-rquickjs/src/skeleton.rs:101-139 | an existing entry that no package's key matches is left alone |
| `Skeleton.CollectCount` | crates/wasm-rquickjs/src/skeleton.rs:101-139 | with distinct version-less names, the table gains exactly one entry per package outside the WIT root |
| `Skeleton.AddWitDependencies` | crates/wasm-rquickjs/src/skeleton.rs:68-142 | fails with `DependencyTableUnavailable` when something on the table path is not a table; a loop failure is returned as is; on success the table at `package.metadata.component.target.dependencies` is the loop's result and every key path branching off it is unchanged |
| `Skeleton.ChangePackageName` | crates/wasm-rquickjs/src/skeleton.rs:60-64 | `package.name` becomes the world name; every other key of the document and of `[package]` is unchanged |
| `Skeleton.CargoTomlContents` | crates/wasm-rquickjs/src/skeleton.rs:19-39 | the manifest is produced exactly when the table path is usable and every mapped package has one directory; it then carries the world name and the computed dependency table |
| `Skeleton.AppManifestTokens` | crates/wasm-rquickjs/src/skeleton.rs:41-58 | without `component_name`, only the `root:package` tokens are filled; a template with neither token is unchanged |
| `Skeleton.AppManifestWorldName` | crates/wasm-rquickjs/src/skeleton.rs:49-52 | a template with one `component_name` gets the snake-cased world name in its place |
| `Skeleton.AppManifestRootPackage` | crates/wasm-rquickjs/src/skeleton.rs:49-52 | in a template without `component_name`, the first `root:package` becomes the root package's name and the rest is filled on |
| `Skeleton.RootPackageNameVersion` | crates/wasm-rquickjs/src/skeleton.rs:52 | the name filled into the app manifest is the dependency key plus `@version` when the root package has a version |

## Left out

- The binding-generator modules (`conversions`, `exports`, `imports`, `javascript`, `rust_bindgen`, `types`, `typescript`, `wit`) are not modelled: conversion shapes, trampolines and the get-script import are outside this model.
- `generate_wrapper_crate` and `generate_dts` as orchestration are left out. Directory creation, WIT/skeleton/cargo-config copying, file writes and their I/O errors are filesystem work. Only the copy plan and the computed manifest contents are modelled.
- `GeneratorContext::new` resolution is left out. `Resolve::push_path`, `select_world` and `Types::analyze` are library calls. `NewContext` takes their results as inputs, and `bindgen_type_info` is not modelled.
- Type shapes, world imports and interface-owned types other than by owner are left abstract: `is_exported_interface`/`is_exported_type` inspect only owners and export tables.
- TOML parsing and serialisation are left out. So are the embedded-skeleton errors: a missing or non-UTF-8 `Cargo.toml`/`golem.yaml`, and a TOML parse error. The dependency table is a map, so the order of its entries is not modelled. Inline tables are treated as plain values, which matches `as_table_mut` returning `None` for them.
- ChangePackageName: requires the manifest to hold a `[package]` standard table. The skeleton manifest always has one. toml_edit's implicit creation of a missing `package` through `IndexMut` is not modelled.
- The "Invalid path" error for non-UTF-8 source paths is left out: paths here are already strings.
- Paths are taken as already normalised components. `.`, `..`, repeated separators and Windows prefixes are not modelled.
- An embedded module's source is kept as its path text. It is not parsed into path components.
- Error messages are datatype cases; each case is commented with the source's text. `Debug` rendering of package names and path sets is not modelled.
- `src/main.rs` is left out: CLI dispatch, the `--js` single-module shortcut, process exit. It passes five arguments to `generate_wrapper_crate` while `lib.rs` declares four. The model follows `lib.rs` and gives no meaning to `include_cargo_config`.
- The integration tests (`tests/`) are left out: they are wasmtime runtime and build plumbing.
- `RefCell` interior mutability of the visited set becomes a functional update that returns a new context.
