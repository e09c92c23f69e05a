/** The JavaScript module specifications handed to the generator
    (crates/wasm-rquickjs/src/lib.rs): each names a module and says whether
    its source is embedded into the generated crate or fetched at run time
    through a composed-in WIT import. */
module JsModules {
  import opened Text
  import opened Paths

  /** How a module reaches the component: the path of a file copied into the
      crate, or supplied at composition time. */
  datatype EmbeddingMode = EmbedFile(source: string) | Composition

  datatype JsModuleSpec = JsModuleSpec(name: string, mode: EmbeddingMode)

  /** `JsModuleSpec::file_name`: every `/` of the name becomes `_`, then
      `.js` is appended. The result is a single path component. */
  function FileName(spec: JsModuleSpec): (r: string)
    ensures |r| == |spec.name| + 3
    ensures r[|spec.name|..] == ".js"
    ensures '/' !in r
    ensures forall i :: 0 <= i < |spec.name| ==>
              r[i] == (if spec.name[i] == '/' then '_' else spec.name[i])
  {
    ReplaceChar(spec.name, '/', '_');
    Replace(spec.name, "/", "_") + ".js"
  }

  /** `uses_composition`: some spec is fetched at composition time. */
  function UsesComposition(specs: seq<JsModuleSpec>): (r: bool)
    ensures r <==> exists i :: 0 <= i < |specs| && specs[i].mode.Composition?
    ensures specs == [] ==> !r
  {
    if |specs| == 0 then false
    else specs[0].mode.Composition? || UsesComposition(specs[1..])
  }

  /** One `std::fs::copy` performed by `copy_js_modules`: from the module's
      source file to a destination relative to the output directory. */
  datatype FileCopy = FileCopy(source: string, dest: Path)

  /** The copy an embedded module gets: `<output>/src/<file_name>`. */
  function CopyOf(spec: JsModuleSpec): (c: FileCopy)
    requires spec.mode.EmbedFile?
  {
    FileCopy(spec.mode.source, Path(false, ["src", FileName(spec)]))
  }

  /** The copies `copy_js_modules` performs, in order. Composition specs
      contribute none; every embedded spec contributes its own copy. */
  function CopyPlan(specs: seq<JsModuleSpec>): (plan: seq<FileCopy>)
    ensures |plan| <= |specs|
    ensures |plan| == |specs| <==> !UsesComposition(specs)
    ensures forall c :: c in plan ==>
              exists i :: 0 <= i < |specs| && specs[i].mode.EmbedFile? && c == CopyOf(specs[i])
    ensures forall i :: 0 <= i < |specs| && specs[i].mode.EmbedFile? ==> CopyOf(specs[i]) in plan
  {
    if |specs| == 0 then []
    else
      var rest := CopyPlan(specs[1..]);
      if specs[0].mode.EmbedFile? then [CopyOf(specs[0])] + rest else rest
  }

  /** The plan of a concatenation is the concatenation of the plans, so the
      copies follow the order of the specs. */
  lemma {:induction false} CopyPlanAppend(a: seq<JsModuleSpec>, b: seq<JsModuleSpec>)
    ensures CopyPlan(a + b) == CopyPlan(a) + CopyPlan(b)
    decreases |a|
  {
    if |a| > 0 {
      assert (a + b)[1..] == a[1..] + b;
      CopyPlanAppend(a[1..], b);
    } else {
      assert a + b == b;
    }
  }

  /** Every copy lands directly in `src/` under a `.js` name without `/`. */
  lemma CopyDestinations(specs: seq<JsModuleSpec>)
    ensures forall c :: c in CopyPlan(specs) ==>
              && !c.dest.absolute
              && |c.dest.components| == 2
              && c.dest.components[0] == "src"
              && '/' !in c.dest.components[1]
              && |c.dest.components[1]| >= 3
              && c.dest.components[1][|c.dest.components[1]| - 3..] == ".js"
  {
  }

  /** Distinct module names can share a file name: a `/` and a `_` in the
      same place are indistinguishable after `file_name`. */
  lemma FileNameCollision(mode: EmbeddingMode)
    ensures FileName(JsModuleSpec("a/b", mode)) == FileName(JsModuleSpec("a_b", mode)) == "a_b.js"
  {
  }
}
