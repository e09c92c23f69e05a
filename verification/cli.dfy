/** The `--js-modules name=from` argument of the command-line front end
    (src/cli.rs) and its conversion into a `JsModuleSpec`. */
module Cli {
  import opened Results
  import opened Text
  import opened JsModules

  /** The parsed command-line form of a module spec. */
  datatype JsModuleSpecArg = JsModuleSpecArg(name: string, mode: EmbeddingMode)

  /** The `from` value that selects composition-time embedding. */
  const CompositionMarker := "@composition"

  /** The embedding mode a `from` part denotes. */
  function ModeOf(from: string): (m: EmbeddingMode)
    ensures m.Composition? <==> from == CompositionMarker
    ensures m.EmbedFile? ==> m.source == from
  {
    if from == CompositionMarker then Composition else EmbedFile(from)
  }

  /** `JsModuleSpecArg::from_str`: split at the first `=`; the name is what
      precedes it (possibly empty), the rest (which may contain further `=`)
      chooses the mode. Without `=` the input is rejected. */
  function ParseSpecArg(s: string): (r: Result<JsModuleSpecArg, string>)
    ensures r.Failure? <==> '=' !in s
    ensures r.Failure? ==> r.error == "Invalid JS module spec: " + s
    ensures r.Success? ==>
              var n := |r.value.name|;
              && n < |s|
              && s[..n] == r.value.name
              && s[n] == '='
              && '=' !in r.value.name
              && r.value.mode == ModeOf(s[n + 1..])
  {
    match IndexOf(s, '=')
    case None => Failure("Invalid JS module spec: " + s)
    case Some(i) => Success(JsModuleSpecArg(s[..i], ModeOf(s[i + 1..])))
  }

  /** Round trip: a name without `=`, joined to any `from` by `=`, parses back
      to that name and the mode `from` denotes. */
  lemma ParseJoined(name: string, from: string)
    requires '=' !in name
    ensures ParseSpecArg(name + "=" + from) == Success(JsModuleSpecArg(name, ModeOf(from)))
  {
    var s := name + "=" + from;
    assert s[|name|] == '=';
    assert s[..|name|] == name;
    assert s[|name| + 1..] == from;
  }

  /** `From<JsModuleSpecArg> for JsModuleSpec`. */
  function ToSpec(arg: JsModuleSpecArg): (spec: JsModuleSpec)
  {
    JsModuleSpec(arg.name, arg.mode)
  }

  /** The conversion keeps the name and the mode: it is a bijection between
      the two records. */
  lemma ToSpecPreserves(arg: JsModuleSpecArg, spec: JsModuleSpec)
    ensures ToSpec(arg).name == arg.name && ToSpec(arg).mode == arg.mode
    ensures ToSpec(arg) == spec <==> arg == JsModuleSpecArg(spec.name, spec.mode)
  {
  }
}
