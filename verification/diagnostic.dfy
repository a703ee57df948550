/**
 `Vec<Diagnostic>`: the URIs to clean sit in each diagnostic's optional list
 of related information.
 */
module Diagnostic {
  import opened Base
  import opened Lsp
  import opened Harness

  datatype RelatedInformation = RelatedInformation(location: Location, message: string)

  datatype Diagnostic = Diagnostic(
    range: Range,
    severity: Option<nat>,
    message: string,
    relatedInformation: Option<seq<RelatedInformation>>,
    rest: Payload)

  function RelatedUris(info: RelatedInformation): seq<Uri> {
    [info.location.uri]
  }

  function DiagnosticUris(d: Diagnostic): seq<Uri> {
    if d.relatedInformation.Some? then UrisOf(d.relatedInformation.value, RelatedUris) else []
  }

  function CleanRelated(env: CleanEnv, info: RelatedInformation): (r: Result<RelatedInformation, ExecError>)
    ensures ItemCleans(env, r, RelatedUris(info))
    ensures r.Success? ==>
      CleanUri(env, info.location.uri) == Success(r.value.location.uri)
      && r.value == info.(location := info.location.(uri := r.value.location.uri))
  {
    var r := match CleanLocation(env, info.location)
      case Failure(e) => Failure(e)
      case Success(loc) => Success(info.(location := loc));
    ItemCleansSingle(env, r, info.location.uri);
    r
  }

  function CleanDiagnostic(env: CleanEnv, d: Diagnostic): (r: Result<Diagnostic, ExecError>)
    ensures ItemCleans(env, r, DiagnosticUris(d))
    ensures d.relatedInformation.None? ==> r == Success(d)
    ensures r.Success? ==>
      r.value.relatedInformation.Some? == d.relatedInformation.Some?
      && r.value == d.(relatedInformation := r.value.relatedInformation)
    ensures r.Success? && d.relatedInformation.Some? ==>
      var before, after := d.relatedInformation.value, r.value.relatedInformation.value;
      && |after| == |before|
      && forall i :: 0 <= i < |before| ==> CleanRelated(env, before[i]) == Success(after[i])
    ensures r.Failure? ==>
      && d.relatedInformation.Some?
      && exists i :: 0 <= i < |d.relatedInformation.value|
           && CleanRelated(env, d.relatedInformation.value[i]) == Failure(r.error)
  {
    match d.relatedInformation
    case None => Success(d)
    case Some(info) =>
      var step := x => CleanRelated(env, x);
      TraverseCleansUris(env, info, step, RelatedUris);
      match Traverse(info, step)
      case Failure(e) => Failure(e)
      case Success(ys) => Success(d.(relatedInformation := Some(ys)))
  }

  /** `clean_response`: diagnostics in order, related entries in order. */
  function CleanResponse(env: CleanEnv, ds: seq<Diagnostic>): (r: Result<seq<Diagnostic>, ExecError>)
    ensures ItemCleans(env, r, UrisOf(ds, DiagnosticUris))
    ensures r.Success? ==>
      |r.value| == |ds|
      && forall i :: 0 <= i < |ds| ==> CleanDiagnostic(env, ds[i]) == Success(r.value[i])
  {
    var step := d => CleanDiagnostic(env, d);
    TraverseCleansUris(env, ds, step, DiagnosticUris);
    Traverse(ds, step)
  }

  /** A URI that fails in a later diagnostic is not reached when an earlier
      diagnostic already failed: the error is the earlier one's. */
  lemma FirstDiagnosticErrorWins(env: CleanEnv, d: Diagnostic, rest: seq<Diagnostic>)
    requires CleanDiagnostic(env, d).Failure?
    ensures CleanResponse(env, [d] + rest) == Failure(CleanDiagnostic(env, d).error)
  {
    assert ([d] + rest)[0] == d;
  }
}
