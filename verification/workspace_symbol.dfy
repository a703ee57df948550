/**
 `WorkspaceSymbolResponse`: URI cleaning for flat and nested symbols, and the
 relaxed equality that matches a flat `SymbolInformation` against a nested
 `WorkspaceSymbol` when their JSON forms coincide.
 */
module WorkspaceSymbol {
  import opened Base
  import opened Lsp
  import opened Harness

  /** `OneOf<Location, WorkspaceLocation>`: a full location or a bare URI. */
  datatype SymbolLocation = Full(location: Location) | UriOnly(uri: Uri)

  datatype WorkspaceSymbol = WorkspaceSymbol(
    name: string,
    kind: nat,
    tags: Option<seq<nat>>,
    containerName: Option<string>,
    location: SymbolLocation,
    data: Option<Payload>)

  datatype WorkspaceSymbolResponse = Flat(flat: seq<SymbolInformation>) | Nested(nested: seq<WorkspaceSymbol>)

  function LocationUri(l: SymbolLocation): Uri {
    match l
    case Full(loc) => loc.uri
    case UriOnly(u) => u
  }

  function WithUri(l: SymbolLocation, u: Uri): SymbolLocation {
    match l
    case Full(loc) => Full(loc.(uri := u))
    case UriOnly(_) => UriOnly(u)
  }

  function SymbolUris(w: WorkspaceSymbol): seq<Uri> {
    [LocationUri(w.location)]
  }

  function InfoUris(s: SymbolInformation): seq<Uri> {
    [s.location.uri]
  }

  /** `CleanResponse for WorkspaceSymbol`: whichever variant holds the URI, it
      is cleaned and the variant kept. */
  function CleanSymbol(env: CleanEnv, w: WorkspaceSymbol): (r: Result<WorkspaceSymbol, ExecError>)
    ensures ItemCleans(env, r, SymbolUris(w))
    ensures r.Success? ==>
      && CleanUri(env, LocationUri(w.location)) == Success(LocationUri(r.value.location))
      && r.value == w.(location := WithUri(w.location, LocationUri(r.value.location)))
      && r.value.location.Full? == w.location.Full?
  {
    var r := match CleanUri(env, LocationUri(w.location))
      case Failure(e) => Failure(e)
      case Success(u) => Success(w.(location := WithUri(w.location, u)));
    ItemCleansSingle(env, r, LocationUri(w.location));
    r
  }

  function CleanInfo(env: CleanEnv, s: SymbolInformation): (r: Result<SymbolInformation, ExecError>)
    ensures ItemCleans(env, r, InfoUris(s))
    ensures r.Success? ==>
      CleanUri(env, s.location.uri) == Success(r.value.location.uri)
      && r.value == s.(location := s.location.(uri := r.value.location.uri))
  {
    var r := match CleanLocation(env, s.location)
      case Failure(e) => Failure(e)
      case Success(loc) => Success(s.(location := loc));
    ItemCleansSingle(env, r, s.location.uri);
    r
  }

  function Uris(r: WorkspaceSymbolResponse): seq<Uri> {
    match r
    case Flat(xs) => UrisOf(xs, InfoUris)
    case Nested(ys) => UrisOf(ys, SymbolUris)
  }

  function CleanResponse(env: CleanEnv, r: WorkspaceSymbolResponse): (out: Result<WorkspaceSymbolResponse, ExecError>)
    ensures ItemCleans(env, out, Uris(r))
    ensures out.Success? ==> out.value.Flat? == r.Flat?
    ensures out.Success? && r.Flat? ==>
      |out.value.flat| == |r.flat|
      && forall i :: 0 <= i < |r.flat| ==> CleanInfo(env, r.flat[i]) == Success(out.value.flat[i])
    ensures out.Success? && r.Nested? ==>
      |out.value.nested| == |r.nested|
      && forall i :: 0 <= i < |r.nested| ==> CleanSymbol(env, r.nested[i]) == Success(out.value.nested[i])
  {
    match r
    case Flat(xs) =>
      var step := s => CleanInfo(env, s);
      TraverseCleansUris(env, xs, step, InfoUris);
      (match Traverse(xs, step)
       case Failure(e) => Failure(e)
       case Success(ys) => Success(Flat(ys)))
    case Nested(xs) =>
      var step := w => CleanSymbol(env, w);
      TraverseCleansUris(env, xs, step, SymbolUris);
      (match Traverse(xs, step)
       case Failure(e) => Failure(e)
       case Success(ys) => Success(Nested(ys)))
  }

  // ---------------------------------------------------------------------------
  // Relaxed equality
  // ---------------------------------------------------------------------------

  /** `cmp_inner`: a flat symbol equals a nested one when it is not marked
      deprecated, the nested one has no `data` and a full location, and all
      common fields agree. */
  function CmpInner(s: SymbolInformation, w: WorkspaceSymbol): bool {
    if s.deprecated.Some? then false
    else if w.data.Some? then false
    else if !w.location.Full? || s.location != w.location.location then false
    else s.name == w.name && s.kind == w.kind && s.tags == w.tags && s.containerName == w.containerName
  }

  function ApproxEq(a: WorkspaceSymbolResponse, b: WorkspaceSymbolResponse): bool {
    match (a, b)
    case (Nested(nested), Flat(flat)) =>
      |flat| == |nested| && forall i :: 0 <= i < |flat| ==> CmpInner(flat[i], nested[i])
    case (Flat(flat), Nested(nested)) =>
      |flat| == |nested| && forall i :: 0 <= i < |flat| ==> CmpInner(flat[i], nested[i])
    case _ => a == b
  }

  /** The JSON object of a symbol of either kind: every field either kind can
      serialise, absent ones as `None`. */
  datatype SymbolJson = SymbolJson(
    name: string,
    kind: nat,
    tags: Option<seq<nat>>,
    deprecated: Option<bool>,
    location: SymbolLocation,
    containerName: Option<string>,
    data: Option<Payload>)

  function InfoJson(s: SymbolInformation): SymbolJson {
    SymbolJson(s.name, s.kind, s.tags, s.deprecated, Full(s.location), s.containerName, None)
  }

  function SymbolJsonOf(w: WorkspaceSymbol): SymbolJson {
    SymbolJson(w.name, w.kind, w.tags, None, w.location, w.containerName, w.data)
  }

  function Serialize(r: WorkspaceSymbolResponse): seq<SymbolJson> {
    match r
    case Flat(xs) => seq(|xs|, i requires 0 <= i < |xs| => InfoJson(xs[i]))
    case Nested(ys) => seq(|ys|, i requires 0 <= i < |ys| => SymbolJsonOf(ys[i]))
  }

  /** `cmp_inner` decides exactly whether the two symbols serialise alike. */
  lemma CmpInnerIsJsonEquality(s: SymbolInformation, w: WorkspaceSymbol)
    ensures CmpInner(s, w) <==> InfoJson(s) == SymbolJsonOf(w)
  {
  }

  /** Relaxed equality of responses is equality of their JSON arrays. */
  lemma ApproxEqIsWireEquality(a: WorkspaceSymbolResponse, b: WorkspaceSymbolResponse)
    ensures ApproxEq(a, b) <==> Serialize(a) == Serialize(b)
  {
    match (a, b)
    case (Flat(x), Flat(y)) =>
      if Serialize(a) == Serialize(b) {
        assert |x| == |Serialize(a)| == |Serialize(b)| == |y|;
        forall i | 0 <= i < |x| ensures x[i] == y[i] {
          assert InfoJson(x[i]) == Serialize(a)[i] == Serialize(b)[i] == InfoJson(y[i]);
        }
      }
    case (Nested(x), Nested(y)) =>
      if Serialize(a) == Serialize(b) {
        assert |x| == |Serialize(a)| == |Serialize(b)| == |y|;
        forall i | 0 <= i < |x| ensures x[i] == y[i] {
          assert SymbolJsonOf(x[i]) == Serialize(a)[i] == Serialize(b)[i] == SymbolJsonOf(y[i]);
        }
      }
    case (Flat(x), Nested(y)) =>
      CrossIsWireEquality(x, y);
    case (Nested(y), Flat(x)) =>
      CrossIsWireEquality(x, y);
  }

  lemma CrossIsWireEquality(x: seq<SymbolInformation>, y: seq<WorkspaceSymbol>)
    ensures ApproxEq(Flat(x), Nested(y)) <==> Serialize(Flat(x)) == Serialize(Nested(y))
    ensures ApproxEq(Nested(y), Flat(x)) <==> Serialize(Nested(y)) == Serialize(Flat(x))
  {
    var sx, sy := Serialize(Flat(x)), Serialize(Nested(y));
    if |x| == |y| {
      forall i | 0 <= i < |x| ensures CmpInner(x[i], y[i]) <==> sx[i] == sy[i] {
        CmpInnerIsJsonEquality(x[i], y[i]);
      }
    }
  }

  lemma ApproxEqProperties(a: WorkspaceSymbolResponse, b: WorkspaceSymbolResponse)
    ensures a == b ==> ApproxEq(a, b)
    ensures ApproxEq(a, b) <==> ApproxEq(b, a)
    ensures ApproxEq(Flat([]), Nested([]))
  {
    ApproxEqIsWireEquality(a, b);
    ApproxEqIsWireEquality(b, a);
  }

  /** A deprecated flat symbol never matches a nested one. */
  lemma DeprecatedNeverMatches(s: SymbolInformation, w: WorkspaceSymbol)
    requires s.deprecated.Some?
    ensures !ApproxEq(Flat([s]), Nested([w]))
  {
    assert [s][0] == s && [w][0] == w;
  }

  /** The override only adds cross-variant matches to the default
      `approx_eq`: within one variant it is exactly the default. */
  lemma RelaxesDefault(a: WorkspaceSymbolResponse, b: WorkspaceSymbolResponse)
    ensures DefaultApproxEq(a, b) ==> ApproxEq(a, b)
    ensures a.Flat? == b.Flat? ==> (ApproxEq(a, b) <==> DefaultApproxEq(a, b))
  {
  }
}
