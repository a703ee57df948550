/**
 `DocumentSymbolResponse`: flat symbols carry locations to clean, nested ones
 do not; an empty flat list and an empty nested list are interchangeable.
 */
module DocumentSymbol {
  import opened Base
  import opened Lsp
  import opened Harness

  /** A hierarchical symbol; it carries ranges in the current document only. */
  datatype DocumentSymbol = DocumentSymbol(
    name: string,
    detail: Option<string>,
    kind: nat,
    range: Range,
    selectionRange: Range,
    children: Payload)

  datatype DocumentSymbolResponse = Flat(symbols: seq<SymbolInformation>) | Nested(nested: seq<DocumentSymbol>)

  function SymbolUris(s: SymbolInformation): seq<Uri> {
    [s.location.uri]
  }

  function CleanSymbol(env: CleanEnv, s: SymbolInformation): (r: Result<SymbolInformation, ExecError>)
    ensures ItemCleans(env, r, SymbolUris(s))
    ensures r.Success? ==>
      CleanUri(env, s.location.uri) == Success(r.value.location.uri)
      && r.value == s.(location := s.location.(uri := r.value.location.uri))
  {
    var r := match CleanUri(env, s.location.uri)
      case Failure(e) => Failure(e)
      case Success(u) => Success(s.(location := s.location.(uri := u)));
    ItemCleansSingle(env, r, s.location.uri);
    r
  }

  /** The URIs `clean_response` visits: those of the flat symbols, in order. */
  function Uris(r: DocumentSymbolResponse): seq<Uri> {
    match r
    case Flat(syms) => UrisOf(syms, SymbolUris)
    case Nested(_) => []
  }

  function CleanResponse(env: CleanEnv, r: DocumentSymbolResponse): (out: Result<DocumentSymbolResponse, ExecError>)
    ensures ItemCleans(env, out, Uris(r))
    ensures r.Nested? ==> out == Success(r)
    ensures out.Success? && r.Flat? ==>
      && out.value.Flat?
      && |out.value.symbols| == |r.symbols|
      && forall i :: 0 <= i < |r.symbols| ==> CleanSymbol(env, r.symbols[i]) == Success(out.value.symbols[i])
  {
    match r
    case Nested(_) => Success(r)
    case Flat(syms) =>
      var step := s => CleanSymbol(env, s);
      TraverseCleansUris(env, syms, step, SymbolUris);
      match Traverse(syms, step)
      case Failure(e) => Failure(e)
      case Success(ys) => Success(Flat(ys))
  }

  /** `ApproximateEq::approx_eq` for `DocumentSymbolResponse`: a flat and a
      nested response are equal only when both are empty; otherwise plain
      equality. */
  function ApproxEq(a: DocumentSymbolResponse, b: DocumentSymbolResponse): bool {
    match (a, b)
    case (Flat(x), Nested(y)) => x == [] && y == []
    case (Nested(y), Flat(x)) => x == [] && y == []
    case _ => a == b
  }

  /** The serialised response is a JSON array of symbol objects of one shape
      or the other; the two shapes never coincide. */
  datatype WireItem = FlatObject(symbol: SymbolInformation) | NestedObject(nested: DocumentSymbol)

  function Serialize(r: DocumentSymbolResponse): seq<WireItem> {
    match r
    case Flat(xs) => seq(|xs|, i requires 0 <= i < |xs| => FlatObject(xs[i]))
    case Nested(ys) => seq(|ys|, i requires 0 <= i < |ys| => NestedObject(ys[i]))
  }

  lemma FlatNestedDiffer(x: seq<SymbolInformation>, y: seq<DocumentSymbol>)
    requires x != [] || y != []
    ensures Serialize(Flat(x)) != Serialize(Nested(y))
  {
    if |x| == |y| {
      assert Serialize(Flat(x))[0] != Serialize(Nested(y))[0];
    }
  }

  /** Relaxed equality identifies exactly the responses whose JSON agrees. */
  lemma ApproxEqIsWireEquality(a: DocumentSymbolResponse, b: DocumentSymbolResponse)
    ensures ApproxEq(a, b) <==> Serialize(a) == Serialize(b)
  {
    if a.Flat? && b.Nested? && (a.symbols != [] || b.nested != []) {
      FlatNestedDiffer(a.symbols, b.nested);
    }
    if a.Nested? && b.Flat? && (b.symbols != [] || a.nested != []) {
      FlatNestedDiffer(b.symbols, a.nested);
    }
    if Serialize(a) == Serialize(b) {
      match (a, b)
      case (Flat(x), Flat(y)) =>
        assert |x| == |Serialize(a)| == |Serialize(b)| == |y|;
        assert forall i :: 0 <= i < |x| ==> x[i] == Serialize(a)[i].symbol == Serialize(b)[i].symbol == y[i];
      case (Nested(x), Nested(y)) =>
        assert |x| == |Serialize(a)| == |Serialize(b)| == |y|;
        assert forall i :: 0 <= i < |x| ==> x[i] == Serialize(a)[i].nested == Serialize(b)[i].nested == y[i];
      case _ =>
    }
  }

  lemma ApproxEqProperties(a: DocumentSymbolResponse, b: DocumentSymbolResponse)
    ensures a == b ==> ApproxEq(a, b)
    ensures ApproxEq(a, b) <==> ApproxEq(b, a)
    ensures ApproxEq(Flat([]), Nested([]))
    ensures a.Flat? && b.Nested? && a.symbols != [] ==> !ApproxEq(a, b)
  {
    ApproxEqIsWireEquality(a, b);
    ApproxEqIsWireEquality(b, a);
  }

  /** The override only adds the empty cross-variant match to the default
      `approx_eq`: within one variant it is exactly the default. */
  lemma RelaxesDefault(a: DocumentSymbolResponse, b: DocumentSymbolResponse)
    ensures DefaultApproxEq(a, b) ==> ApproxEq(a, b)
    ensures a.Flat? == b.Flat? ==> (ApproxEq(a, b) <==> DefaultApproxEq(a, b))
  {
  }
}
