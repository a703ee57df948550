/**
 `GotoDefinitionResponse` (shared by declaration, type definition and
 implementation): URI cleaning and the relaxed cross-variant equality.
 */
module Definition {
  import opened Base
  import opened Lsp
  import opened Harness

  datatype GotoDefinitionResponse =
    | Scalar(location: Location)
    | Array(locations: seq<Location>)
    | Link(links: seq<LocationLink>)

  /** The URIs `clean_response` rewrites, in the order it visits them. */
  function Uris(r: GotoDefinitionResponse): seq<Uri> {
    match r
    case Scalar(loc) => [loc.uri]
    case Array(locs) => LocationUris(locs)
    case Link(links) => seq(|links|, i requires 0 <= i < |links| => links[i].targetUri)
  }

  function CleanLink(env: CleanEnv, link: LocationLink): (r: Result<LocationLink, ExecError>)
    ensures r.Success? <==> CleanUri(env, link.targetUri).Success?
    ensures r.Success? ==> r.value == link.(targetUri := CleanUri(env, link.targetUri).value)
    ensures r.Failure? ==> CleanUri(env, link.targetUri) == Failure(r.error)
  {
    match CleanUri(env, link.targetUri)
    case Failure(e) => Failure(e)
    case Success(u) => Success(link.(targetUri := u))
  }

  /** `ys` is `xs` with every target URI cleaned and every range untouched. */
  predicate CleanedLinks(env: CleanEnv, xs: seq<LocationLink>, ys: seq<LocationLink>) {
    |ys| == |xs|
    && forall i :: 0 <= i < |xs| ==>
      CleanUri(env, xs[i].targetUri) == Success(ys[i].targetUri) && ys[i] == xs[i].(targetUri := ys[i].targetUri)
  }

  function CleanResponse(env: CleanEnv, r: GotoDefinitionResponse): (out: Result<GotoDefinitionResponse, ExecError>)
    ensures out.Success? <==> AllClean(env, Uris(r))
    ensures out.Failure? ==> FailsFirstAt(env, Uris(r), out.error)
    ensures out.Success? && r.Scalar? ==>
      out.value.Scalar? && CleanedLocations(env, [r.location], [out.value.location])
    ensures out.Success? && r.Array? ==> out.value.Array? && CleanedLocations(env, r.locations, out.value.locations)
    ensures out.Success? && r.Link? ==> out.value.Link? && CleanedLinks(env, r.links, out.value.links)
  {
    match r
    case Scalar(loc) =>
      (match CleanLocation(env, loc)
       case Failure(e) =>
         assert CleanUri(env, Uris(r)[0]) == Failure(e);
         Failure(e)
       case Success(l) => Success(Scalar(l)))
    case Array(locs) =>
      (match CleanLocations(env, locs)
       case Failure(e) => Failure(e)
       case Success(ls) => Success(Array(ls)))
    case Link(links) =>
      (match Traverse(links, link => CleanLink(env, link))
       case Failure(e) => Failure(e)
       case Success(ls) => Success(Link(ls)))
  }

  // ---------------------------------------------------------------------------
  // Relaxed equality
  // ---------------------------------------------------------------------------

  /** `ApproximateEq::approx_eq` for `GotoDefinitionResponse`: same-variant
      values compare structurally; an `Array` and a `Link` are equal only
      when both are empty. */
  function ApproxEq(a: GotoDefinitionResponse, b: GotoDefinitionResponse): bool {
    match (a, b)
    case (Scalar(x), Scalar(y)) => x == y
    case (Array(x), Array(y)) => x == y
    case (Link(x), Link(y)) => x == y
    case (Array(x), Link(y)) => y == [] && x == []
    case (Link(y), Array(x)) => y == [] && x == []
    case _ => false
  }

  /** JSON shapes: a scalar is an object; both list variants are arrays whose
      elements are location objects or link objects, which never coincide. */
  datatype WireItem = LocationObject(location: Location) | LinkObject(link: LocationLink)
  datatype Wire = WireObject(item: WireItem) | WireArray(items: seq<WireItem>)

  function Serialize(r: GotoDefinitionResponse): Wire {
    match r
    case Scalar(loc) => WireObject(LocationObject(loc))
    case Array(locs) => WireArray(seq(|locs|, i requires 0 <= i < |locs| => LocationObject(locs[i])))
    case Link(links) => WireArray(seq(|links|, i requires 0 <= i < |links| => LinkObject(links[i])))
  }

  /** Relaxed equality is exactly equality of the serialised forms: it
      identifies precisely the values the wire format cannot tell apart. */
  lemma ArrayLinkDiffer(x: seq<Location>, y: seq<LocationLink>)
    requires x != [] || y != []
    ensures Serialize(Array(x)) != Serialize(Link(y))
  {
    if |x| == |y| {
      assert Serialize(Array(x)).items[0] != Serialize(Link(y)).items[0];
    }
  }

  lemma ApproxEqIsWireEquality(a: GotoDefinitionResponse, b: GotoDefinitionResponse)
    ensures ApproxEq(a, b) <==> Serialize(a) == Serialize(b)
  {
    if a.Array? && b.Link? && (a.locations != [] || b.links != []) {
      ArrayLinkDiffer(a.locations, b.links);
    }
    if a.Link? && b.Array? && (b.locations != [] || a.links != []) {
      ArrayLinkDiffer(b.locations, a.links);
    }
    if Serialize(a) == Serialize(b) {
      match (a, b)
      case (Array(x), Array(y)) =>
        assert |x| == |Serialize(a).items| == |Serialize(b).items| == |y|;
        assert forall i :: 0 <= i < |x| ==> x[i] == Serialize(a).items[i].location == Serialize(b).items[i].location == y[i];
      case (Link(x), Link(y)) =>
        assert |x| == |Serialize(a).items| == |Serialize(b).items| == |y|;
        assert forall i :: 0 <= i < |x| ==> x[i] == Serialize(a).items[i].link == Serialize(b).items[i].link == y[i];
      case _ =>
    }
  }

  lemma ApproxEqProperties(a: GotoDefinitionResponse, b: GotoDefinitionResponse)
    ensures a == b ==> ApproxEq(a, b)
    ensures ApproxEq(a, b) <==> ApproxEq(b, a)
    ensures a.Scalar? != b.Scalar? ==> !ApproxEq(a, b)
    ensures ApproxEq(Array([]), Link([])) && ApproxEq(Link([]), Array([]))
    ensures a.Array? && b.Link? && (a.locations != [] || b.links != []) ==> !ApproxEq(a, b) && !ApproxEq(b, a)
  {
    ApproxEqIsWireEquality(a, b);
    ApproxEqIsWireEquality(b, a);
  }

  /** The override only adds cross-variant matches to the default
      `approx_eq`: it holds whenever `==` does, and within one variant it is
      exactly the default. */
  lemma RelaxesDefault(a: GotoDefinitionResponse, b: GotoDefinitionResponse)
    ensures DefaultApproxEq(a, b) ==> ApproxEq(a, b)
    ensures (a.Scalar? && b.Scalar?) || (a.Array? && b.Array?) || (a.Link? && b.Link?) ==>
      (ApproxEq(a, b) <==> DefaultApproxEq(a, b))
  {
  }
}
