/**
 `DocumentLink` and `Vec<DocumentLink>`: only links with a target have a URI
 to clean.
 */
module DocumentLink {
  import opened Base
  import opened Lsp
  import opened Harness

  datatype DocumentLink = DocumentLink(range: Range, target: Option<Uri>, tooltip: Option<string>, data: Option<Payload>)

  function LinkUris(link: DocumentLink): seq<Uri> {
    if link.target.Some? then [link.target.value] else []
  }

  function CleanLink(env: CleanEnv, link: DocumentLink): (r: Result<DocumentLink, ExecError>)
    ensures ItemCleans(env, r, LinkUris(link))
    ensures link.target.None? ==> r == Success(link)
    ensures r.Success? && link.target.Some? ==>
      r.value.target.Some?
      && CleanUri(env, link.target.value) == Success(r.value.target.value)
      && r.value == link.(target := r.value.target)
  {
    match link.target
    case None => Success(link)
    case Some(u) =>
      var r := match CleanUri(env, u)
        case Failure(e) => Failure(e)
        case Success(v) => Success(link.(target := Some(v)));
      ItemCleansSingle(env, r, u);
      r
  }

  function CleanLinks(env: CleanEnv, links: seq<DocumentLink>): (r: Result<seq<DocumentLink>, ExecError>)
    ensures ItemCleans(env, r, UrisOf(links, LinkUris))
    ensures r.Success? ==>
      |r.value| == |links|
      && forall i :: 0 <= i < |links| ==> CleanLink(env, links[i]) == Success(r.value[i])
  {
    var step := link => CleanLink(env, link);
    TraverseCleansUris(env, links, step, LinkUris);
    Traverse(links, step)
  }

  /** Links without targets never fail, whatever the state of the test root. */
  lemma {:induction false} TargetlessLinksUntouched(env: CleanEnv, links: seq<DocumentLink>)
    requires forall i :: 0 <= i < |links| ==> links[i].target.None?
    ensures CleanLinks(env, links) == Success(links)
  {
    TraverseIdentity(links, link => CleanLink(env, link));
  }
}
