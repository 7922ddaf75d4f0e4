/** api/api.go: the two HTTP handlers and the copy of the store's records
    into API records.  A handler is modelled as a function from what the
    store calls returned to the reply: its status, its content type, and
    the link decoration it asked for.  Building the links (and rewriting
    them from forwarded headers) belongs to a library the service imports;
    here it is only recorded that it was asked for, and with which
    arguments.  Marshalling the body is reduced to whether it succeeded. */
module Api {
  import opened Outcomes

  /** The store's element record (dp-graph's `HierarchyElement`). */
  datatype DbElement = DbElement(id: string, labelText: string, noOfChildren: int, hasData: bool, order: Option<int>)

  /** The store's node record (dp-graph's `HierarchyResponse`). */
  datatype DbResponse = DbResponse(
    id: string, labelText: string, children: seq<DbElement>, noOfChildren: int,
    hasData: bool, breadcrumbs: seq<DbElement>, order: Option<int>)

  /** A Go slice, which is either nil or made. */
  datatype Slice<T> = Nil | Made(items: seq<T>)
  {
    function Items(): seq<T>
    {
      if Nil? then [] else items
    }

    /** Go's `append(s, x)`. */
    function Append(x: T): Slice<T>
    {
      Made(Items() + [x])
    }
  }

  /** The API's element record (`models.Element`, links not yet added). */
  datatype ApiElement = ApiElement(id: string, labelText: string, noOfChildren: int, hasData: bool, order: Option<int>)

  /** The API's node record (`models.Response`, links not yet added). */
  datatype ApiResponse = ApiResponse(
    id: string, labelText: string, children: Slice<ApiElement>, noOfChildren: int,
    hasData: bool, breadcrumbs: Slice<ApiElement>, order: Option<int>)

  /** `e` carries every field of `d`. */
  predicate Copies(e: ApiElement, d: DbElement)
  {
    e.id == d.id && e.labelText == d.labelText && e.noOfChildren == d.noOfChildren
    && e.hasData == d.hasData && e.order == d.order
  }

  /** `s` copies `ds` element by element, in order, and is nil when `ds` is empty. */
  predicate CopiesAll(s: Slice<ApiElement>, ds: seq<DbElement>)
  {
    && (s.Nil? <==> ds == [])
    && |s.Items()| == |ds|
    && forall i :: 0 <= i < |ds| ==> Copies(s.Items()[i], ds[i])
  }

  /** `mapHierarchyElements`: copies each store element, in order; no
      elements give a nil slice rather than an empty one. */
  method MapHierarchyElements(dbElements: seq<DbElement>) returns (elements: Slice<ApiElement>)
    ensures CopiesAll(elements, dbElements)
  {
    elements := Nil;
    for i := 0 to |dbElements|
      invariant elements.Nil? <==> i == 0
      invariant |elements.Items()| == i
      invariant forall k :: 0 <= k < i ==> Copies(elements.Items()[k], dbElements[k])
    {
      var d := dbElements[i];
      var element := ApiElement(d.id, d.labelText, d.noOfChildren, d.hasData, d.order);
      elements := elements.Append(element);
    }
  }

  /** `mapHierarchyResponse`: copies the node's fields and both of its lists. */
  method MapHierarchyResponse(db: DbResponse) returns (r: ApiResponse)
    ensures r.id == db.id && r.labelText == db.labelText && r.noOfChildren == db.noOfChildren
    ensures r.hasData == db.hasData && r.order == db.order
    ensures CopiesAll(r.children, db.children)
    ensures CopiesAll(r.breadcrumbs, db.breadcrumbs)
  {
    var children := MapHierarchyElements(db.children);
    var breadcrumbs := MapHierarchyElements(db.breadcrumbs);
    r := ApiResponse(db.id, db.labelText, children, db.noOfChildren, db.hasData, breadcrumbs, db.order);
  }

  // ---------------------------------------------------------------------
  // Handlers.

  /** The store's errors, as far as the handlers tell them apart. */
  datatype StoreError = ErrNotFound | Other(message: string)

  /** A call of the link builder: the code list id, whether the node is the
      root, and whether URLs are rewritten from forwarded headers. */
  datatype LinkRequest = LinkRequest(codelistId: string, isRoot: bool, rewriting: bool)

  /** What a handler writes: the status, the Content-Type header, and the
      link decoration it asked for before that. */
  datatype Reply = Reply(status: int, contentType: Option<string>, links: Option<LinkRequest>)

  const StatusOK := 200
  const StatusNotFound := 404
  const StatusInternalServerError := 500
  const JsonContentType := "application/json"

  /** The code list was found and names a code list. */
  predicate CodelistFound(codelist: Result<string, StoreError>)
  {
    codelist.Ok? && codelist.value != ""
  }

  /** The decision both handlers make first, before fetching any node:
      500 for a store failure, 404 for an unknown hierarchy. */
  function CodelistStatus(codelist: Result<string, StoreError>): (status: Option<int>)
    ensures status.None? <==> CodelistFound(codelist)
    ensures status == Some(StatusNotFound) <==> codelist == Err(ErrNotFound) || codelist == Ok("")
    ensures status == Some(StatusInternalServerError) <==> codelist.Err? && codelist.error != ErrNotFound
  {
    if codelist.Err? && codelist.error != ErrNotFound then Some(StatusInternalServerError)
    else if codelist.Err? || codelist.value == "" then Some(StatusNotFound)
    else None
  }

  /** The end both handlers share once the node is in hand: ask for the
      links, marshal, and answer 200 with a JSON body or 500. */
  function Decorated(codelistId: string, isRoot: bool, rewriting: bool, marshalOk: bool): (reply: Reply)
    ensures reply.links == Some(LinkRequest(codelistId, isRoot, rewriting))
    ensures reply.status == StatusOK <==> marshalOk
    ensures reply.status == StatusOK ==> reply.contentType == Some(JsonContentType)
    ensures reply.status != StatusOK ==> reply.status == StatusInternalServerError && reply.contentType.None?
  {
    var links := Some(LinkRequest(codelistId, isRoot, rewriting));
    if !marshalOk then Reply(StatusInternalServerError, None, links)
    else Reply(StatusOK, Some(JsonContentType), links)
  }

  /** `hierarchiesHandler` (GET /hierarchies/{instance}/{dimension}).  Any
      failure to fetch the root, "not found" included, is a 500. */
  function HierarchiesHandler(codelist: Result<string, StoreError>, root: Result<DbResponse, StoreError>,
                              rewriting: bool, marshalOk: bool): (reply: Reply)
    ensures reply.status == StatusNotFound <==> codelist == Err(ErrNotFound) || codelist == Ok("")
    ensures reply.status == StatusInternalServerError <==>
              (codelist.Err? && codelist.error != ErrNotFound)
              || (CodelistFound(codelist) && (root.Err? || !marshalOk))
    ensures reply.status == StatusOK <==> CodelistFound(codelist) && root.Ok? && marshalOk
    ensures reply.status == StatusOK ==> reply.contentType == Some(JsonContentType)
    ensures reply.links.Some? <==> CodelistFound(codelist) && root.Ok?
    ensures reply.links.Some? ==> CodelistFound(codelist) && reply.links.value == LinkRequest(codelist.value, true, rewriting)
  {
    match CodelistStatus(codelist)
    case Some(status) => Reply(status, None, None)
    case None =>
      if root.Err? then Reply(StatusInternalServerError, None, None)
      else Decorated(codelist.value, true, rewriting, marshalOk)
  }

  /** `codesHandler` (GET /hierarchies/{instance}/{dimension}/{code}).  A
      node that is not found, or has an empty label, is a 404; any other
      failure to fetch it is a 500. */
  function CodesHandler(codelist: Result<string, StoreError>, node: Result<DbResponse, StoreError>,
                        rewriting: bool, marshalOk: bool): (reply: Reply)
    ensures reply.status == StatusNotFound <==>
              codelist == Err(ErrNotFound) || codelist == Ok("")
              || (CodelistFound(codelist) && (node == Err(ErrNotFound) || (node.Ok? && node.value.labelText == "")))
    ensures reply.status == StatusInternalServerError <==>
              (codelist.Err? && codelist.error != ErrNotFound)
              || (CodelistFound(codelist) && node.Err? && node.error != ErrNotFound)
              || (CodelistFound(codelist) && node.Ok? && node.value.labelText != "" && !marshalOk)
    ensures reply.status == StatusOK <==>
              CodelistFound(codelist) && node.Ok? && node.value.labelText != "" && marshalOk
    ensures reply.status == StatusOK ==> reply.contentType == Some(JsonContentType)
    ensures reply.links.Some? <==> CodelistFound(codelist) && node.Ok? && node.value.labelText != ""
    ensures reply.links.Some? ==> CodelistFound(codelist) && reply.links.value == LinkRequest(codelist.value, false, rewriting)
  {
    match CodelistStatus(codelist)
    case Some(status) => Reply(status, None, None)
    case None =>
      if node.Err? && node.error != ErrNotFound then Reply(StatusInternalServerError, None, None)
      else if node.Err? || node.value.labelText == "" then Reply(StatusNotFound, None, None)
      else Decorated(codelist.value, false, rewriting, marshalOk)
  }

  /** The code list is looked up before any node: while it is not found,
      what the node fetch would have given makes no difference. */
  lemma CodelistDecidesFirst(codelist: Result<string, StoreError>, n1: Result<DbResponse, StoreError>,
                             n2: Result<DbResponse, StoreError>, rewriting: bool, marshalOk: bool)
    requires !CodelistFound(codelist)
    ensures HierarchiesHandler(codelist, n1, rewriting, marshalOk) == HierarchiesHandler(codelist, n2, rewriting, marshalOk)
    ensures CodesHandler(codelist, n1, rewriting, marshalOk) == CodesHandler(codelist, n2, rewriting, marshalOk)
    ensures HierarchiesHandler(codelist, n1, rewriting, marshalOk).status != StatusOK
  {
  }

  /** Whether URLs are rewritten changes which link builder is asked, never
      the status. */
  lemma RewritingKeepsStatus(codelist: Result<string, StoreError>, node: Result<DbResponse, StoreError>, marshalOk: bool)
    ensures HierarchiesHandler(codelist, node, true, marshalOk).status == HierarchiesHandler(codelist, node, false, marshalOk).status
    ensures CodesHandler(codelist, node, true, marshalOk).status == CodesHandler(codelist, node, false, marshalOk).status
  {
  }
}
