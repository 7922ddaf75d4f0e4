/** models/response.go: the API's response records and the builder of their
    hypermedia links.  Every response and every element in it carries a
    `self` link and a `codelist` link.  The code-list API address, a
    package-level variable in the service, is passed in as `codelistURL`. */
module Models {
  import opened GoStrings

  /** `models.Hierarchy`: a hierarchy (instance and dimension), the URL it is
      served at, and the code list its codes come from. */
  datatype Hierarchy = Hierarchy(instanceId: string, dimension: string, url: string, codelistId: string)

  /** `models.Link`; an empty `id` is left out when the link is rendered. */
  datatype Link = Link(id: string, href: string)

  type Links = map<string, Link>

  const SelfKey := "self"
  const CodelistKey := "codelist"

  /** What reading a key that a Go map lacks gives: the zero `Link`. */
  function LinkAt(links: Links, key: string): Link
  {
    if key in links then links[key] else Link("", "")
  }

  /** `codelistFormat` filled in: the codes collection of the hierarchy's code list. */
  function CodelistBase(codelistURL: string, codelistId: string): string
  {
    codelistURL + "/code-list/" + codelistId + "/code"
  }

  /** Read back from the end, the codes collection is `code`, below the
      code list's id, below the code-list API's `code-list` collection. */
  lemma CodelistBaseSegments(codelistURL: string, codelistId: string)
    requires '/' !in codelistId
    ensures var base := CodelistBase(codelistURL, codelistId);
            && LastSegment(base, '/') == "code"
            && LastSegment(DropLastSegment(base, '/'), '/') == codelistId
            && DropLastSegment(DropLastSegment(base, '/'), '/') == codelistURL + "/code-list"
  {
    var collection := codelistURL + "/code-list";
    var list := collection + ['/'] + codelistId;
    assert CodelistBase(codelistURL, codelistId) == list + ['/'] + "code";
    AppendSegment(list, "code", '/');
    AppendSegment(collection, codelistId, '/');
  }

  /** `GetLink`: a link to `baseURL` itself when `id` is empty, otherwise to
      the item `id` one path segment below it. */
  function GetLink(baseURL: string, id: string): (link: Link)
    ensures link.id == id
    ensures id == "" ==> link.href == baseURL
    ensures id != "" ==> baseURL <= link.href && link.href[|baseURL|..] == "/" + id
  {
    if id == "" then Link("", baseURL) else Link(id, baseURL + "/" + id)
  }

  /** The item a link points at is the last path segment of its href, and
      dropping that segment leads back to the base. */
  lemma GetLinkSegments(baseURL: string, id: string)
    requires id != "" && '/' !in id
    ensures LastSegment(GetLink(baseURL, id).href, '/') == id
    ensures DropLastSegment(GetLink(baseURL, id).href, '/') == baseURL
  {
    assert GetLink(baseURL, id).href == baseURL + ['/'] + id;
    AppendSegment(baseURL, id, '/');
  }

  /** The links `Element.AddLinks` leaves on an element whose links were `links`. */
  function ElementLinks(links: Links, h: Hierarchy, codelistURL: string, id: string): (r: Links)
    ensures r.Keys == links.Keys + {SelfKey, CodelistKey}
    ensures r[SelfKey] == GetLink(h.url, id)
    ensures r[CodelistKey] == GetLink(CodelistBase(codelistURL, h.codelistId), id)
    ensures forall k :: k in links && k != SelfKey && k != CodelistKey ==> r[k] == links[k]
  {
    links[SelfKey := GetLink(h.url, id)][CodelistKey := GetLink(CodelistBase(codelistURL, h.codelistId), id)]
  }

  /** The links `Response.AddLinks` leaves on a response whose links were
      `links`: the same as an element's, except that the root's `self` link
      is the hierarchy URL with no id. */
  function ResponseLinks(links: Links, h: Hierarchy, codelistURL: string, id: string, isRoot: bool): (r: Links)
    ensures r.Keys == links.Keys + {SelfKey, CodelistKey}
    ensures isRoot ==> r[SelfKey] == Link("", h.url)
    ensures !isRoot ==> r == ElementLinks(links, h, codelistURL, id)
    ensures r[CodelistKey] == GetLink(CodelistBase(codelistURL, h.codelistId), id)
    ensures forall k :: k in links && k != SelfKey && k != CodelistKey ==> r[k] == links[k]
  {
    var self := if isRoot then GetLink(h.url, "") else GetLink(h.url, id);
    links[SelfKey := self][CodelistKey := GetLink(CodelistBase(codelistURL, h.codelistId), id)]
  }

  /** Adding an element's links a second time changes nothing. */
  lemma ElementLinksIdempotent(links: Links, h: Hierarchy, codelistURL: string, id: string)
    ensures ElementLinks(ElementLinks(links, h, codelistURL, id), h, codelistURL, id)
         == ElementLinks(links, h, codelistURL, id)
  {
  }

  /** An element without an id links to the hierarchy itself and to the
      code list's codes collection, both without an id. */
  lemma EmptyIdElementLinks(links: Links, h: Hierarchy, codelistURL: string)
    ensures ElementLinks(links, h, codelistURL, "")[SelfKey] == Link("", h.url)
    ensures ElementLinks(links, h, codelistURL, "")[CodelistKey]
         == Link("", codelistURL + "/code-list/" + h.codelistId + "/code")
  {
  }

  /** A snapshot of an `Element`'s fields. */
  datatype ElementData = ElementData(id: string, labelText: string, noOfChildren: int, links: Links, hasData: bool)

  /** `models.Element`: an item (a child or a breadcrumb) within a response. */
  class Element {
    var id: string
    var labelText: string
    var noOfChildren: int
    var links: Links
    var hasData: bool

    constructor (id: string, labelText: string, hasData: bool, noOfChildren: int)
      ensures this.id == id && this.labelText == labelText
      ensures this.hasData == hasData && this.noOfChildren == noOfChildren
      ensures links == map[]
    {
      this.id := id;
      this.labelText := labelText;
      this.hasData := hasData;
      this.noOfChildren := noOfChildren;
      links := map[];
    }

    function View(): ElementData
      reads this
    {
      ElementData(id, labelText, noOfChildren, links, hasData)
    }

    /** `Element.AddLinks`: sets the `self` and `codelist` links and keeps
        every other link. */
    method AddLinks(h: Hierarchy, codelistURL: string)
      modifies this`links
      ensures links == ElementLinks(old(links), h, codelistURL, id)
    {
      links := links[SelfKey := GetLink(h.url, id)];
      links := links[CodelistKey := GetLink(CodelistBase(codelistURL, h.codelistId), id)];
    }
  }

  /** `models.Response`: a hierarchy node with its children and breadcrumbs.
      `noOfChildren` is the field the store fills in (store/neo4j.go:175). */
  class Response {
    var id: string
    var labelText: string
    var children: seq<Element>
    var links: Links
    var hasData: bool
    var breadcrumbs: seq<Element>
    var noOfChildren: int

    /** `&models.Response{}`: every field zero. */
    constructor ()
      ensures id == "" && labelText == "" && children == [] && links == map[]
      ensures !hasData && breadcrumbs == [] && noOfChildren == 0
    {
      id, labelText, children, links := "", "", [], map[];
      hasData, breadcrumbs, noOfChildren := false, [], 0;
    }

    /** `Response.AddLinks`: sets this response's two links (the root's
        `self` carries no id) and gives every child the element links.
        Breadcrumbs are not visited: one that is not also a child keeps its
        links. */
    method AddLinks(h: Hierarchy, isRoot: bool, codelistURL: string)
      modifies this`links, children`links
      ensures links == ResponseLinks(old(links), h, codelistURL, id, isRoot)
      ensures forall k :: 0 <= k < |children| ==>
                children[k].links == ElementLinks(old(children[k].links), h, codelistURL, children[k].id)
      ensures forall b :: b in breadcrumbs && b !in children ==> b.links == old(b.links)
    {
      if isRoot {
        links := links[SelfKey := GetLink(h.url, "")];
      } else {
        links := links[SelfKey := GetLink(h.url, id)];
      }
      links := links[CodelistKey := GetLink(CodelistBase(codelistURL, h.codelistId), id)];
      for i := 0 to |children|
        invariant links == ResponseLinks(old(links), h, codelistURL, id, isRoot)
        invariant forall k :: 0 <= k < |children| ==>
                    children[k].links == if children[k] in children[..i]
                                         then ElementLinks(old(children[k].links), h, codelistURL, children[k].id)
                                         else old(children[k].links)
        invariant forall b :: b in breadcrumbs && b !in children ==> b.links == old(b.links)
      {
        var child := children[i];
        ElementLinksIdempotent(old(child.links), h, codelistURL, child.id);
        child.AddLinks(h, codelistURL);
        assert children[..i + 1] == children[..i] + [child];
      }
      assert children[..|children|] == children;
    }
  }
}
