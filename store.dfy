/** store/neo4j.go: the graph-store queries behind the API.  The bolt driver
    is not modelled: the database is a function `Database` from a statement
    and its arguments to what running it gives, either a failure (opening a
    pooled connection or running the query failed) or a cursor over rows.
    Each row is the property map of the node it returns.  A cursor yields
    its rows and then, from then on, a non-nil error: `io.EOF` normally, or
    whatever went wrong. */
module Store {
  import opened Outcomes
  import opened GoStrings
  import opened Models

  /** A node property value, as the driver decodes it. */
  datatype Value = Str(s: string) | Bool(b: bool) | Int(i: int)

  type Props = map<string, Value>

  /** An error the driver reports. */
  datatype DriverError = EOF | Failure(message: string)

  /** An error this package reports: a driver error, or one of the two
      errors `queryResponse` makes itself. */
  datatype Error = Driver(cause: DriverError) | MoreThanOneRow | NoRows

  /** What running one statement gives. */
  datatype Query = Failed(err: DriverError) | Cursor(rows: seq<Props>, end: DriverError)

  type Database = (string, map<string, string>) -> Query

  /** `neoArgMap{"code": code}` */
  function CodeArgs(code: string): map<string, string>
  {
    map["code" := code]
  }

  // ---------------------------------------------------------------------
  // Statement templates.  Every statement is scoped to the hierarchy's
  // namespace label.

  /** The label carried by the nodes of one hierarchy. */
  function NamespaceLabel(h: Hierarchy): string
  {
    "_hierarchy_node_" + h.instanceId + "_" + h.dimension
  }

  function Quoted(name: string): string
  {
    "`" + name + "`"
  }

  /** A statement matching `i` among the hierarchy's nodes, followed by `rest`. */
  function Statement(h: Hierarchy, rest: string): string
  {
    "MATCH (i:" + Quoted(NamespaceLabel(h)) + rest
  }

  function ExistStmt(h: Hierarchy): string
  {
    Statement(h, ") RETURN i LIMIT 1")
  }

  function GetHierStmt(h: Hierarchy): string
  {
    Statement(h, ") WHERE NOT (i)-[:hasParent]->() RETURN i LIMIT 1")
  }

  function GetCodeStmt(h: Hierarchy): string
  {
    Statement(h, " {code:{code}}) RETURN i")
  }

  function GetChildrenStmt(h: Hierarchy): string
  {
    Statement(h, " {code:{code}})<-[r:hasParent]-(child) RETURN child ORDER BY child.label")
  }

  function GetAncestryStmt(h: Hierarchy): string
  {
    Statement(h, " {code:{code}})-[r:hasParent *]->(parent) RETURN parent")
  }

  /** Every statement names the hierarchy's namespace label, in back-quotes. */
  lemma StatementsScoped(h: Hierarchy)
    ensures var q := Quoted(NamespaceLabel(h));
            && Contains(ExistStmt(h), q) && Contains(GetHierStmt(h), q)
            && Contains(GetCodeStmt(h), q) && Contains(GetChildrenStmt(h), q)
            && Contains(GetAncestryStmt(h), q)
  {
    var q := Quoted(NamespaceLabel(h));
    ContainsInfix("MATCH (i:", q, ") RETURN i LIMIT 1");
    ContainsInfix("MATCH (i:", q, ") WHERE NOT (i)-[:hasParent]->() RETURN i LIMIT 1");
    ContainsInfix("MATCH (i:", q, " {code:{code}}) RETURN i");
    ContainsInfix("MATCH (i:", q, " {code:{code}})<-[r:hasParent]-(child) RETURN child ORDER BY child.label");
    ContainsInfix("MATCH (i:", q, " {code:{code}})-[r:hasParent *]->(parent) RETURN parent");
  }

  /** The label names the instance and the dimension, in that order: as long
      as the instance id has no underscore, the label determines both. */
  lemma NamespaceLabelInjective(h1: Hierarchy, h2: Hierarchy)
    requires '_' !in h1.instanceId && '_' !in h2.instanceId
    requires NamespaceLabel(h1) == NamespaceLabel(h2)
    ensures h1.instanceId == h2.instanceId && h1.dimension == h2.dimension
  {
    var p := "_hierarchy_node_";
    var t1 := h1.instanceId + "_" + h1.dimension;
    var t2 := h2.instanceId + "_" + h2.dimension;
    assert NamespaceLabel(h1) == p + t1;
    assert NamespaceLabel(h2) == p + t2;
    assert t1 == (p + t1)[|p|..];
    assert t2 == (p + t2)[|p|..];
    SplitAround(h1.instanceId, h1.dimension, '_');
    SplitAround(h2.instanceId, h2.dimension, '_');
    SplitNoSeparator(h1.instanceId, '_');
    SplitNoSeparator(h2.instanceId, '_');
    assert Split(t1, '_')[0] == h1.instanceId;
    assert Split(t2, '_')[0] == h2.instanceId;
    assert h1.dimension == t1[|h1.instanceId| + 1..];
    assert h2.dimension == t2[|h2.instanceId| + 1..];
  }

  /** Without that proviso it does not: two hierarchies can share a label. */
  lemma NamespaceLabelAmbiguous()
    ensures NamespaceLabel(Hierarchy("a_b", "c", "", "")) == NamespaceLabel(Hierarchy("a", "b_c", "", ""))
  {
  }

  // ---------------------------------------------------------------------
  // Rows.

  /** The four node properties the store reads, with the types it asserts. */
  predicate NodeTyped(p: Props)
  {
    && "code" in p && p["code"].Str?
    && "label" in p && p["label"].Str?
    && "hasData" in p && p["hasData"].Bool?
    && "numberOfChildren" in p && p["numberOfChildren"].Int?
  }

  /** Every row of a successful query is a typed node. */
  predicate RowsTyped(q: Query)
  {
    q.Cursor? ==> forall i :: 0 <= i < |q.rows| ==> NodeTyped(q.rows[i])
  }

  /** The first row, the only one `queryResponse` reads, is a typed node. */
  predicate FirstRowTyped(q: Query)
  {
    q.Cursor? && |q.rows| > 0 ==> NodeTyped(q.rows[0])
  }

  /** Every children query of the hierarchy returns typed nodes. */
  ghost predicate ChildrenTyped(db: Database, h: Hierarchy)
  {
    forall code :: RowsTyped(db(GetChildrenStmt(h), CodeArgs(code)))
  }

  /** What `rows.NextNeo()` gives at position `i`: nil while rows remain,
      then the cursor's closing error. */
  function NextNeo(q: Query, i: nat): (err: Option<Error>)
    requires q.Cursor?
    ensures err.None? <==> i < |q.rows|
  {
    if i < |q.rows| then None else Some(Driver(q.end))
  }

  /** The element `queryElements` builds from one row, with its links added. */
  function RowElement(p: Props, h: Hierarchy, codelistURL: string): ElementData
    requires NodeTyped(p)
  {
    var code := p["code"].s;
    ElementData(code, p["label"].s, p["numberOfChildren"].i, ElementLinks(map[], h, codelistURL, code), p["hasData"].b)
  }

  /** One element per row, in row order. */
  function RowElements(rows: seq<Props>, h: Hierarchy, codelistURL: string): seq<ElementData>
    requires forall i :: 0 <= i < |rows| ==> NodeTyped(rows[i])
  {
    seq(|rows|, i requires 0 <= i < |rows| => RowElement(rows[i], h, codelistURL))
  }

  /** The elements of the children of the node with code `code`: one per
      row of its children query, none when that query fails. */
  function ChildElements(db: Database, h: Hierarchy, code: string, codelistURL: string): seq<ElementData>
    requires ChildrenTyped(db, h)
  {
    var cq := db(GetChildrenStmt(h), CodeArgs(code));
    assert RowsTyped(cq);
    if cq.Cursor? then RowElements(cq.rows, h, codelistURL) else []
  }

  function Views(es: seq<Element>): seq<ElementData>
    reads es
  {
    seq(|es|, i reads es requires 0 <= i < |es| => es[i].View())
  }

  predicate Distinct(es: seq<Element>)
  {
    forall i, j :: 0 <= i < j < |es| ==> es[i] != es[j]
  }

  // ---------------------------------------------------------------------
  // The code list.

  /** What `getProps` makes of a query: `rows.All()` fails with a
      non-EOF closing error; no rows give nil; otherwise the first row. */
  function GetProps(q: Query): (r: Result<Option<Props>, Error>)
    ensures q.Failed? ==> r == Err(Driver(q.err))
    ensures q.Cursor? && q.end != EOF ==> r == Err(Driver(q.end))
    ensures q.Cursor? && q.end == EOF ==> r == Ok(if q.rows == [] then None else Some(q.rows[0]))
  {
    match q
    case Failed(e) => Err(Driver(e))
    case Cursor(rows, end) =>
      if end != EOF then Err(Driver(end))
      else if |rows| == 0 then Ok(None)
      else Ok(Some(rows[0]))
  }

  /** The code-list query's first row, if any, has a string `code_list`. */
  predicate CodelistTyped(q: Query)
  {
    q.Cursor? && |q.rows| > 0 ==> "code_list" in q.rows[0] && q.rows[0]["code_list"].Str?
  }

  /** `GetCodelist`: the hierarchy's code list id.  A hierarchy with no
      nodes gives the empty id and no error. */
  function GetCodelist(h: Hierarchy, db: Database): (r: Result<string, Error>)
    requires CodelistTyped(db(ExistStmt(h), map[]))
    ensures var q := db(ExistStmt(h), map[]);
            r.Err? <==> (q.Failed? || q.end != EOF)
    ensures var q := db(ExistStmt(h), map[]);
            q.Cursor? && q.end == EOF && q.rows == [] ==> r == Ok("")
    ensures var q := db(ExistStmt(h), map[]);
            q.Cursor? && q.end == EOF && q.rows != [] ==> r == Ok(q.rows[0]["code_list"].s)
  {
    match GetProps(db(ExistStmt(h), map[]))
    case Err(e) => Err(e)
    case Ok(None) => Ok("")
    case Ok(Some(props)) => Ok(props["code_list"].s)
  }

  // ---------------------------------------------------------------------
  // Lists of elements: children and ancestors.

  /** `queryElements`: one element per row, in row order, each with its
      links.  The `err` the loop reads is the loop's own, so the check after
      the loop sees the query's, which is nil: a cursor that fails
      part-way gives the rows read so far and no error. */
  method QueryElements(db: Database, stmt: string, args: map<string, string>, h: Hierarchy, codelistURL: string)
    returns (res: seq<Element>, err: Option<Error>)
    requires RowsTyped(db(stmt, args))
    ensures Distinct(res) && forall i :: 0 <= i < |res| ==> fresh(res[i])
    ensures db(stmt, args).Failed? ==> res == [] && err == Some(Driver(db(stmt, args).err))
    ensures db(stmt, args).Cursor? ==> err == None && Views(res) == RowElements(db(stmt, args).rows, h, codelistURL)
  {
    var q := db(stmt, args);
    if q.Failed? {
      return [], Some(Driver(q.err));
    }
    err := None;
    res := [];
    var i := 0;
    var rowErr := NextNeo(q, i);
    while rowErr.None?
      invariant i <= |q.rows| && |res| == i
      invariant rowErr == NextNeo(q, i)
      invariant Distinct(res) && forall k :: 0 <= k < i ==> fresh(res[k])
      invariant forall k :: 0 <= k < i ==> res[k].View() == RowElement(q.rows[k], h, codelistURL)
      decreases |q.rows| - i
    {
      var props := q.rows[i];
      var element := new Element(props["code"].s, props["label"].s, props["hasData"].b, props["numberOfChildren"].i);
      element.AddLinks(h, codelistURL);
      res := res + [element];
      i := i + 1;
      rowErr := NextNeo(q, i);
    }
    if err.Some? && err != Some(Driver(EOF)) {
      return [], err;
    }
  }

  /** `getChildren`: the children of the node with code `code`. */
  method GetChildren(h: Hierarchy, code: string, db: Database, codelistURL: string)
    returns (res: seq<Element>, err: Option<Error>)
    requires RowsTyped(db(GetChildrenStmt(h), CodeArgs(code)))
    ensures Distinct(res) && forall i :: 0 <= i < |res| ==> fresh(res[i])
    ensures var q := db(GetChildrenStmt(h), CodeArgs(code));
            && (q.Failed? ==> res == [] && err == Some(Driver(q.err)))
            && (q.Cursor? ==> err == None && Views(res) == RowElements(q.rows, h, codelistURL))
  {
    res, err := QueryElements(db, GetChildrenStmt(h), CodeArgs(code), h, codelistURL);
  }

  /** The fix `getAncestry` applies to its list: the outermost ancestor (the
      root) has its `self` href replaced by the hierarchy URL, keeping the
      link's id.  Every other element and every other field is left alone. */
  function FixRootSelf(es: seq<ElementData>, url: string): (r: seq<ElementData>)
    ensures |r| == |es|
    ensures forall i :: 0 <= i < |es| - 1 ==> r[i] == es[i]
    ensures |es| > 0 ==>
              var n := |es| - 1;
              && r[n].(links := es[n].links) == es[n]
              && r[n].links.Keys == es[n].links.Keys + {SelfKey}
              && r[n].links[SelfKey] == Link(LinkAt(es[n].links, SelfKey).id, url)
              && forall k :: k in es[n].links && k != SelfKey ==> r[n].links[k] == es[n].links[k]
  {
    if es == [] then []
    else
      var n := |es| - 1;
      var root := es[n];
      es[..n] + [root.(links := root.links[SelfKey := Link(LinkAt(root.links, SelfKey).id, url)])]
  }

  /** The breadcrumbs of a node: each ancestor links to itself under the
      hierarchy URL, except the root, whose `self` href is the hierarchy URL
      itself (its id is kept). */
  lemma AncestrySelfLinks(rows: seq<Props>, h: Hierarchy, codelistURL: string)
    requires forall i :: 0 <= i < |rows| ==> NodeTyped(rows[i])
    ensures var crumbs := FixRootSelf(RowElements(rows, h, codelistURL), h.url);
            forall i :: 0 <= i < |rows| ==>
              && crumbs[i].id == rows[i]["code"].s
              && crumbs[i].links[CodelistKey] == GetLink(CodelistBase(codelistURL, h.codelistId), rows[i]["code"].s)
              && crumbs[i].links[SelfKey] == if i == |rows| - 1 then Link(rows[i]["code"].s, h.url)
                                             else GetLink(h.url, rows[i]["code"].s)
  {
    var es := RowElements(rows, h, codelistURL);
    var crumbs := FixRootSelf(es, h.url);
    forall i | 0 <= i < |rows|
      ensures crumbs[i].id == rows[i]["code"].s
      ensures crumbs[i].links[CodelistKey] == GetLink(CodelistBase(codelistURL, h.codelistId), rows[i]["code"].s)
      ensures crumbs[i].links[SelfKey] == if i == |rows| - 1 then Link(rows[i]["code"].s, h.url)
                                          else GetLink(h.url, rows[i]["code"].s)
    {
      assert es[i] == RowElement(rows[i], h, codelistURL);
    }
  }

  /** `getAncestry`: the ancestors of the node with code `code`, nearest
      first, with the root's `self` link fixed. */
  method GetAncestry(h: Hierarchy, code: string, db: Database, codelistURL: string)
    returns (ancestors: seq<Element>, err: Option<Error>)
    requires RowsTyped(db(GetAncestryStmt(h), CodeArgs(code)))
    ensures Distinct(ancestors) && forall i :: 0 <= i < |ancestors| ==> fresh(ancestors[i])
    ensures var q := db(GetAncestryStmt(h), CodeArgs(code));
            && (q.Failed? ==> ancestors == [] && err == Some(Driver(q.err)))
            && (q.Cursor? ==> err == None && Views(ancestors) == FixRootSelf(RowElements(q.rows, h, codelistURL), h.url))
  {
    ancestors, err := QueryElements(db, GetAncestryStmt(h), CodeArgs(code), h, codelistURL);
    if err.Some? {
      // logged only
    } else if |ancestors| > 0 {
      var root := ancestors[|ancestors| - 1];
      ghost var before := Views(ancestors);
      root.links := root.links[SelfKey := Link(LinkAt(root.links, SelfKey).id, h.url)];
      assert Views(ancestors) == FixRootSelf(before, h.url);
    }
  }

  // ---------------------------------------------------------------------
  // A single node.

  /** The error `queryResponse` returns, if any.  The row loop only ends on a
      non-nil error, so the "got no rows" check never fires: no rows and a
      clean end go on to fetch the children of the empty code. */
  function ResponseError(h: Hierarchy, q: Query, db: Database): (r: Option<Error>)
    requires q.Cursor? ==> FirstRowTyped(q)
    ensures r != Some(NoRows)
    ensures q.Failed? ==> r == Some(Driver(q.err))
    ensures q.Cursor? && |q.rows| >= 2 ==> r == Some(MoreThanOneRow)
    ensures q.Cursor? && |q.rows| < 2 && q.end != EOF ==> r == Some(Driver(q.end))
    ensures q.Cursor? && |q.rows| < 2 && q.end == EOF ==>
              var cq := db(GetChildrenStmt(h), CodeArgs(if q.rows == [] then "" else q.rows[0]["code"].s));
              r == if cq.Failed? then Some(Driver(cq.err)) else None
  {
    match q
    case Failed(e) => Some(Driver(e))
    case Cursor(rows, end) =>
      var loopErr := if |rows| >= 2 then MoreThanOneRow else Driver(end);
      if loopErr != Driver(EOF) then Some(loopErr)
      else
        var code := if rows == [] then "" else rows[0]["code"].s;
        match db(GetChildrenStmt(h), CodeArgs(code))
        case Failed(e) => Some(Driver(e))
        case Cursor(_, _) => None
  }

  /** The response carries the fields of the query's first row, or zero
      fields when there is none. */
  predicate HasFirstRowFields(res: Response, rows: seq<Props>)
    requires |rows| > 0 ==> NodeTyped(rows[0])
    reads res
  {
    if rows == [] then
      res.id == "" && res.labelText == "" && !res.hasData && res.noOfChildren == 0
    else
      && res.id == rows[0]["code"].s && res.labelText == rows[0]["label"].s
      && res.hasData == rows[0]["hasData"].b && res.noOfChildren == rows[0]["numberOfChildren"].i
  }

  /** The row loop of `queryResponse`: copies the first row's fields into
      `res` and stops at the second row with "more than one row".  It only
      ever ends with an error: the cursor's closing one, or its own. */
  method ReadSingleRow(q: Query, res: Response) returns (err: Option<Error>)
    requires q.Cursor? && FirstRowTyped(q)
    requires HasFirstRowFields(res, [])
    modifies res`id, res`labelText, res`hasData, res`noOfChildren
    ensures err == Some(if |q.rows| >= 2 then MoreThanOneRow else Driver(q.end))
    ensures HasFirstRowFields(res, q.rows)
  {
    var countRows := 0;
    var i := 0;
    err := NextNeo(q, i);
    while err.None?
      invariant countRows == i <= 1 && i <= |q.rows|
      invariant err == NextNeo(q, i) || (err == Some(MoreThanOneRow) && i == 1 && |q.rows| >= 2)
      invariant i == 0 ==> HasFirstRowFields(res, [])
      invariant i == 1 ==> HasFirstRowFields(res, q.rows)
      decreases |q.rows| - i, if err.None? then 1 else 0
    {
      countRows := countRows + 1;
      if countRows > 1 {
        err := Some(MoreThanOneRow);
        break;
      }
      var props := q.rows[i];
      res.id := props["code"].s;
      res.labelText := props["label"].s;
      res.hasData := props["hasData"].b;
      res.noOfChildren := props["numberOfChildren"].i;
      i := i + 1;
      err := NextNeo(q, i);
    }
    if err.None? && countRows != 1 {
      err := Some(NoRows);
    }
  }

  /** `queryResponse`: the single node a statement matches, with its
      children.  On "more than one row" the response is returned beside
      the error, holding the first row's fields. */
  method QueryResponse(h: Hierarchy, stmt: string, args: map<string, string>, db: Database, codelistURL: string)
    returns (res: Response?, err: Option<Error>)
    requires FirstRowTyped(db(stmt, args))
    requires ChildrenTyped(db, h)
    ensures err == ResponseError(h, db(stmt, args), db)
    ensures db(stmt, args).Failed? ==> res == null
    ensures db(stmt, args).Cursor? ==>
              && res != null && fresh(res)
              && HasFirstRowFields(res, db(stmt, args).rows)
              && res.links == map[] && res.breadcrumbs == []
              && Distinct(res.children) && (forall i :: 0 <= i < |res.children| ==> fresh(res.children[i]))
              && (err.None? ==> Views(res.children) == ChildElements(db, h, res.id, codelistURL))
              && (err.Some? ==> res.children == [])
  {
    var q := db(stmt, args);
    if q.Failed? {
      return null, Some(Driver(q.err));
    }
    res, err := ReadNode(h, q, db, codelistURL);
  }

  /** The part of `queryResponse` after a successful query: the row loop,
      then the children of the code it read. */
  method ReadNode(h: Hierarchy, q: Query, db: Database, codelistURL: string)
    returns (res: Response, err: Option<Error>)
    requires q.Cursor? && FirstRowTyped(q)
    requires ChildrenTyped(db, h)
    ensures err == ResponseError(h, q, db)
    ensures fresh(res) && HasFirstRowFields(res, q.rows)
    ensures res.links == map[] && res.breadcrumbs == []
    ensures Distinct(res.children) && forall i :: 0 <= i < |res.children| ==> fresh(res.children[i])
    ensures err.None? ==> Views(res.children) == ChildElements(db, h, res.id, codelistURL)
    ensures err.Some? ==> res.children == []
  {
    res := new Response();
    err := ReadSingleRow(q, res);
    if err.Some? && err != Some(Driver(EOF)) {
      return;
    }
    assert RowsTyped(db(GetChildrenStmt(h), CodeArgs(res.id)));
    res.children, err := GetChildren(h, res.id, db, codelistURL);
  }

  /** `GetHierarchy`: the root of the hierarchy, the node with no parent. */
  method GetHierarchy(h: Hierarchy, db: Database, codelistURL: string) returns (res: Response?, err: Option<Error>)
    requires FirstRowTyped(db(GetHierStmt(h), map[]))
    requires ChildrenTyped(db, h)
    ensures err == ResponseError(h, db(GetHierStmt(h), map[]), db)
    ensures db(GetHierStmt(h), map[]).Failed? ==> res == null
    ensures db(GetHierStmt(h), map[]).Cursor? ==>
              && res != null && fresh(res)
              && HasFirstRowFields(res, db(GetHierStmt(h), map[]).rows)
              && res.breadcrumbs == []
              && (err.None? ==> Views(res.children) == ChildElements(db, h, res.id, codelistURL))
  {
    res, err := QueryResponse(h, GetHierStmt(h), map[], db, codelistURL);
  }

  /** `GetCode`: the node with code `code`, its children and its
      breadcrumbs.  Breadcrumbs are fetched only when the node and its
      children were; otherwise that error comes back as it was. */
  method GetCode(h: Hierarchy, code: string, db: Database, codelistURL: string) returns (res: Response?, err: Option<Error>)
    requires FirstRowTyped(db(GetCodeStmt(h), CodeArgs(code)))
    requires ChildrenTyped(db, h)
    requires RowsTyped(db(GetAncestryStmt(h), CodeArgs(code)))
    ensures var q := db(GetCodeStmt(h), CodeArgs(code));
            && (q.Failed? ==> res == null && err == ResponseError(h, q, db))
            && (q.Cursor? ==>
                  && res != null && fresh(res)
                  && HasFirstRowFields(res, q.rows)
                  && (ResponseError(h, q, db).Some? ==> err == ResponseError(h, q, db) && res.breadcrumbs == [])
                  && (ResponseError(h, q, db).None? ==>
                        var aq := db(GetAncestryStmt(h), CodeArgs(code));
                        && Views(res.children) == ChildElements(db, h, res.id, codelistURL)
                        && (aq.Failed? ==> err == Some(Driver(aq.err)) && res.breadcrumbs == [])
                        && (aq.Cursor? ==>
                              && err == None
                              && Views(res.breadcrumbs) == FixRootSelf(RowElements(aq.rows, h, codelistURL), h.url))))
  {
    res, err := QueryResponse(h, GetCodeStmt(h), CodeArgs(code), db, codelistURL);
    if err.Some? {
      return;
    }
    res.breadcrumbs, err := GetAncestry(h, code, db, codelistURL);
  }
}
