# dp-hierarchy-api in Dafny

A model of the core of the ONS hierarchy API, a Go service that serves
hierarchies of codes stored in a graph database, together with the
properties proved about it. It is organised as one Dafny module per Go
package.

- `GoStrings` (`gostrings.dfy`) models the parts of Go's `strings` package
  the service relies on: `Split` (with `Split("", ".") == [""]`), `Join`,
  `Contains`, and counting dot-separated segments.
- `Models` (`models.dfy`) models `models/response.go`:
  - `GetLink` builds a link.
  - `Element.AddLinks` and `Response.AddLinks` write the `self` and
    `codelist` links into the records' link maps in place.
- `Store` (`store/neo4j.go`):
  - The statement templates, scoped to the namespace label
    `_hierarchy_node_<instance>_<dimension>`.
  - The code-list lookup.
  - The row loops of `queryResponse` and `queryElements`.
  - The breadcrumb fix of `getAncestry`.
  - `GetHierarchy` and `GetCode`.
  - The database driver is a function from a statement and its arguments
    to either a failure or a cursor over rows.
- `Api` (`api/api.go`):
  - The two handlers, as functions from what the store returned to the
    status, content type and link decoration of the reply.
  - The field-for-field copy of store records into API records.
- `LegacyResponse` (`response/response.go`): the legacy response shaping.
  It covers filtering children by segment count, the code-list URL, the
  single parent, and URL rewriting.
- `Stubs` (`stubs/hierarchy.go`): the legacy in-memory hierarchy builder.
  - It covers `upsert`, `addChildren`/`addParents` and
    `GenerateHierarchy`, as methods over a map of heap nodes.
  - The methods are proved against a table of plain values, `Generated`,
    which is the links the three loops leave.
- `Validation` (`validate/validate.go`): the legacy check of the levels of
  a request path against that hierarchy. It writes 400 or 404 to a
  response-writer sink.

Where the packages come from different revisions of the service, each is
modelled against its own text. `api/api.go` copies `NoOfChildren` and
`Order` through records of the graph library, which are not shown. Those
records are modelled from the fields it reads. `store/neo4j.go` writes a
`NoOfChildren` field that `models/response.go` does not declare, so the
model's `Models.Response` has that field.

Two quirks of `store/neo4j.go` are reproduced:

- `queryResponse`'s row loop only ends on a non-nil error. The "got no
  rows" check is therefore dead. No rows and a clean end fetch the children
  of the empty code and report no error of their own: only the children
  query's error can come back.
- The `err` that `queryElements` tests after its loop is not the loop's.
  A cursor that fails part-way gives the rows read so far and no error.

## Model

| member | source | states |
|---|---|---|
| GoStrings.Split | validate/validate.go:58 | `strings.Split` on one separator: at least one piece, none holding the separator |
| GoStrings.JoinSplit | stubs/hierarchy.go:41-45 | joining the pieces of a split gives the string back |
| GoStrings.SplitJoin | stubs/hierarchy.go:41-45 | splitting the join of separator-free pieces gives the pieces back |
| GoStrings.SplitCount | response/response.go:35 | the number of segments is one more than the number of separators |
| GoStrings.SingleSegment | stubs/hierarchy.go:52 | one segment exactly when there is no separator, so "contains a dot" and "more than one segment" agree |
| GoStrings.DropLastRecompose | response/response.go:77-78 | dropping the last `/` segment and re-adding it gives the string back; with no separator the result is empty |
| GoStrings.AppendSegment | response/response.go:77-78 | appending one separator-free segment, then dropping the last segment, gives the base back |
| GoStrings.FirstWordRest | stubs/hierarchy.go:41-45 | a label is its first word, a space, and the remaining words joined by single spaces |
| Models.CodelistBase | models/response.go:5 | definition: `codelistFormat` filled in with the code-list URL and id; its shape is stated by CodelistBaseSegments |
| Models.CodelistBaseSegments | models/response.go:44 | read back from the end, the codes collection is `code`, below the code list's id, below the API's `code-list` collection |
| Models.GetLink | models/response.go:59-66 | the link's id is `id`; the href is the base when the id is empty, otherwise base + "/" + id |
| Models.GetLinkSegments | models/response.go:63-65 | a link's href ends in its id as its last path segment, below the base |
| Models.ElementLinks | models/response.go:51-57 | an element's links gain `self` = GetLink(url, id) and `codelist` = GetLink(code-list base, id); every other key is kept |
| Models.ResponseLinks | models/response.go:35-44 | the root's `self` is the bare hierarchy URL, any other node's is its element link; `codelist` is the same either way; other keys are kept |
| Models.ElementLinksIdempotent | models/response.go:51-57 | adding element links twice gives the links of adding them once |
| Models.EmptyIdElementLinks | models/response.go:55-56 | an element with an empty id links `self` to the hierarchy URL and `codelist` to the bare code-list base |
| Models.Element.constructor | store/neo4j.go:239-244 | a new element carries the given fields and no links |
| Models.Element.AddLinks | models/response.go:51-57 | the links become ElementLinks of the old links, in place |
| Models.Response.constructor | store/neo4j.go:157 | a new response has every field zero |
| Models.Response.AddLinks | models/response.go:35-48 | the response's links become ResponseLinks; every child's links become its ElementLinks; breadcrumbs that are not children keep their links |
| Store.NamespaceLabel | store/neo4j.go:18-22 | definition: `_hierarchy_node_` + instance id + `_` + dimension; stated by StatementsScoped and NamespaceLabelInjective |
| Store.ExistStmt | store/neo4j.go:18 | definition: the existence statement over the namespace label |
| Store.GetHierStmt | store/neo4j.go:19 | definition: the statement for the node with no parent |
| Store.GetCodeStmt | store/neo4j.go:20 | definition: the statement for the node with a given code |
| Store.GetChildrenStmt | store/neo4j.go:21 | definition: the statement for a node's children, ordered by label |
| Store.GetAncestryStmt | store/neo4j.go:22 | definition: the statement for a node's ancestors |
| Store.StatementsScoped | store/neo4j.go:16-23 | every statement names the hierarchy's namespace label in back-quotes |
| Store.NamespaceLabelInjective | store/neo4j.go:18-22 | the label determines instance and dimension when the instance id has no underscore |
| Store.NamespaceLabelAmbiguous | store/neo4j.go:18-22 | with an underscore in the instance id, two hierarchies share a label |
| Store.NextNeo | store/neo4j.go:161 | the cursor yields nil exactly while rows remain |
| Store.GetProps | store/neo4j.go:98-123 | a failed query or closing error is returned; no rows give nil; otherwise the first row |
| Store.GetCodelist | store/neo4j.go:84-96 | an error exactly when the query or its rows fail; no rows give "" and no error; otherwise the first row's `code_list` |
| Store.RowElement | store/neo4j.go:238-245 | definition: the element of one row, its four typed properties copied and element links added; QueryElements is proved against it |
| Store.QueryElements | store/neo4j.go:210-259 | a failed query gives no elements and its error; a cursor gives one fresh element per row, in row order, with links, and no error, whatever its closing error |
| Store.GetChildren | store/neo4j.go:191-194 | the elements of the children query of the code |
| Store.FixRootSelf | store/neo4j.go:202-205 | only the last element's `self` link changes, to the hierarchy URL with its id kept; other keys and elements unchanged |
| Store.AncestrySelfLinks | store/neo4j.go:197-207 | each breadcrumb links to itself under the hierarchy URL, except the root, whose `self` href is the hierarchy URL |
| Store.GetAncestry | store/neo4j.go:197-207 | the ancestry query's elements with the root's `self` fixed; a failed query gives its error and no elements |
| Store.ResponseError | store/neo4j.go:161-188 | never "no rows"; two rows give "more than one row"; otherwise the cursor's closing error unless it is EOF, then the children query's error |
| Store.ReadSingleRow | store/neo4j.go:158-182 | the loop copies the first row's fields and always ends with an error: "more than one row" or the cursor's own |
| Store.QueryResponse | store/neo4j.go:143-189 | a failed query gives no response; otherwise a fresh response with the first row's fields (zero with no rows), and the children of its code unless an error is returned |
| Store.ReadNode | store/neo4j.go:157-188 | the part of `queryResponse` after a successful query, with the same contract |
| Store.GetHierarchy | store/neo4j.go:126-129 | `queryResponse` on the root statement |
| Store.GetCode | store/neo4j.go:132-140 | breadcrumbs are fetched only after `queryResponse` succeeds; its error is returned unchanged otherwise |
| Api.MapHierarchyElements | api/api.go:174-191 | a field-for-field copy of every element in order; nil for no elements |
| Api.MapHierarchyResponse | api/api.go:160-172 | copies the node's fields and maps both lists element-wise |
| Api.CodelistStatus | api/api.go:52-62 | 500 for a store failure other than not-found; 404 for not-found or an empty code-list id; otherwise go on |
| Api.Decorated | api/api.go:73-94 | links are asked for with the code list, root flag and rewriting flag; 200 with a JSON content type exactly when marshalling succeeds, else 500 |
| Api.HierarchiesHandler | api/api.go:42-95 | 404, 500 and 200 exactly in their cases, every root-fetch error included in 500; links asked for as the root |
| Api.CodesHandler | api/api.go:97-158 | 404 also for a node that is not found or has an empty label; 500 for any other fetch error; links asked for as a non-root node |
| Api.CodelistDecidesFirst | api/api.go:52-69 | while the code list is not found, the node fetch makes no difference and there is no 200 |
| Api.RewritingKeepsStatus | api/api.go:73-79 | URL rewriting never changes the status |
| LegacyResponse.Elements.constructor | response/response.go:39-44 | a new element holds the given fields, no count and no URL |
| LegacyResponse.Keeps | response/response.go:35-37 | definition: a code is dropped when the level label is non-empty and has fewer segments; KeptMembers states the filter with it |
| LegacyResponse.ElementOf | response/response.go:39-48 | definition: the element of a kept node, its count copied only for an empty level label and a code without exactly three segments |
| LegacyResponse.Shaped | response/response.go:30-53 | definition: the elements `addElements` returns, as values; AddElements is proved equal to it and ShapedKept relates it to Kept |
| LegacyResponse.Kept | response/response.go:34-37 | the nodes kept are a sub-list of the input |
| LegacyResponse.KeptMembers | response/response.go:35-37 | a node is kept exactly when it is in the input and has no more segments than a non-empty level label |
| LegacyResponse.KeptAll | response/response.go:57-59 | with no level label nothing is dropped |
| LegacyResponse.KeptIdempotent | response/response.go:35-37 | filtering twice by the same label drops nothing more |
| LegacyResponse.ShapedSnoc | response/response.go:32-50 | one loop step appends the element of a kept node and skips a wrongful parent |
| LegacyResponse.ShapedKept | response/response.go:30-53 | the elements are those of the kept nodes, one for one and in order |
| LegacyResponse.AddElements | response/response.go:30-54 | a distinct fresh element per kept node, in order, with id, codes, label, code-list URL and count as ElementOf gives them |
| LegacyResponse.AddElement | response/response.go:34-50 | the loop body appends the element of a kept node and nothing for a dropped one |
| LegacyResponse.CodeListURLId | response/response.go:43 | an element's code-list URL ends in its id, below the fixed codes collection |
| LegacyResponse.Response.constructor | response/response.go:11-18 | a new response has no children, no parent and no URL |
| LegacyResponse.Response.AddChildren | response/response.go:57-60 | one child element per node, none dropped, each with its count unless its code has three segments |
| LegacyResponse.Response.AddParent | response/response.go:63-72 | exactly one survivor becomes the parent and nothing is reported; otherwise the parent is kept and the survivors are reported |
| LegacyResponse.Response.AddLinks | response/response.go:75-88 | the parent's URL is `base` one segment up; with a code of fewer than two segments each child's URL is base + "/" + its code; the URL is `base`; no other field changes |
| LegacyResponse.SetURLs | response/response.go:81-85 | every child's URL becomes base + "/" + its code and nothing else changes |
| LegacyResponse.ChildURLUnderBase | response/response.go:83 | a child's URL is the response's URL one segment deeper, that segment being the child's code |
| Stubs.Upserted | stubs/hierarchy.go:88-96 | the list itself when the item is in it, else the item appended; adds at most one element |
| Stubs.UpsertedIdempotent | stubs/hierarchy.go:88-96 | upserting twice is upserting once |
| Stubs.UpsertedDistinct | stubs/hierarchy.go:88-96 | upsert never makes an item appear twice |
| Stubs.Upsert | stubs/hierarchy.go:88-96 | the search-and-append loop returns Upserted |
| Stubs.Output.constructor | stubs/hierarchy.go:42-46 | a new node has its id, code and label, level 0 and no links |
| Stubs.Output.AddChildren | stubs/hierarchy.go:21-26 | the child's links are cleared, then the child is appended to the children |
| Stubs.Output.AddParents | stubs/hierarchy.go:27-32 | the parent's links are cleared, then the parent is appended to the parents |
| Stubs.KeyOf | stubs/hierarchy.go:41-44 | definition: the first space-separated word of a label, the node's key and label code |
| Stubs.RestOf | stubs/hierarchy.go:45 | definition: the remaining words joined by single spaces; FirstWordRest shows the two reassemble the label |
| Stubs.Labels | stubs/hierarchy.go:39-47 | the first loop leaves one entry per label code |
| Stubs.LabelsLastWins | stubs/hierarchy.go:40-46 | each code is left with the last entry that has it |
| Stubs.LabelsKeyed | stubs/hierarchy.go:41-44 | each code is left with an entry whose first word is that code |
| Stubs.LabelsStep | stubs/hierarchy.go:40-46 | one loop step overwrites the entry of its code |
| Stubs.Labelled | stubs/hierarchy.go:39-47 | one node per label code |
| Stubs.LabelledUnlinked | stubs/hierarchy.go:42-46 | every new node has level 0 and no links |
| Stubs.TopLevelKeys | stubs/hierarchy.go:51-59 | the codes without a dot, other than the root, in visiting order |
| Stubs.LinkToRoot | stubs/hierarchy.go:52-58 | definition: one second-loop step; LinkTopLevelLinks and Rooted state what the loop of these steps leaves |
| Stubs.LinkTopLevel | stubs/hierarchy.go:51-59 | the second loop keeps the key set |
| Stubs.LinkTopLevelSnoc | stubs/hierarchy.go:51-59 | one more key visited by the second loop |
| Stubs.Leveled | stubs/hierarchy.go:49-61 | the first two loops and the root count keep the key set |
| Stubs.LinkTopLevelLinks | stubs/hierarchy.go:51-59 | the root gains the top-level codes as children in order; each gets level 1 and the root as a parent; other codes are unchanged |
| Stubs.Rooted | stubs/hierarchy.go:49-61 | the root has level 0 and exactly the top-level codes as children, each once, counted; top-level codes have level 1 and the root as only parent; the rest are unlinked |
| Stubs.CompareOne | stubs/hierarchy.go:69-80 | definition: one comparison; CompareOneBase and CompareOneOther state its effect on each node |
| Stubs.CompareWith | stubs/hierarchy.go:68-81 | the inner loop keeps the key set |
| Stubs.CompareWithSnoc | stubs/hierarchy.go:68-81 | one more key compared with the base |
| Stubs.CompareBase | stubs/hierarchy.go:63-66 | a base visit keeps the key set |
| Stubs.CompareAll | stubs/hierarchy.go:63-83 | the third loop keeps the key set |
| Stubs.CompareAllSnoc | stubs/hierarchy.go:63-83 | one more base visited by the third loop |
| Stubs.Generated | stubs/hierarchy.go:35-86 | the finished table has one node per label code |
| Stubs.Matches | stubs/hierarchy.go:69-80 | the codes of an order that lie one level below the base, in order and without repeats |
| Stubs.CompareOneBase | stubs/hierarchy.go:69-80 | one comparison upserts the code into the base's children and counts it exactly when it lies one level below |
| Stubs.CompareOneOther | stubs/hierarchy.go:69-80 | one comparison sets a related code's level to its segment count and upserts the base into its parents when it lies below |
| Stubs.CompareWithKeepsLevel | stubs/hierarchy.go:68-81 | the inner loop leaves the base's level alone |
| Stubs.CompareWithBase | stubs/hierarchy.go:68-81 | the inner loop appends the matching codes to the base's children in order and counts each |
| Stubs.CompareWithBaseStep | stubs/hierarchy.go:68-81 | the inductive step of CompareWithBase |
| Stubs.CompareWithOther | stubs/hierarchy.go:68-81 | every other visited related code gets its segment level, and the base as a parent when below it |
| Stubs.CompareWithOtherStep | stubs/hierarchy.go:68-81 | the inductive step of CompareWithOther |
| Stubs.CompareWithKeeps | stubs/hierarchy.go:68-81 | the inner loop leaves the children and count of every other code alone |
| Stubs.CompareAllKeeps | stubs/hierarchy.go:63-83 | only visited non-root bases change their children and count |
| Stubs.CompareAllLinks | stubs/hierarchy.go:63-83 | under the segment level, each base's children are its matches, each once, with the count matching |
| Stubs.IntendedChildren | stubs/hierarchy.go:63-83 | with the level each code spells out, children are exactly the codes one level below, each once and counted, whatever the visiting order |
| Stubs.ClassVisited | stubs/hierarchy.go:73-80 | a class visited as a base before its division takes the division as a child |
| Stubs.DivisionVisited | stubs/hierarchy.go:73-80 | the division visited next takes the class as a child as well |
| Stubs.TwoBasesThenRoot | stubs/hierarchy.go:63-83 | the third loop over two bases and the root is the two inner loops |
| Stubs.StoredLevelCycle | stubs/hierarchy.go:69-80 | as written, a class visited first and its division become each other's child; with the segment level the division is not the class's child |
| Stubs.SampleKeys | stubs/hierarchy.go:39-47 | the sample's codes are CPI, 01 and 01.1 |
| Stubs.SampleSegments | stubs/hierarchy.go:73 | 01 has one segment and 01.1 two |
| Stubs.SampleRelations | stubs/hierarchy.go:52 | 01 is top-level, 01.1 is not, and 01.1 contains 01 |
| Stubs.SampleOrders | stubs/hierarchy.go:51 | two visiting orders of the sample's keys |
| Stubs.SampleClassFirst | stubs/hierarchy.go:63-80 | the sample visited class first meets the conditions of StoredLevelCycle |
| Stubs.CodesOfUpserted | stubs/hierarchy.go:78-79 | upserting a node upserts its code when codes identify nodes |
| Stubs.CodesOfAppend | stubs/hierarchy.go:57-58 | appending a node appends its code |
| Stubs.SetLevel | stubs/hierarchy.go:74 | the node's level is written and the map still represents the table |
| Stubs.SetCount | stubs/hierarchy.go:77 | the node's count is written |
| Stubs.SetChildren | stubs/hierarchy.go:78 | the node's children are written |
| Stubs.SetParents | stubs/hierarchy.go:79 | the node's parents are written |
| Stubs.AppendChild | stubs/hierarchy.go:57 | the child's code is appended to the node's children in the table |
| Stubs.AppendParent | stubs/hierarchy.go:58 | the parent's code is appended to the node's parents in the table |
| Stubs.UpsertChild | stubs/hierarchy.go:78 | the child's code is upserted into the node's children in the table |
| Stubs.UpsertParent | stubs/hierarchy.go:79 | the parent's code is upserted into the node's parents in the table |
| Stubs.LabelCodes | stubs/hierarchy.go:39-47 | a fresh node per label code carrying the last entry with it, unlinked, each stored under its own code |
| Stubs.LinkNodeToRoot | stubs/hierarchy.go:52-58 | one second-loop step links a top-level code below the root |
| Stubs.LinkToRootAttaches | stubs/hierarchy.go:52-58 | that step is the three writes of level, root children and parents |
| Stubs.AttachToRoot | stubs/hierarchy.go:56-58 | the three writes in source order |
| Stubs.LinkUnderRoot | stubs/hierarchy.go:51-59 | the second loop leaves the nodes as LinkTopLevel says |
| Stubs.CompareOneLinks | stubs/hierarchy.go:73-80 | a linking comparison sets the level, then writes count, children and parents |
| Stubs.CompareOneLevels | stubs/hierarchy.go:73-76 | a non-linking comparison only sets the level |
| Stubs.LinkCompared | stubs/hierarchy.go:76-80 | the count, children and parents writes, in source order |
| Stubs.CompareNode | stubs/hierarchy.go:69-80 | one inner-loop step does what CompareOne says |
| Stubs.LinkBelow | stubs/hierarchy.go:68-81 | the inner loop does what CompareWith says |
| Stubs.LinkRelated | stubs/hierarchy.go:63-83 | the third loop does what CompareAll says |
| Stubs.LinkRoot | stubs/hierarchy.go:49-61 | the root level, the second loop and the root count do what Leveled says |
| Stubs.GenerateHierarchy | stubs/hierarchy.go:35-86 | fresh nodes, one per code, stored under their codes, labelled from the last entry, linked as Generated under the stored level says |
| Validation.ResponseWriter.WriteHeader | validate/validate.go:61 | the status is appended to those written |
| Validation.ScanLevel2 | validate/validate.go:57-72 | definition: the search over the children's codes, first to last; ScanFound and ScanMissing characterise its outcomes |
| Validation.ScanFound | validate/validate.go:57-68 | the search succeeds exactly when some child matches and every child before it has two segments |
| Validation.ScanMissing | validate/validate.go:57-72 | the search finds nothing exactly when every child has two segments and none matches |
| Validation.ScanWellFormed | validate/validate.go:57-68 | with well-formed children, found exactly when some child matches, and never malformed |
| Validation.Level2Status | validate/validate.go:59-72 | no status exactly when found; 400 when malformed; 404 when missing |
| Validation.Written | validate/validate.go:55-73 | at most one status is written |
| Validation.Decide | validate/validate.go:21-44 | success needs a first level below the root and writes nothing; a status is written only with two levels, and is 400 or 404 |
| Validation.DecideIgnoresDeeperLevels | validate/validate.go:31-43 | levels beyond the second are never looked at |
| Validation.FirstLevelStored | validate/validate.go:47-57 | a first level below the root is itself a key of the hierarchy |
| Validation.Request.constructor | validate/validate.go:12-16 | a request holds its id and writer |
| Validation.Request.Validate | validate/validate.go:21-44 | the result and the statuses written are Decide's |
| Validation.Request.ValidateLevel1 | validate/validate.go:46-53 | true exactly when some child of the request's node has the level as its code; nothing written |
| Validation.Request.ValidateLevel2 | validate/validate.go:55-73 | the search result, with its status written: none when found, 400 when malformed, 404 when missing |

## Left out

- `Store.Ping`, `Store.Close` and `New`: the connection pool, goroutines, channels, context cancellation and the ping debounce are concurrency and time.
- The bolt driver is a `Database` parameter. Opening a connection and running a query are one failure case. Closing rows and their errors are not modelled, since they are only logged.
- The Go type assertions on row properties (`.(string)`, `.(bool)`, `.(int64)`, `.(graph.Node)`) are preconditions (`RowsTyped`, `FirstRowTyped`, `ChildrenTyped`, `CodelistTyped`), not panics.
- All logging, JSON marshalling and `omitempty` rendering. The body bytes and `w.Write` are left out.
- Api.HierarchiesHandler: does not model the 500 written by `http.Error` after a failed `w.Write`, because that write goes to a foreign writer after the 200 header.
- Api.CodesHandler: does not model the 500 written by `http.Error` after a failed `w.Write`, for the same reason.
- `links.FromHeadersOrDefault`, `AddLinks` and `AddLinksWithRewriting` as called from `api/api.go` are library code of another revision. The handlers only record that links were asked for, and with which arguments.
- `main`, `health`, `config` and `stubs/generators` are process start-up, HTTP health checks, environment loading and file I/O.
- The embedded code list of `stubs/stubs.go` is a parameter of `GenerateHierarchy`.
- Go's map iteration order in `GenerateHierarchy` is unspecified. It is modelled by explicit order parameters (`cpiOrder`, `bases`, `orders`), each a permutation of the keys (`Orders`).
- `Stubs.GenerateHierarchy` requires the code list to contain `CPI`. Without it, Go writes through a nil pointer and panics at the root's level assignment.
- Validation.Request.Validate: requires the request id to be a key of the hierarchy when at least one level is given, because Go's lookup of a missing key gives a nil node whose children it then reads, which panics; with no levels it returns false before the lookup.
- Validation.Request.ValidateLevel1: requires the request id to be a key of the hierarchy, for the same reason.
- Validation.Request.ValidateLevel2: requires `level1` to be a key, for the same reason. `Validate` only calls it after the first level was found below the root, which `FirstLevelStored` shows to be a key.
- The package-level `hierarchy` of `validate/validate.go` and `CodelistURL` of `models/response.go` are parameters.
- Integers are unbounded. The `int64` child counts and `NoOfChildren++` do not wrap.
- A nil link map and an empty one are the same map. Nil entries in slices of pointers are not modelled, and neither is the `Hierarchy` field of `models.Response`, which the core never writes.

## Findings

| source | as written | input that shows it | evidently intended | confidence | as-written member | corrected member |
|---|---|---|---|---|---|---|
| stubs/hierarchy.go:69-80 | the level compared against is the one stored in the base node, which is still 0 for a class no earlier base has reached | codes `CPI`, `01`, `01.1`, with `range` visiting the base `01.1` before `01`: `01` becomes a child of `01.1` and `01.1` a child of `01` | a code is a child of a base whose key has one segment fewer, whatever the visiting order | not executed | Stubs.StoredLevelCycle | Stubs.IntendedChildren |
