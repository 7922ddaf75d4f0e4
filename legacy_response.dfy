/** response/response.go: the legacy response shaping over the stub
    hierarchy.  A response lists a node's children and its single parent as
    `Elements`, each pointing at the code in a fixed code list, and carries
    the URLs a client follows to walk the hierarchy. */
module LegacyResponse {
  import opened GoStrings
  import opened Outcomes
  import Stubs

  /** The codes collection of the one code list the legacy API serves. */
  const CodeListPrefix := "/code-lists/e44de4c4-d39e-4e2f-942b-3ca10584d078/codes/"

  /** A snapshot of an `Elements`' fields. */
  datatype ElementsData = ElementsData(
    id: string, labelCode: string, labelText: string, noOfChildren: int, codeListURL: string, url: string)

  /** `response.Elements`: a child or the parent within a response. */
  class Elements {
    var id: string
    var labelCode: string
    var labelText: string
    var noOfChildren: int
    var codeListURL: string
    var url: string

    /** `&Elements{ID: id, Label: labelText, LabelCode: labelCode, CodeListURL: codeListURL}`. */
    constructor (id: string, labelCode: string, labelText: string, codeListURL: string)
      ensures View() == ElementsData(id, labelCode, labelText, 0, codeListURL, "")
    {
      this.id, this.labelCode, this.labelText := id, labelCode, labelText;
      this.codeListURL := codeListURL;
      noOfChildren, url := 0, "";
    }

    function View(): ElementsData
      reads this
    {
      ElementsData(id, labelCode, labelText, noOfChildren, codeListURL, url)
    }
  }

  /** The views of a list of elements. */
  function Views(list: seq<Elements>): (r: seq<ElementsData>)
    reads list
    ensures |r| == |list| && forall i | 0 <= i < |list| :: r[i] == list[i].View()
  {
    seq(|list|, i reads list requires 0 <= i < |list| => list[i].View())
  }

  // ---------------------------------------------------------------------
  // addElements

  /** Whether `addElements` keeps a node with label code `code`: with a
      non-empty `levelLabel` (the code of the level being asked for), a code
      with more segments than that is a wrongful parent and is dropped. */
  predicate Keeps(levelLabel: string, code: string)
  {
    !(|levelLabel| != 0 && Segments(levelLabel) < Segments(code))
  }

  /** The nodes `addElements` keeps, in their original order. */
  function Kept(el: seq<Stubs.Output>, levelLabel: string): (r: seq<Stubs.Output>)
    ensures |r| <= |el| && forall v | v in r :: v in el
    decreases |el|
  {
    if el == [] then []
    else
      var n := |el| - 1;
      if Keeps(levelLabel, el[n].labelCode) then Kept(el[..n], levelLabel) + [el[n]] else Kept(el[..n], levelLabel)
  }

  /** The element `addElements` makes of a node it keeps: its id, levelLabel code
      and levelLabel, the code-list URL of its id, and its number of children
      only for a list of children (empty `levelLabel`) and a code that does not
      have exactly three segments. */
  function ElementOf(v: Stubs.Output, levelLabel: string): (e: ElementsData)
    reads v
  {
    ElementsData(v.id, v.labelCode, v.labelText,
                 if |levelLabel| == 0 && Segments(v.labelCode) != 3 then v.noOfChildren else 0,
                 CodeListPrefix + v.id, "")
  }

  /** What `addElements` returns, as values. */
  function Shaped(el: seq<Stubs.Output>, levelLabel: string): (r: seq<ElementsData>)
    reads el
    decreases |el|
  {
    if el == [] then []
    else
      var n := |el| - 1;
      if Keeps(levelLabel, el[n].labelCode) then Shaped(el[..n], levelLabel) + [ElementOf(el[n], levelLabel)]
      else Shaped(el[..n], levelLabel)
  }

  /** One more node visited by the loop of `addElements`. */
  lemma ShapedSnoc(el: seq<Stubs.Output>, levelLabel: string, i: nat)
    requires i < |el|
    ensures Shaped(el[..i + 1], levelLabel)
            == if Keeps(levelLabel, el[i].labelCode) then Shaped(el[..i], levelLabel) + [ElementOf(el[i], levelLabel)]
               else Shaped(el[..i], levelLabel)
  {
    assert el[..i + 1][..i] == el[..i];
  }

  /** The elements `addElements` makes are those of the kept nodes, one
      for one and in order. */
  lemma {:induction false} ShapedKept(el: seq<Stubs.Output>, levelLabel: string)
    ensures |Shaped(el, levelLabel)| == |Kept(el, levelLabel)|
    ensures forall i | 0 <= i < |Kept(el, levelLabel)| ::
              Shaped(el, levelLabel)[i] == ElementOf(Kept(el, levelLabel)[i], levelLabel)
    decreases |el|
  {
    if el != [] {
      ShapedKept(el[..|el| - 1], levelLabel);
    }
  }

  /** `addElements`: a fresh element per kept node, in order. */
  method AddElements(el: seq<Stubs.Output>, levelLabel: string) returns (list: seq<Elements>)
    ensures Views(list) == Shaped(el, levelLabel)
    ensures forall i | 0 <= i < |list| :: fresh(list[i])
    ensures forall i, j | 0 <= i < j < |list| :: list[i] != list[j]
  {
    list := [];
    for i := 0 to |el|
      invariant Views(list) == Shaped(el[..i], levelLabel)
      invariant forall j | 0 <= j < |list| :: fresh(list[j])
      invariant forall j, k | 0 <= j < k < |list| :: list[j] != list[k]
    {
      ShapedSnoc(el, levelLabel, i);
      list := AddElement(list, el[i], levelLabel);
    }
    assert el[..|el|] == el;
  }

  /** The body of the loop of `addElements`: the element of a node it keeps
      is appended, a wrongful parent is skipped. */
  method AddElement(list: seq<Elements>, v: Stubs.Output, levelLabel: string) returns (r: seq<Elements>)
    requires forall j, k | 0 <= j < k < |list| :: list[j] != list[k]
    ensures Views(r) == Views(list) + if Keeps(levelLabel, v.labelCode) then [ElementOf(v, levelLabel)] else []
    ensures forall j | 0 <= j < |r| :: j < |list| || fresh(r[j])
    ensures |list| <= |r| && r[..|list|] == list
    ensures forall j, k | 0 <= j < k < |r| :: r[j] != r[k]
  {
    if |levelLabel| != 0 && Segments(levelLabel) < Segments(v.labelCode) {
      return list;
    }
    var e := new Elements(v.id, v.labelCode, v.labelText, CodeListPrefix + v.id);
    if |levelLabel| == 0 && Segments(e.labelCode) != 3 {
      e.noOfChildren := v.noOfChildren;
    }
    r := list + [e];
  }

  /** A node is kept exactly when it is in the input and its code has no
      more segments than a non-empty levelLabel. */
  lemma {:induction false} KeptMembers(el: seq<Stubs.Output>, levelLabel: string, v: Stubs.Output)
    ensures v in Kept(el, levelLabel) <==> v in el && Keeps(levelLabel, v.labelCode)
    decreases |el|
  {
    if el != [] {
      var n := |el| - 1;
      assert el == el[..n] + [el[n]];
      KeptMembers(el[..n], levelLabel, v);
    }
  }

  /** Without a levelLabel nothing is dropped. */
  lemma {:induction false} KeptAll(el: seq<Stubs.Output>)
    ensures Kept(el, "") == el
    decreases |el|
  {
    if el != [] {
      var n := |el| - 1;
      KeptAll(el[..n]);
      assert el[..n] + [el[n]] == el;
    }
  }

  /** Filtering twice by the same levelLabel drops nothing more. */
  lemma {:induction false} KeptIdempotent(el: seq<Stubs.Output>, levelLabel: string)
    ensures Kept(Kept(el, levelLabel), levelLabel) == Kept(el, levelLabel)
    decreases |el|
  {
    if el != [] {
      var n := |el| - 1;
      var prev := Kept(el[..n], levelLabel);
      KeptIdempotent(el[..n], levelLabel);
      if Keeps(levelLabel, el[n].labelCode) {
        var k := prev + [el[n]];
        assert k[..|k| - 1] == prev;
      }
    }
  }

  /** The code-list URL of an element leads back to its id: the id is its
      last path segment, and dropping it leaves the codes collection. */
  lemma CodeListURLId(id: string)
    requires '/' !in id
    ensures LastSegment(CodeListPrefix + id, '/') == id
    ensures DropLastSegment(CodeListPrefix + id, '/') == CodeListPrefix[..|CodeListPrefix| - 1]
  {
    var collection := CodeListPrefix[..|CodeListPrefix| - 1];
    assert CodeListPrefix + id == collection + ['/'] + id;
    AppendSegment(collection, id, '/');
  }

  // ---------------------------------------------------------------------
  // Response

  /** `response.Response`: a node of the stub hierarchy with its children,
      its parent (`None` for Go's nil) and its URL. */
  class Response {
    var id: string
    var labelCode: string
    var labelText: string
    var children: seq<Elements>
    var parent: Option<Elements>
    var url: string

    constructor (id: string, labelCode: string, labelText: string)
      ensures this.id == id && this.labelCode == labelCode && this.labelText == labelText
      ensures children == [] && parent == None && url == ""
    {
      this.id, this.labelCode, this.labelText := id, labelCode, labelText;
      children, parent, url := [], None, "";
    }

    /** `Response.AddChildren`: every node becomes a child element, none is
        dropped. */
    method AddChildren(el: seq<Stubs.Output>)
      modifies this`children
      ensures |children| == |el| && Views(children) == Shaped(el, "")
      ensures forall i | 0 <= i < |children| :: fresh(children[i])
    {
      children := AddElements(el, "");
      KeptAll(el);
      ShapedKept(el, "");
    }

    /** `Response.AddParent`: the nodes that survive the filter by `levelLabel`
        become the parent when there is exactly one of them, and nothing is
        reported; otherwise the parent is left alone and the survivors are
        reported. */
    method AddParent(el: seq<Stubs.Output>, levelLabel: string) returns (report: Option<seq<Elements>>)
      modifies this`parent
      ensures |Kept(el, levelLabel)| == 1 ==>
                report == None && parent.Some? && fresh(parent.value)
                && parent.value.View() == ElementOf(Kept(el, levelLabel)[0], levelLabel)
      ensures |Kept(el, levelLabel)| != 1 ==>
                report.Some? && Views(report.value) == Shaped(el, levelLabel) && parent == old(parent)
    {
      var p := AddElements(el, levelLabel);
      ShapedKept(el, levelLabel);
      if |p| != 1 {
        return Some(p);
      }
      parent := Some(p[0]);
      return None;
    }

    /** `Response.AddLinks`: the parent's URL is `base` one segment up; a
        response whose code has fewer than two segments gives each child the
        URL of its code below `base`; the response's own URL is `base`.  A
        parent that is also such a child ends up with the child's URL, the
        later write. */
    method AddLinks(base: string)
      modifies this`url, children, if parent.Some? then {parent.value} else {}
      ensures url == base
      ensures Segments(labelCode) < 2 ==>
                forall i | 0 <= i < |children| :: children[i].url == base + "/" + children[i].labelCode
      ensures parent.Some? && (parent.value !in children || Segments(labelCode) >= 2) ==>
                parent.value.url == DropLastSegment(base, '/')
      ensures Segments(labelCode) >= 2 ==>
                forall e: Elements | e in children && !(parent.Some? && e == parent.value) :: e.url == old(e.url)
      ensures forall e: Elements | e in children || (parent.Some? && e == parent.value) ::
                e.View() == old(e.View()).(url := e.url)
    {
      if parent.Some? {
        parent.value.url := DropLastSegment(base, '/');
      }
      if Segments(labelCode) < 2 {
        SetURLs(children, base);
      }
      url := base;
    }
  }

  /** The loop of `Response.AddLinks`: each element's URL becomes its code
      below `base`.  An element listed twice is written twice with the same
      URL. */
  method SetURLs(children: seq<Elements>, base: string)
    modifies children
    ensures forall i | 0 <= i < |children| :: children[i].url == base + "/" + children[i].labelCode
    ensures forall e: Elements | e in children :: e.View() == old(e.View()).(url := e.url)
  {
    for k := 0 to |children|
      invariant forall i | 0 <= i < k :: children[i].url == base + "/" + children[i].labelCode
      invariant forall e: Elements | e in children :: e.View() == old(e.View()).(url := e.url)
    {
      children[k].url := base + "/" + children[k].labelCode;
    }
  }

  /** A child's URL is the response's URL one segment deeper: dropping its
      last segment gives the response's URL back, and that segment is the
      child's code. */
  lemma ChildURLUnderBase(base: string, code: string)
    requires '/' !in code
    ensures DropLastSegment(base + "/" + code, '/') == base
    ensures LastSegment(base + "/" + code, '/') == code
  {
    assert base + "/" + code == base + ['/'] + code;
    AppendSegment(base, code, '/');
  }
}
