/** validate/validate.go: the legacy check of the levels in a request path
    against the stub hierarchy.  The first level must be a child of the
    hierarchy's root node; a second level must be the second segment of a
    child of the first.  A failed second-level check answers the request
    with a status; a failed first-level check leaves the answer to the
    caller.

    The hierarchy, a package-level variable built by
    `stubs.GenerateHierarchy` in the service, is a parameter here, and the
    HTTP response writer is a sink that records the statuses written to it. */
module Validation {
  import opened GoStrings
  import opened Outcomes
  import Stubs

  const StatusBadRequest := 400
  const StatusNotFound := 404

  /** The statuses written to an HTTP response, in order. */
  class ResponseWriter {
    var statuses: seq<int>

    constructor ()
      ensures statuses == []
    {
      statuses := [];
    }

    /** `http.ResponseWriter.WriteHeader`. */
    method WriteHeader(status: int)
      modifies this
      ensures statuses == old(statuses) + [status]
    {
      statuses := statuses + [status];
    }
  }

  /** The label codes of a node's children, in order. */
  function ChildCodes(node: Stubs.Output): seq<string>
    reads node
  {
    Stubs.CodesOf(node.children)
  }

  // ---------------------------------------------------------------------
  // The second level.

  /** How the search of `validateLevel2` ends. */
  datatype Level2 = Found | Malformed | Missing

  /** A code of exactly two dot-separated segments. */
  predicate TwoSegments(code: string)
  {
    Segments(code) == 2
  }

  /** `validateLevel2`'s search over the children's codes, first to last: a
      code without exactly two segments ends it as malformed, a code whose
      second segment is `level2` ends it as found. */
  function ScanLevel2(codes: seq<string>, level2: string): (r: Level2)
    decreases |codes|
  {
    if codes == [] then Missing
    else if !TwoSegments(codes[0]) then Malformed
    else if Split(codes[0], '.')[1] == level2 then Found
    else ScanLevel2(codes[1..], level2)
  }

  /** A code `level2` matches: two segments, the second being `level2`. */
  predicate Matches(code: string, level2: string)
  {
    TwoSegments(code) && Split(code, '.')[1] == level2
  }

  /** The search finds `level2` exactly when some child matches it and every
      child before it has two segments. */
  lemma {:induction false} ScanFound(codes: seq<string>, level2: string)
    ensures ScanLevel2(codes, level2) == Found <==>
              exists i | 0 <= i < |codes| :: Matches(codes[i], level2) && forall j | 0 <= j < i :: TwoSegments(codes[j])
    decreases |codes|
  {
    if codes != [] {
      ScanFound(codes[1..], level2);
      if ScanLevel2(codes, level2) == Found && !Matches(codes[0], level2) {
        var i :| 0 <= i < |codes[1..]| && Matches(codes[1..][i], level2)
                 && forall j | 0 <= j < i :: TwoSegments(codes[1..][j]);
        assert Matches(codes[i + 1], level2);
        assert forall j | 0 <= j < i + 1 :: TwoSegments(codes[j]) by {
          forall j | 0 <= j < i + 1 ensures TwoSegments(codes[j]) {
            if j > 0 { assert codes[j] == codes[1..][j - 1]; }
          }
        }
      }
      if exists i | 0 <= i < |codes| :: Matches(codes[i], level2) && forall j | 0 <= j < i :: TwoSegments(codes[j]) {
        var i :| 0 <= i < |codes| && Matches(codes[i], level2) && forall j | 0 <= j < i :: TwoSegments(codes[j]);
        if i > 0 && TwoSegments(codes[0]) && !Matches(codes[0], level2) {
          assert Matches(codes[1..][i - 1], level2);
          assert forall j | 0 <= j < i - 1 :: TwoSegments(codes[1..][j]) by {
            forall j | 0 <= j < i - 1 ensures TwoSegments(codes[1..][j]) {
              assert codes[1..][j] == codes[j + 1];
            }
          }
        }
      }
    }
  }

  /** The search finds nothing exactly when every child has two segments
      and none matches. */
  lemma {:induction false} ScanMissing(codes: seq<string>, level2: string)
    ensures ScanLevel2(codes, level2) == Missing <==>
              forall i | 0 <= i < |codes| :: TwoSegments(codes[i]) && !Matches(codes[i], level2)
    decreases |codes|
  {
    if codes != [] {
      ScanMissing(codes[1..], level2);
      assert forall i | 1 <= i < |codes| :: codes[i] == codes[1..][i - 1];
    }
  }

  /** Once every child has two segments, the search finds `level2` exactly
      when some child matches it. */
  lemma ScanWellFormed(codes: seq<string>, level2: string)
    requires forall i | 0 <= i < |codes| :: TwoSegments(codes[i])
    ensures ScanLevel2(codes, level2) == Found <==> exists i | 0 <= i < |codes| :: Matches(codes[i], level2)
    ensures ScanLevel2(codes, level2) != Malformed
  {
    ScanFound(codes, level2);
    ScanMissing(codes, level2);
  }

  /** The status `validateLevel2` writes for each way its search ends: none
      when it finds the level. */
  function Level2Status(r: Level2): (s: Option<int>)
    ensures s == None <==> r == Found
  {
    match r
    case Found => None
    case Malformed => Some(StatusBadRequest)
    case Missing => Some(StatusNotFound)
  }

  /** The statuses an optional status writes. */
  function Written(s: Option<int>): (r: seq<int>)
    ensures (s.None? <==> r == []) && (s.Some? ==> r == [s.value])
  {
    if s.Some? then [s.value] else []
  }

  // ---------------------------------------------------------------------
  // The whole check.

  /** What `Validate` decides for `levels`, given the children's codes of
      the hierarchy's root node and those of the node of the first level:
      whether the request goes on, and the status it writes if any. */
  function Decide(rootCodes: seq<string>, level1Codes: seq<string>, levels: seq<string>): (r: (bool, Option<int>))
    ensures r.0 ==> r.1 == None && |levels| >= 1 && levels[0] in rootCodes
    ensures r.1.Some? ==> |levels| >= 2 && (r.1.value == StatusBadRequest || r.1.value == StatusNotFound)
  {
    if |levels| == 0 || levels[0] !in rootCodes then (false, None)
    else if |levels| == 1 then (true, None)
    else
      var outcome := ScanLevel2(level1Codes, levels[1]);
      (outcome == Found, Level2Status(outcome))
  }

  /** Levels beyond the second are never looked at. */
  lemma DecideIgnoresDeeperLevels(rootCodes: seq<string>, level1Codes: seq<string>, levels: seq<string>)
    requires |levels| > 2
    ensures Decide(rootCodes, level1Codes, levels) == Decide(rootCodes, level1Codes, levels[..2])
  {
  }

  /** A first level below the root node is itself a node of the hierarchy,
      so the second-level check can look it up. */
  lemma FirstLevelStored(hierarchy: map<string, Stubs.Output>, id: string, level: string)
    requires Stubs.Valid(hierarchy) && id in hierarchy && level in ChildCodes(hierarchy[id])
    ensures level in hierarchy
  {
    var children := hierarchy[id].children;
    var i :| 0 <= i < |children| && children[i].labelCode == level;
    assert Stubs.LinksStored(hierarchy, hierarchy[id]);
    assert Stubs.Stored(hierarchy, children[i]);
  }

  /** `validate.Request`: the id of the hierarchy asked for and the writer of
      the response to the request. */
  class Request {
    const id: string
    const w: ResponseWriter

    constructor (id: string, w: ResponseWriter)
      ensures this.id == id && this.w == w
    {
      this.id, this.w := id, w;
    }

    /** `Request.Validate`: no level fails at once; otherwise the first
        level is checked, then the second if there is one. */
    method Validate(hierarchy: map<string, Stubs.Output>, levels: seq<string>) returns (ok: bool)
      requires Stubs.Valid(hierarchy) && (|levels| >= 1 ==> id in hierarchy)
      modifies w
      ensures var rootCodes := if id in hierarchy then ChildCodes(hierarchy[id]) else [];
              var level1Codes := if |levels| >= 1 && levels[0] in hierarchy then ChildCodes(hierarchy[levels[0]]) else [];
              var r := Decide(rootCodes, level1Codes, levels);
              ok == r.0 && w.statuses == old(w.statuses) + Written(r.1)
    {
      if |levels| == 0 {
        return false;
      }
      ok := ValidateLevel1(hierarchy, levels[0]);
      if !ok {
        return false;
      }
      if |levels| > 1 {
        FirstLevelStored(hierarchy, id, levels[0]);
        ok := ValidateLevel2(hierarchy, levels[0], levels[1]);
        if !ok {
          return false;
        }
      }
      return true;
    }

    /** `validateLevel1`: whether some child of the hierarchy's root node has
        the code `level`.  It writes no status. */
    method ValidateLevel1(hierarchy: map<string, Stubs.Output>, level: string) returns (ok: bool)
      requires id in hierarchy
      ensures ok <==> level in ChildCodes(hierarchy[id])
    {
      var children := hierarchy[id].children;
      for i := 0 to |children|
        invariant level !in Stubs.CodesOf(children[..i])
      {
        if children[i].labelCode == level {
          assert Stubs.CodesOf(children)[i] == level;
          return true;
        }
        assert Stubs.CodesOf(children[..i + 1]) == Stubs.CodesOf(children[..i]) + [children[i].labelCode];
      }
      assert children[..|children|] == children;
      return false;
    }

    /** `validateLevel2`: searches the children of `level1`'s node for
        `level2`; a malformed child answers 400 and a search that finds
        nothing answers 404. */
    method ValidateLevel2(hierarchy: map<string, Stubs.Output>, level1: string, level2: string) returns (ok: bool)
      requires level1 in hierarchy
      modifies w
      ensures var r := ScanLevel2(ChildCodes(hierarchy[level1]), level2);
              ok == (r == Found) && w.statuses == old(w.statuses) + Written(Level2Status(r))
    {
      var children := hierarchy[level1].children;
      ghost var codes := Stubs.CodesOf(children);
      for i := 0 to |children|
        invariant ScanLevel2(codes, level2) == ScanLevel2(codes[i..], level2)
        invariant w.statuses == old(w.statuses)
      {
        assert codes[i..][1..] == codes[i + 1..];
        var l := Split(children[i].labelCode, '.');
        if |l| != 2 {
          w.WriteHeader(StatusBadRequest);
          return false;
        }
        if l[1] == level2 {
          return true;
        }
      }
      w.WriteHeader(StatusNotFound);
      return false;
    }
  }
}
