/** The two verifier layers as they run, proved to accept exactly the chains the model accepts. */
module EvidenceVerifier {
  import opened Base
  import opened Sorting
  import opened Graph
  import opened EvidenceModel
  import opened EvidenceReference
  import opened EvidenceDiagnoses

  /** What is wrong with a chain, each thing listed once. */
  type Diagnoses = s: seq<Diagnosis> | forall i, j :: 0 <= i < j < |s| ==> s[i] != s[j]

  /** `_append` under a condition. */
  function NoteIf(errors: Diagnoses, bad: bool, code: Diagnosis): (r: Diagnoses)
    ensures forall d :: d in r <==> d in errors || (bad && d == code)
  {
    if bad && code !in errors then errors + [code] else errors
  }

  function RefProblem(r: Ref): Diagnosis {
    if r.version <= 0 then VersionInvalid else HashMismatch
  }

  method CheckHeader(g: Chain) returns (errors: Diagnoses)
    ensures forall d :: d in errors <==> HeaderProblem(g, d)
  {
    hide ValidRef, NoteIf, HeaderProblem;
    forall d {
      HeaderParts(g, d);
    }
    errors := NoteIf([], !g.wellShaped, Malformed);
    errors := NoteIf(errors, g.version <= 0, VersionInvalid);
    errors := NoteIf(errors, g.organization == "", TenantMismatch);
    errors := NoteIf(errors,
      g.mode == OtherMode || (g.mode == Actual && g.scenario != None)
      || (g.mode == Scenario && (g.scenario == None || g.scenario.value == "")),
      ModeContamination);
    errors := NoteIf(errors, !g.createdAt.Valid(), TimestampInvalid);
    errors := NoteIf(errors, !g.hashMatches, HashMismatch);
    errors := NoteIf(errors, !ValidRef(g.rootRef), RefProblem(g.rootRef));
    errors := NoteIf(errors, g.nodes == [], NodeMissing);
  }

  lemma HeaderParts(g: Chain, d: Diagnosis)
    ensures HeaderProblem(g, d) <==>
      || (d == Malformed && !g.wellShaped) || (d == VersionInvalid && g.version <= 0)
      || (d == TenantMismatch && g.organization == "")
      || (d == ModeContamination && (
          || g.mode == OtherMode || (g.mode == Actual && g.scenario != None)
          || (g.mode == Scenario && (g.scenario == None || g.scenario.value == ""))))
      || (d == TimestampInvalid && !g.createdAt.Valid()) || (d == HashMismatch && !g.hashMatches)
      || (d == RefProblem(g.rootRef) && !ValidRef(g.rootRef)) || (d == NodeMissing && g.nodes == [])
  {
    HashExact(g.rootRef);
    hide ValidRef, BadHash;
  }

  method CheckNode(g: Chain, n: Node, before: Diagnoses) returns (errors: Diagnoses)
    ensures forall d :: d in errors <==> d in before || NodeProblem(g, n, d)
  {
    hide ValidRef, BadHash, NoteIf;
    HashExact(n.ref);
    errors := NoteIf(before, !KnownType(n.nodeType), NodeTypeInvalid);
    errors := NoteIf(errors, !ValidRef(n.ref), RefProblem(n.ref));
    errors := NoteIf(errors, n.organization != g.organization, TenantMismatch);
    errors := NoteIf(errors,
      n.mode != g.mode || (g.mode == Actual && n.scenario != None) || (g.mode == Scenario && n.scenario != g.scenario),
      ModeContamination);
    errors := NoteIf(errors, n.metadata.None?, Malformed);
  }

  /** The node loop. */
  method CheckNodes(g: Chain, before: Diagnoses) returns (nodes: map<string, Node>, errors: Diagnoses)
    ensures nodes == NodeMap(g.nodes)
    ensures forall d :: d in errors <==> d in before || NodesProblem(g, |g.nodes|, d)
  {
    hide NodeProblem, NodesProblem, ListedProblem, NodeMap;
    nodes, errors := map[], before;
    NoNodesYet(g);
    for i := 0 to |g.nodes|
      invariant nodes == NodeMap(g.nodes[..i])
      invariant forall d :: d in errors <==> d in before || NodesProblem(g, i, d)
    {
      var n := g.nodes[i];
      NodesGrow(g, i);
      if n.nodeId == "" {
        errors := NoteIf(errors, true, NodeMissing);
      } else if n.nodeId in nodes {
        errors := NoteIf(errors, true, NodeDuplicate);
      } else {
        nodes := nodes[n.nodeId := n];
        errors := CheckNode(g, n, errors);
      }
    }
    assert g.nodes[..|g.nodes|] == g.nodes;
  }

  lemma NoNodesYet(g: Chain)
    ensures NodeMap(g.nodes[..0]) == map[] && forall d :: !NodesProblem(g, 0, d)
  {
  }

  /** What one more node does to the map and to the diagnoses. */
  lemma NodesGrow(g: Chain, i: nat)
    requires i < |g.nodes|
    ensures
      var nodes, n := NodeMap(g.nodes[..i]), g.nodes[i];
      && NodeMap(g.nodes[..i + 1]) == (if n.nodeId == "" || n.nodeId in nodes then nodes else nodes[n.nodeId := n])
      && forall d :: NodesProblem(g, i + 1, d) <==>
           || NodesProblem(g, i, d)
           || (if n.nodeId == "" then d == NodeMissing else if n.nodeId in nodes then d == NodeDuplicate
               else NodeProblem(g, n, d))
  {
    hide NodeProblem, ListedProblem;
    assert g.nodes[..i + 1][..i] == g.nodes[..i];
    OneMoreNode(g, i);
    forall d {
      ListedExact(g, i, d);
    }
    hide NodesProblem;
  }

  lemma ListedExact(g: Chain, i: nat, d: Diagnosis)
    requires i < |g.nodes|
    ensures
      var nodes, n := NodeMap(g.nodes[..i]), g.nodes[i];
      ListedProblem(g, i, d) ==
        if n.nodeId == "" then d == NodeMissing else if n.nodeId in nodes then d == NodeDuplicate
        else NodeProblem(g, n, d)
  {
    hide NodeProblem, NodeMap;
    if g.nodes[i].nodeId != "" {
      UsedBefore(g, i);
    }
  }

  lemma OneMoreNode(g: Chain, i: nat)
    requires i < |g.nodes|
    ensures forall d :: NodesProblem(g, i + 1, d) <==> NodesProblem(g, i, d) || ListedProblem(g, i, d)
  {
    hide ListedProblem;
  }

  type TypedTargets = map<(string, EdgeType), seq<string>>

  function Lookup(typed: TypedTargets, source: string, edgeType: EdgeType): seq<string> {
    if (source, edgeType) in typed then typed[(source, edgeType)] else []
  }

  /** The edge tables hold exactly what the edges that entered say. */
  ghost predicate Tables(nodes: map<string, Node>, edges: seq<Edge>, adjacency: map<string, seq<string>>,
                         typed: TypedTargets)
  {
    && adjacency == Adjacency(nodes, edges)
    && (forall s, t :: Lookup(typed, s, t) == OutBy(edges, s, t))
  }

  lemma AdjacencyGrows(nodes: map<string, Node>, edges: seq<Edge>, adjacency: map<string, seq<string>>, e: Edge)
    requires adjacency == Adjacency(nodes, edges) && e.source in nodes
    ensures adjacency[e.source := adjacency[e.source] + [e.target]] == Adjacency(nodes, edges + [e])
  {
    hide Out;
    var grown := adjacency[e.source := adjacency[e.source] + [e.target]];
    forall id <- nodes
      ensures grown[id] == Out(edges + [e], id)
    {
      assert adjacency[id] == Out(edges, id);
      OutGrows(edges, e, id);
    }
    assert grown == Adjacency(nodes, edges + [e]);
  }

  lemma TypedGrows(edges: seq<Edge>, typed: TypedTargets, e: Edge, s: string, t: EdgeType)
    requires Lookup(typed, s, t) == OutBy(edges, s, t)
    ensures Lookup(typed[(e.source, e.edgeType) := Lookup(typed, e.source, e.edgeType) + [e.target]], s, t) ==
      OutBy(edges + [e], s, t)
  {
    hide OutBy;
    OutByGrows(edges, e, s, t);
  }

  lemma TablesGrow(nodes: map<string, Node>, edges: seq<Edge>, adjacency: map<string, seq<string>>,
                   typed: TypedTargets, e: Edge)
    requires Tables(nodes, edges, adjacency, typed) && e.source in nodes
    ensures
      var k := (e.source, e.edgeType);
      Tables(nodes, edges + [e],
             adjacency[e.source := adjacency[e.source] + [e.target]],
             typed[k := Lookup(typed, e.source, e.edgeType) + [e.target]])
  {
    AdjacencyGrows(nodes, edges, adjacency, e);
    forall s, t
      ensures Lookup(typed[(e.source, e.edgeType) := Lookup(typed, e.source, e.edgeType) + [e.target]], s, t) ==
        OutBy(edges + [e], s, t)
    {
      TypedGrows(edges, typed, e, s, t);
    }
    hide Adjacency, Lookup, OutBy;
  }

  /** The keys of the edges so far that have ends, a type and a number. */
  ghost predicate KeysOf(edges: seq<Edge>, n: nat, seen: set<(string, string, EdgeType)>)
    requires n <= |edges|
  {
    forall s, t, k :: (s, t, k) in seen <==> exists j ::
      && 0 <= j < n && Shaped(edges[j]) && edges[j].sequence >= 0
      && edges[j].source == s && edges[j].target == t && edges[j].edgeType == k
  }

  /** The edge loop. */
  method CheckEdges(nodes: map<string, Node>, edges: seq<Edge>, before: Diagnoses)
    returns (adjacency: map<string, seq<string>>, typed: TypedTargets, valid: seq<Edge>, errors: Diagnoses)
    ensures valid == ValidEdges(nodes, edges) && Tables(nodes, valid, adjacency, typed)
    ensures forall d :: d in errors <==> d in before || EdgesProblem(nodes, edges, |edges|, d)
  {
    errors := before;
    adjacency := map id | id in nodes :: [];
    typed := map[];
    valid := [];
    var seen: set<(string, string, EdgeType)> := {};
    assert KeysOf(edges, 0, seen);
    hide Adjacency;
    assert Tables(nodes, [], adjacency, typed) by {
      TablesStart(nodes, adjacency);
    }
    assert forall d :: !EdgesProblem(nodes, edges, 0, d);
    hide Tables, KeysOf, EdgeProblem, EdgesProblem, SignatureOk;
    for i := 0 to |edges|
      invariant valid == ValidEdges(nodes, edges[..i]) && Tables(nodes, valid, adjacency, typed)
      invariant KeysOf(edges, i, seen)
      invariant forall d :: d in errors <==> d in before || EdgesProblem(nodes, edges, i, d)
    {
      var e := edges[i];
      assert edges[..i + 1][..i] == edges[..i];
      EdgesGrow(nodes, edges, i, seen);
      var key := (e.source, e.target, e.edgeType);
      if e.source == "" || e.target == "" || e.edgeType == OtherEdge("") {
        errors := NoteIf(errors, true, EdgeInvalid);
        continue;
      }
      if e.sequence < 0 {
        errors := NoteIf(errors, true, TransformationOrderAmbiguous);
        continue;
      }
      errors := NoteIf(errors, key in seen, EdgeDuplicate);
      seen := seen + {key};
      if e.source !in nodes || e.target !in nodes {
        errors := NoteIf(errors, true, NodeMissing);
      } else if !SignatureOk(nodes, e) {
        errors := NoteIf(errors, true, EdgeInvalid);
      } else {
        TablesGrow(nodes, valid, adjacency, typed, e);
        adjacency := adjacency[e.source := adjacency[e.source] + [e.target]];
        typed := typed[(e.source, e.edgeType) := Lookup(typed, e.source, e.edgeType) + [e.target]];
        valid := valid + [e];
      }
    }
    assert edges[..|edges|] == edges;
  }

  /** What one more edge does to the keys and to the diagnoses. */
  lemma EdgesGrow(nodes: map<string, Node>, edges: seq<Edge>, i: nat, seen: set<(string, string, EdgeType)>)
    requires i < |edges| && KeysOf(edges, i, seen)
    ensures
      var e := edges[i];
      var key := (e.source, e.target, e.edgeType);
      && KeysOf(edges, i + 1, if Shaped(e) && e.sequence >= 0 then seen + {key} else seen)
      && forall d :: EdgesProblem(nodes, edges, i + 1, d) <==>
           || EdgesProblem(nodes, edges, i, d)
           || (if !Shaped(e) then d == EdgeInvalid
               else if e.sequence < 0 then d == TransformationOrderAmbiguous
               else
                 || (d == EdgeDuplicate && key in seen)
                 || (if e.source !in nodes || e.target !in nodes then d == NodeMissing
                     else d == EdgeInvalid && !SignatureOk(nodes, e)))
  {
    hide EdgeProblem, EdgesProblem, KeysOf, SignatureOk;
    KeysGrow(edges, i, seen);
    OneMoreEdge(nodes, edges, i);
    forall d {
      OneEdgeExact(nodes, edges, i, seen, d);
    }
  }

  lemma OneEdgeExact(nodes: map<string, Node>, edges: seq<Edge>, i: nat, seen: set<(string, string, EdgeType)>,
                     d: Diagnosis)
    requires i < |edges| && KeysOf(edges, i, seen)
    ensures
      var e := edges[i];
      EdgeProblem(nodes, edges, i, d) ==
        if !Shaped(e) then d == EdgeInvalid
        else if e.sequence < 0 then d == TransformationOrderAmbiguous
        else
          || (d == EdgeDuplicate && (e.source, e.target, e.edgeType) in seen)
          || (if e.source !in nodes || e.target !in nodes then d == NodeMissing
              else d == EdgeInvalid && !SignatureOk(nodes, e))
  {
    var e := edges[i];
    if e.source in nodes && e.target in nodes {
      FitsExact(nodes[e.source].nodeType, e.edgeType, nodes[e.target].nodeType);
    }
    SeenBefore(edges, i, seen);
    hide Fits, EdgeSignature, KeysOf, Shaped, SameLink;
  }

  lemma OneMoreEdge(nodes: map<string, Node>, edges: seq<Edge>, i: nat)
    requires i < |edges|
    ensures forall d ::
      EdgesProblem(nodes, edges, i + 1, d) <==> EdgesProblem(nodes, edges, i, d) || EdgeProblem(nodes, edges, i, d)
  {
    hide EdgeProblem;
  }

  lemma SeenBefore(edges: seq<Edge>, i: nat, seen: set<(string, string, EdgeType)>)
    requires i < |edges| && KeysOf(edges, i, seen)
    ensures Shaped(edges[i]) ==> ((edges[i].source, edges[i].target, edges[i].edgeType) in seen <==>
      exists j :: 0 <= j < i && edges[j].sequence >= 0 && SameLink(edges[j], edges[i]))
  {
  }

  lemma KeysGrow(edges: seq<Edge>, i: nat, seen: set<(string, string, EdgeType)>)
    requires i < |edges| && KeysOf(edges, i, seen)
    ensures
      var e := edges[i];
      KeysOf(edges, i + 1,
             if Shaped(e) && e.sequence >= 0 then seen + {(e.source, e.target, e.edgeType)} else seen)
  {
    hide Shaped;
  }

  lemma TablesStart(nodes: map<string, Node>, adjacency: map<string, seq<string>>)
    requires adjacency == map id | id in nodes :: []
    ensures Tables(nodes, [], adjacency, map[])
  {
  }

  // ----- Around the root

  function Filter(nodes: map<string, Node>, ids: seq<string>, nodeType: NodeType): (r: seq<string>) {
    if ids == [] then [] else
      var last := ids[|ids| - 1];
      Filter(nodes, ids[..|ids| - 1], nodeType) + if last in nodes && nodes[last].nodeType == nodeType then [last]
      else []
  }

  /** `targets`. */
  function TargetsBy(nodes: map<string, Node>, typed: TypedTargets, source: string, edgeType: EdgeType,
                     nodeType: NodeType)
    : seq<string>
  {
    Filter(nodes, Lookup(typed, source, edgeType), nodeType)
  }

  lemma {:induction false} FilterMembers(nodes: map<string, Node>, ids: seq<string>, nodeType: NodeType, x: string)
    ensures x in Filter(nodes, ids, nodeType) <==> x in ids && x in nodes && nodes[x].nodeType == nodeType
  {
    if ids != [] {
      var before := ids[..|ids| - 1];
      FilterMembers(nodes, before, nodeType, x);
      assert ids == before + [ids[|ids| - 1]];
    }
  }

  /** What the searches around the root rely on. */
  ghost predicate Indexed(nodes: map<string, Node>, edges: seq<Edge>, adjacency: map<string, seq<string>>,
                          typed: TypedTargets)
  {
    Tables(nodes, edges, adjacency, typed) && forall e <- edges :: EdgeOk(nodes, e)
  }

  /** A lookup by edge type and target type finds exactly the edges of that type. */
  lemma TargetsAreLinks(nodes: map<string, Node>, edges: seq<Edge>, adjacency: map<string, seq<string>>,
                        typed: TypedTargets, source: string, edgeType: EdgeType, x: string)
    requires Indexed(nodes, edges, adjacency, typed) && EdgeSignature(edgeType).Some?
    ensures x in TargetsBy(nodes, typed, source, edgeType, EdgeSignature(edgeType).value.target) <==>
      Linked(edges, source, edgeType, x)
    ensures Linked(edges, source, edgeType, x) ==> x in nodes
  {
    hide Adjacency;
    FilterMembers(nodes, Lookup(typed, source, edgeType), EdgeSignature(edgeType).value.target, x);
    assert Lookup(typed, source, edgeType) == OutBy(edges, source, edgeType);
    OutByIsLinked(edges, source, edgeType, x);
    hide Lookup, Filter, OutBy, EdgeSignature;
  }

  lemma AllTargetsAreLinks(nodes: map<string, Node>, edges: seq<Edge>, adjacency: map<string, seq<string>>,
                           typed: TypedTargets, source: string, edgeType: EdgeType)
    requires Indexed(nodes, edges, adjacency, typed) && EdgeSignature(edgeType).Some?
    ensures
      var found := TargetsBy(nodes, typed, source, edgeType, EdgeSignature(edgeType).value.target);
      && (forall x :: x in found <==> Linked(edges, source, edgeType, x))
      && (forall x <- found :: x in nodes)
      && (found != [] <==> HasLink(edges, source, edgeType))
  {
    hide Indexed, TargetsBy, Linked;
    forall x
      ensures x in TargetsBy(nodes, typed, source, edgeType, EdgeSignature(edgeType).value.target) <==>
        Linked(edges, source, edgeType, x)
      ensures Linked(edges, source, edgeType, x) ==> x in nodes
    {
      TargetsAreLinks(nodes, edges, adjacency, typed, source, edgeType, x);
    }
    hide EdgeSignature;
    var found := TargetsBy(nodes, typed, source, edgeType, EdgeSignature(edgeType).value.target);
    if found != [] {
      assert found[0] in found;
    }
  }

  /** One of the first n ids of a list has this problem. */
  ghost predicate SomeOf(ids: seq<string>, n: nat, d: Diagnosis, p: (string, Diagnosis) -> bool) {
    exists j :: 0 <= j < n && j < |ids| && p(ids[j], d)
  }

  lemma SomeOfGrows(ids: seq<string>, p: (string, Diagnosis) -> bool)
    ensures forall d :: !SomeOf(ids, 0, d, p)
    ensures forall n: nat, d :: n < |ids| ==> (SomeOf(ids, n + 1, d, p) <==> SomeOf(ids, n, d, p) || p(ids[n], d))
  {
  }

  /** A loop over the targets of one kind finds the problems of every link of that kind. */
  lemma LoopCoversLinks(nodes: map<string, Node>, edges: seq<Edge>, adjacency: map<string, seq<string>>,
                        typed: TypedTargets, source: string, edgeType: EdgeType, nodeType: NodeType,
                        p: (string, Diagnosis) -> bool)
    requires Indexed(nodes, edges, adjacency, typed) && EdgeSignature(edgeType).Some? &&
      EdgeSignature(edgeType).value.target == nodeType
    ensures
      var found := TargetsBy(nodes, typed, source, edgeType, nodeType);
      && (found != [] <==> HasLink(edges, source, edgeType))
      && (forall x <- found :: x in nodes)
      && (forall d :: SomeOf(found, |found|, d, p) <==> exists x :: Linked(edges, source, edgeType, x) && p(x, d))
      && (forall d :: !SomeOf(found, 0, d, p))
      && (forall n: nat, d :: n < |found| ==>
            (SomeOf(found, n + 1, d, p) <==> SomeOf(found, n, d, p) || p(found[n], d)))
  {
    AllTargetsAreLinks(nodes, edges, adjacency, typed, source, edgeType);
    hide Indexed, TargetsBy, Linked, HasLink, EdgeSignature;
    var found := TargetsBy(nodes, typed, source, edgeType, nodeType);
    SomeOfGrows(found, p);
    forall d | exists x :: Linked(edges, source, edgeType, x) && p(x, d)
      ensures SomeOf(found, |found|, d, p)
    {
      var x :| Linked(edges, source, edgeType, x) && p(x, d);
      assert x in found;
      var j :| 0 <= j < |found| && found[j] == x;
    }
    forall d | SomeOf(found, |found|, d, p)
      ensures exists x :: Linked(edges, source, edgeType, x) && p(x, d)
    {
      var j :| 0 <= j < |found| && p(found[j], d);
      assert found[j] in found;
    }
  }

  predicate ApprovedBy(nodes: map<string, Node>, typed: TypedTargets, artifact: string) {
    exists a <- TargetsBy(nodes, typed, artifact, ArtifactApprovedBy, Approval) ::
      a in nodes && ApprovalOk(nodes[a], false)
  }

  lemma ApprovedByIsSigned(nodes: map<string, Node>, edges: seq<Edge>, adjacency: map<string, seq<string>>,
                             typed: TypedTargets, artifact: string)
    requires Indexed(nodes, edges, adjacency, typed)
    ensures ApprovedBy(nodes, typed, artifact) <==> Signed(nodes, edges, artifact)
  {
    SignedExact(nodes, edges, artifact);
    AllTargetsAreLinks(nodes, edges, adjacency, typed, artifact, ArtifactApprovedBy);
    hide Indexed, TargetsBy, Linked, HasLink, ApprovalOk;
  }

  lemma ProfileFound(nodes: map<string, Node>, edges: seq<Edge>, adjacency: map<string, seq<string>>,
                     typed: TypedTargets, profile: string, d: Diagnosis)
    requires Indexed(nodes, edges, adjacency, typed)
    ensures
      var rounding := TargetsBy(nodes, typed, profile, ProfileUsesRounding, RoundingPolicy);
      var authorities := TargetsBy(nodes, typed, profile, ProfileUsesSourceAuthority, SourceAuthority);
      ProfileProblem(nodes, edges, profile, d) <==>
        || (d == RequiredPathMissing && (rounding == [] || authorities == []))
        || (d == ApprovalMissing && exists x <- rounding + authorities :: !ApprovedBy(nodes, typed, x))
  {
    hide Indexed, TargetsBy, Linked, HasLink, Signed, ApprovedBy;
    AllTargetsAreLinks(nodes, edges, adjacency, typed, profile, ProfileUsesRounding);
    AllTargetsAreLinks(nodes, edges, adjacency, typed, profile, ProfileUsesSourceAuthority);
    forall x {
      ApprovedByIsSigned(nodes, edges, adjacency, typed, x);
    }
  }

  method CheckProfile(nodes: map<string, Node>, ghost edges: seq<Edge>, ghost adjacency: map<string, seq<string>>,
                      typed: TypedTargets, profile: string, before: Diagnoses) returns (errors: Diagnoses)
    requires Indexed(nodes, edges, adjacency, typed)
    ensures forall d :: d in errors <==> d in before || ProfileProblem(nodes, edges, profile, d)
  {
    hide Indexed, TargetsBy, ApprovedBy, ProfileProblem, NoteIf;
    forall d {
      ProfileFound(nodes, edges, adjacency, typed, profile, d);
    }
    var rounding := TargetsBy(nodes, typed, profile, ProfileUsesRounding, RoundingPolicy);
    var authorities := TargetsBy(nodes, typed, profile, ProfileUsesSourceAuthority, SourceAuthority);
    errors := NoteIf(before, rounding == [] || authorities == [], RequiredPathMissing);
    errors := NoteIf(errors, exists x <- rounding + authorities :: !ApprovedBy(nodes, typed, x), ApprovalMissing);
  }

  method CheckFile(n: Node, loader: Option<Loader>, requireBytes: bool, before: Diagnoses)
    returns (errors: Diagnoses)
    ensures forall d :: d in errors <==> d in before || FileProblem(n, loader, requireBytes, d)
  {
    if n.metadata.Some? {
      DigestExact(n.metadata.value.retained);
    }
    hide IsDigest, IsHex64;
    if n.metadata.None? || !IsHex64(n.metadata.value.retained) || n.metadata.value.locator == "" {
      return NoteIf(before, true, SourceFileUnavailable);
    }
    var m := n.metadata.value;
    errors := NoteIf(before, m.retained != n.ref.contentHash, HashMismatch);
    if loader.Some? {
      var bytes := loader.value(m.locator);
      errors := NoteIf(errors, bytes != Some(m.retained),
                       if bytes == None then SourceFileUnavailable else SourceBytesMismatch);
    } else {
      errors := NoteIf(errors, requireBytes, SourceFileUnavailable);
    }
  }

  method CheckRecord(nodes: map<string, Node>, ghost edges: seq<Edge>, ghost adjacency: map<string, seq<string>>,
                     typed: TypedTargets, loader: Option<Loader>, requireBytes: bool, record: string,
                     before: Diagnoses) returns (errors: Diagnoses)
    requires Indexed(nodes, edges, adjacency, typed)
    ensures forall d :: d in errors <==> d in before || RecordProblem(nodes, edges, loader, requireBytes, record, d)
  {
    ghost var p := (x: string, d: Diagnosis) => x in nodes && FileProblem(nodes[x], loader, requireBytes, d);
    LoopCoversLinks(nodes, edges, adjacency, typed, record, RecordReadFromFile, SourceFile, p);
    hide Indexed, TargetsBy, Linked, HasLink, FileProblem, EdgeSignature, SomeOf;
    var files := TargetsBy(nodes, typed, record, RecordReadFromFile, SourceFile);
    errors := NoteIf(before, files == [], RequiredPathMissing);
    ghost var start := errors;
    for i := 0 to |files|
      invariant forall d :: d in errors <==> d in start || SomeOf(files, i, d, p)
    {
      errors := CheckFile(nodes[files[i]], loader, requireBytes, errors);
    }
  }

  method CheckEvent(nodes: map<string, Node>, ghost edges: seq<Edge>, ghost adjacency: map<string, seq<string>>,
                    typed: TypedTargets, loader: Option<Loader>, requireBytes: bool, event: string,
                    before: Diagnoses) returns (errors: Diagnoses)
    requires Indexed(nodes, edges, adjacency, typed)
    ensures forall d :: d in errors <==> d in before || EventProblem(nodes, edges, loader, requireBytes, event, d)
  {
    ghost var p := (x: string, d: Diagnosis) => RecordProblem(nodes, edges, loader, requireBytes, x, d);
    LoopCoversLinks(nodes, edges, adjacency, typed, event, EventNormalizedFromRecord, SourceRecord, p);
    hide Indexed, TargetsBy, Linked, HasLink, RecordProblem, EdgeSignature, SomeOf;
    var records := TargetsBy(nodes, typed, event, EventNormalizedFromRecord, SourceRecord);
    errors := NoteIf(before, records == [], RequiredPathMissing);
    ghost var start := errors;
    for i := 0 to |records|
      invariant forall d :: d in errors <==> d in start || SomeOf(records, i, d, p)
    {
      errors := CheckRecord(nodes, edges, adjacency, typed, loader, requireBytes, records[i], errors);
    }
  }

  predicate NotAfter(a: int, b: int) { a <= b }

  /** Sorting to 0, 1, 2, ... is the same as being a permutation of it. */
  lemma SortedIsPermutation(s: seq<int>)
    ensures Sort(s, NotAfter) == Range(|s|) <==> multiset(s) == multiset(Range(|s|))
  {
    if multiset(s) == multiset(Range(|s|)) {
      SortSorted(s, NotAfter);
      SortedUnique(Sort(s, NotAfter), Range(|s|), NotAfter);
    }
  }

  /** The loop over the root's profiles. */
  method CheckProfiles(nodes: map<string, Node>, ghost edges: seq<Edge>, ghost adjacency: map<string, seq<string>>,
                       typed: TypedTargets, root: string, before: Diagnoses) returns (errors: Diagnoses)
    requires Indexed(nodes, edges, adjacency, typed)
    ensures forall d :: d in errors <==>
      d in before || exists p :: Linked(edges, root, ResultCalculatedWith, p) && ProfileProblem(nodes, edges, p, d)
  {
    ghost var problem := (x: string, d: Diagnosis) => ProfileProblem(nodes, edges, x, d);
    LoopCoversLinks(nodes, edges, adjacency, typed, root, ResultCalculatedWith, CalculationProfile, problem);
    hide Indexed, TargetsBy, Linked, ProfileProblem, EdgeSignature, SomeOf;
    var profiles := TargetsBy(nodes, typed, root, ResultCalculatedWith, CalculationProfile);
    errors := before;
    for i := 0 to |profiles|
      invariant forall d :: d in errors <==> d in before || SomeOf(profiles, i, d, problem)
    {
      errors := CheckProfile(nodes, edges, adjacency, typed, profiles[i], errors);
    }
  }

  /** The loop over the root's rule resolutions. */
  method CheckResolutions(nodes: map<string, Node>, ghost edges: seq<Edge>, ghost adjacency: map<string, seq<string>>,
                          typed: TypedTargets, root: string, before: Diagnoses) returns (errors: Diagnoses)
    requires Indexed(nodes, edges, adjacency, typed)
    ensures forall d :: d in errors <==>
      || d in before
      || (d == RequiredPathMissing &&
          exists r :: Linked(edges, root, ResultUsesResolution, r) && !HasLink(edges, r, ResolutionSelectsRule))
  {
    ghost var problem := (x: string, d: Diagnosis) =>
      d == RequiredPathMissing && !HasLink(edges, x, ResolutionSelectsRule);
    LoopCoversLinks(nodes, edges, adjacency, typed, root, ResultUsesResolution, RuleResolution, problem);
    forall x {
      LoopCoversLinks(nodes, edges, adjacency, typed, x, ResolutionSelectsRule, ConfigurationRule, problem);
    }
    hide Indexed, TargetsBy, Linked, HasLink, EdgeSignature, SomeOf;
    var resolutions := TargetsBy(nodes, typed, root, ResultUsesResolution, RuleResolution);
    errors := before;
    for i := 0 to |resolutions|
      invariant forall d :: d in errors <==> d in before || SomeOf(resolutions, i, d, problem)
    {
      errors := NoteIf(errors, TargetsBy(nodes, typed, resolutions[i], ResolutionSelectsRule, ConfigurationRule) == [],
                       RequiredPathMissing);
    }
  }

  /** The loop over the root's events, down to the retained bytes of their files. */
  method CheckEvents(nodes: map<string, Node>, ghost edges: seq<Edge>, ghost adjacency: map<string, seq<string>>,
                     typed: TypedTargets, root: string, loader: Option<Loader>, requireBytes: bool,
                     before: Diagnoses) returns (errors: Diagnoses)
    requires Indexed(nodes, edges, adjacency, typed)
    ensures forall d :: d in errors <==>
      || d in before
      || exists e :: Linked(edges, root, ResultDerivedFromEvent, e)
                     && EventProblem(nodes, edges, loader, requireBytes, e, d)
  {
    ghost var problem := (x: string, d: Diagnosis) => EventProblem(nodes, edges, loader, requireBytes, x, d);
    LoopCoversLinks(nodes, edges, adjacency, typed, root, ResultDerivedFromEvent, CanonicalEvent, problem);
    hide Indexed, TargetsBy, Linked, EventProblem, EdgeSignature, SomeOf;
    var events := TargetsBy(nodes, typed, root, ResultDerivedFromEvent, CanonicalEvent);
    errors := before;
    for i := 0 to |events|
      invariant forall d :: d in errors <==> d in before || SomeOf(events, i, d, problem)
    {
      errors := CheckEvent(nodes, edges, adjacency, typed, loader, requireBytes, events[i], errors);
    }
  }

  /** The paths that must start at the root. */
  method CheckRequired(nodes: map<string, Node>, ghost edges: seq<Edge>, ghost adjacency: map<string, seq<string>>,
                       typed: TypedTargets, root: string, before: Diagnoses) returns (errors: Diagnoses)
    requires Indexed(nodes, edges, adjacency, typed)
    ensures forall d :: d in errors <==> d in before || (d == RequiredPathMissing && LacksLink(edges, root))
  {
    LacksExact(edges, root);
    hide LacksLink;
    assert forall t <- REQUIRED :: EdgeSignature(t).Some?;
    hide EdgeSignature, TargetsBy, HasLink, Linked;
    forall t | EdgeSignature(t).Some?
      ensures TargetsBy(nodes, typed, root, t, EdgeSignature(t).value.target) != [] <==> HasLink(edges, root, t)
    {
      AllTargetsAreLinks(nodes, edges, adjacency, typed, root, t);
    }
    hide Indexed;
    errors := NoteIf(before,
      exists t <- REQUIRED :: TargetsBy(nodes, typed, root, t, EdgeSignature(t).value.target) == [],
        RequiredPathMissing);
  }

  /** The checks that start from the root. */
  method CheckPaths(nodes: map<string, Node>, edges: seq<Edge>, adjacency: map<string, seq<string>>,
                    typed: TypedTargets, root: string, loader: Option<Loader>, requireBytes: bool,
                    before: Diagnoses) returns (errors: Diagnoses)
    requires Indexed(nodes, edges, adjacency, typed)
    ensures forall d :: d in errors <==> d in before || RootProblem(nodes, edges, root, loader, requireBytes, d)
  {
    assert adjacency == Adjacency(nodes, edges) && forall e <- edges :: e.source in nodes;
    hide Adjacency, Reaches, HasLink, Linked, Sequences, Indexed, ProfileProblem, EventProblem, LacksLink, Numbered;
    hide Walk, Sort, NoteIf, RootProblem;
    forall id {
      ReachExact(nodes, edges, root, id);
    }
    NumberedExact(edges, root);
    var reachable := ReachableFrom(adjacency, root);
    var orphans := exists id <- nodes :: id !in reachable;
    errors := NoteIf(before, orphans, OrphanNode);
    errors := CheckRequired(nodes, edges, adjacency, typed, root, errors);
    var sequence := Sequences(edges, root);
    SortedIsPermutation(sequence);
    var unordered := Sort(sequence, NotAfter) != Range(|sequence|);
    forall d {
      RootParts(nodes, edges, root, loader, requireBytes, orphans, unordered, d);
    }
    errors := NoteIf(errors, unordered, TransformationOrderAmbiguous);
    errors := CheckProfiles(nodes, edges, adjacency, typed, root, errors);
    errors := CheckResolutions(nodes, edges, adjacency, typed, root, errors);
    errors := CheckEvents(nodes, edges, adjacency, typed, root, loader, requireBytes, errors);
    hide Range;
  }

  lemma RootParts(nodes: map<string, Node>, edges: seq<Edge>, root: string, loader: Option<Loader>,
                  requireBytes: bool, orphans: bool, unordered: bool, d: Diagnosis)
    requires orphans <==> exists id <- nodes :: forall p :: !Walk(edges, p, root, id)
    requires unordered <==> !Numbered(edges, root)
    ensures RootProblem(nodes, edges, root, loader, requireBytes, d) <==>
      || (d == OrphanNode && orphans) || (d == RequiredPathMissing && LacksLink(edges, root))
      || (d == TransformationOrderAmbiguous && unordered)
      || (exists p :: Linked(edges, root, ResultCalculatedWith, p) && ProfileProblem(nodes, edges, p, d))
      || (d == RequiredPathMissing &&
          exists r :: Linked(edges, root, ResultUsesResolution, r) && !HasLink(edges, r, ResolutionSelectsRule))
      || (exists e :: Linked(edges, root, ResultDerivedFromEvent, e)
                      && EventProblem(nodes, edges, loader, requireBytes, e, d))
  {
    hide Walk, Numbered, LacksLink, Linked, HasLink, ProfileProblem, EventProblem;
  }

  lemma ReferenceAgrees(g: Chain, loader: Option<Loader>, requireBytes: bool)
    ensures (exists root :: Accepted(g, root, loader, requireBytes)) <==>
      exists root :: Sound(g, root, loader, requireBytes)
  {
    hide Accepted, Sound;
    forall root {
      SoundExact(g, root, loader, requireBytes);
    }
  }

  lemma ReferenceAgreesStrictly(g: Chain, loader: Option<Loader>, requireBytes: bool)
    ensures (exists root :: Accepted(g, root, loader, requireBytes) && StrictlyAccepted(g, root)) <==>
      exists root :: Sound(g, root, loader, requireBytes) && StrictlySound(g, root)
  {
    hide Accepted, Sound, StrictlyAccepted, StrictlySound;
    forall root {
      SoundExact(g, root, loader, requireBytes);
    }
    forall root | Accepted(g, root, loader, requireBytes) {
      StrictlySoundExact(g, root, loader, requireBytes);
    }
  }

  lemma NothingListed(errors: Diagnoses)
    ensures errors == [] <==> forall d :: d !in errors
  {
    assert errors != [] ==> errors[0] in errors;
  }

  /** `verify_evidence_chain` of the first layer: the diagnoses of the model, and none for the chains it accepts. */
  method VerifyChain(g: Chain, loader: Option<Loader>, requireBytes: bool) returns (errors: Diagnoses)
    ensures forall d :: d in errors <==> Diagnosed(g, loader, requireBytes, d)
    ensures errors == [] <==> exists root :: Accepted(g, root, loader, requireBytes)
    ensures errors == [] <==> exists root :: Sound(g, root, loader, requireBytes)
  {
    ReferenceAgrees(g, loader, requireBytes);
    SilentIsAccepted(g, loader, requireBytes);
    hide Sound, Accepted, HeaderProblem, NodesProblem, EdgesProblem, RootProblem, OnlyRoot, NodeMap, ValidEdges, Walk;
    hide RootIds, Cyclic, Adjacency, EdgeOk, EdgesOk;
    var nodes, adjacency, typed, valid;
    errors := CheckHeader(g);
    nodes, errors := CheckNodes(g, errors);
    var roots := RootIds(g, nodes);
    errors := NoteIf(errors, |roots| != 1, NodeMissing);
    adjacency, typed, valid, errors := CheckEdges(nodes, g.edges, errors);
    var cyclic := HasCycle(adjacency);
    errors := NoteIf(errors, cyclic, GraphCycle);
    EnteredAll(nodes, g.edges);
    EnteredSources(nodes, valid);
    AcyclicExact(nodes, valid);
    assert Indexed(nodes, valid, adjacency, typed);
    hide Indexed, Tables;
    forall root {
      OnlyRootExact(g, nodes, root);
    }
    if |roots| == 1 {
      var root :| root in roots;
      SingletonOf(roots, root);
      errors := CheckPaths(nodes, valid, adjacency, typed, root, loader, requireBytes, errors);
      assert forall other :: OnlyRoot(g, nodes, other) ==> other in roots;
    } else {
      assert forall root: string :: |{root}| == 1;
    }
    NothingListed(errors);
  }

  lemma EnteredSources(nodes: map<string, Node>, edges: seq<Edge>)
    requires forall e <- edges :: EdgeOk(nodes, e)
    ensures forall e <- edges :: e.source in nodes
  {
  }

  lemma SingletonOf<T>(s: set<T>, x: T)
    requires |s| == 1 && x in s
    ensures s == {x}
  {
    assert |s - {x}| == 0;
  }

  // ----- The second layer

  lemma RulesGrow(nodes: map<string, Node>, edges: seq<Edge>, resolutions: set<string>, r: string)
    ensures RulesOfAll(nodes, edges, resolutions + {r}) ==
      RulesOfAll(nodes, edges, resolutions) + RulesOf(nodes, edges, r)
    ensures RulesOfAll(nodes, edges, {}) == {}
  {
    hide RulesOf;
  }

  /** One of these resolutions does not select exactly one rule. */
  ghost predicate Ambiguous(nodes: map<string, Node>, edges: seq<Edge>, resolutions: set<string>) {
    exists r <- resolutions :: |RulesOf(nodes, edges, r)| != 1
  }

  lemma AmbiguousGrows(nodes: map<string, Node>, edges: seq<Edge>, resolutions: set<string>, r: string)
    ensures !Ambiguous(nodes, edges, {})
    ensures Ambiguous(nodes, edges, resolutions + {r}) <==>
      Ambiguous(nodes, edges, resolutions) || |RulesOf(nodes, edges, r)| != 1
  {
    hide RulesOf;
  }

  /** The loop over resolutions: the rules they select, and whether each selects exactly one. */
  method CollectRules(nodes: map<string, Node>, edges: seq<Edge>, root: string, before: Diagnoses)
    returns (resolved: set<string>, errors: Diagnoses)
    ensures resolved == ResolvedRules(nodes, edges, root)
    ensures forall d :: d in errors <==>
      || d in before
      || (d == RequiredPathMissing &&
          exists r :: Typed(nodes, edges, root, ResultUsesResolution, RuleResolution, r)
                      && !OneTyped(nodes, edges, r, ResolutionSelectsRule, ConfigurationRule))
  {
    hide TypedTargetIds, RulesOf, Typed, OneTyped;
    var rest := TypedTargetIds(edges, nodes, root, ResultUsesResolution, RuleResolution);
    ghost var resolutions := rest;
    AmbiguousExact(nodes, edges, root);
    RulesGrow(nodes, edges, {}, "");
    AmbiguousGrows(nodes, edges, {}, "");
    hide RulesOfAll, Ambiguous;
    ghost var done: set<string> := {};
    resolved, errors := {}, before;
    while rest != {}
      invariant done + rest == resolutions
      invariant resolved == RulesOfAll(nodes, edges, done)
      invariant forall d :: d in errors <==> d in before || (d == RequiredPathMissing && Ambiguous(nodes, edges, done))
      decreases |rest|
    {
      var r :| r in rest;
      RulesGrow(nodes, edges, done, r);
      AmbiguousGrows(nodes, edges, done, r);
      errors := NoteIf(errors, |RulesOf(nodes, edges, r)| != 1, RequiredPathMissing);
      resolved := resolved + RulesOf(nodes, edges, r);
      rest, done := rest - {r}, done + {r};
    }
    assert done == resolutions;
  }

  lemma AmbiguousExact(nodes: map<string, Node>, edges: seq<Edge>, root: string)
    ensures Ambiguous(nodes, edges, TypedTargetIds(edges, nodes, root, ResultUsesResolution, RuleResolution)) <==>
      exists r :: Typed(nodes, edges, root, ResultUsesResolution, RuleResolution, r)
                  && !OneTyped(nodes, edges, r, ResolutionSelectsRule, ConfigurationRule)
  {
    forall r {
      TypedExact(nodes, edges, root, ResultUsesResolution, RuleResolution, r);
    }
    forall r {
      OneTypedExact(nodes, edges, r, ResolutionSelectsRule, ConfigurationRule);
    }
    hide Typed, OneTyped, TypedTargetIds;
  }

  method CheckStrictProfile(nodes: map<string, Node>, edges: seq<Edge>, root: string, profile: string,
                            resolved: set<string>, before: Diagnoses) returns (errors: Diagnoses)
    requires resolved == ResolvedRules(nodes, edges, root)
    ensures forall d :: d in errors <==> d in before || StrictProfileProblem(nodes, edges, root, profile, d)
  {
    hide TypedTargetIds, ResolvedRules, ApprovalOk, Typed, OneTyped, StrictlySigned, SelectedBySome, StrictlyApproved;
    var rounding := TypedTargetIds(edges, nodes, profile, ProfileUsesRounding, RoundingPolicy);
    var authority := TypedTargetIds(edges, nodes, profile, ProfileUsesSourceAuthority, SourceAuthority);
    var rules := TypedTargetIds(edges, nodes, profile, ProfileSelectsRule, ConfigurationRule);
    OneTypedExact(nodes, edges, profile, ProfileUsesRounding, RoundingPolicy);
    OneTypedExact(nodes, edges, profile, ProfileUsesSourceAuthority, SourceAuthority);
    forall x {
      TypedExact(nodes, edges, profile, ProfileUsesRounding, RoundingPolicy, x);
    }
    forall x {
      TypedExact(nodes, edges, profile, ProfileUsesSourceAuthority, SourceAuthority, x);
    }
    forall x {
      StrictlySignedExact(nodes, edges, x);
    }
    RulesDiffer(nodes, edges, root, profile);
    errors := NoteIf(before, |rounding| != 1 || |authority| != 1, RequiredPathMissing);
    errors := NoteIf(errors, exists x <- rounding + authority :: !StrictlyApproved(nodes, edges, x), ApprovalMissing);
    errors := NoteIf(errors, rules == {} || resolved == {} || rules != resolved, RequiredPathMissing);
  }

  method CheckStrictProfiles(nodes: map<string, Node>, edges: seq<Edge>, root: string, resolved: set<string>,
                             before: Diagnoses)
    returns (errors: Diagnoses)
    requires resolved == ResolvedRules(nodes, edges, root)
    ensures forall d :: d in errors <==>
      || d in before
      || exists p :: Typed(nodes, edges, root, ResultCalculatedWith, CalculationProfile, p)
                     && StrictProfileProblem(nodes, edges, root, p, d)
  {
    hide TypedTargetIds, ResolvedRules, StrictProfileProblem, Typed;
    forall x {
      TypedExact(nodes, edges, root, ResultCalculatedWith, CalculationProfile, x);
    }
    var rest := TypedTargetIds(edges, nodes, root, ResultCalculatedWith, CalculationProfile);
    ghost var profiles, done: set<string> := rest, {};
    errors := before;
    while rest != {}
      invariant done + rest == profiles
      invariant forall d :: d in errors <==>
        d in before || exists p <- done :: StrictProfileProblem(nodes, edges, root, p, d)
      decreases |rest|
    {
      var p :| p in rest;
      errors := CheckStrictProfile(nodes, edges, root, p, resolved, errors);
      rest, done := rest - {p}, done + {p};
    }
    assert done == profiles;
  }

  lemma SingularTyped(nodes: map<string, Node>, edges: seq<Edge>, root: string)
    ensures (exists p <- SINGULAR :: |TypedTargetIds(edges, nodes, root, p.0, p.1)| != 1) <==>
      || !OneTyped(nodes, edges, root, ResultDefinedBy, MetricDefinition)
      || !OneTyped(nodes, edges, root, ResultCalculatedWith, CalculationProfile)
      || !OneTyped(nodes, edges, root, ResultHasFreshness, FreshnessAssessment)
      || !OneTyped(nodes, edges, root, ResultHasConfidence, ConfidenceAssessment)
  {
    hide TypedTargetIds, OneTyped;
    OneTypedExact(nodes, edges, root, ResultDefinedBy, MetricDefinition);
    OneTypedExact(nodes, edges, root, ResultCalculatedWith, CalculationProfile);
    OneTypedExact(nodes, edges, root, ResultHasFreshness, FreshnessAssessment);
    OneTypedExact(nodes, edges, root, ResultHasConfidence, ConfidenceAssessment);
    assert SINGULAR[0] in SINGULAR && SINGULAR[1] in SINGULAR && SINGULAR[2] in SINGULAR && SINGULAR[3] in SINGULAR;
  }

  /** `verify_evidence_chain` of the second layer, on top of what the first one reported. */
  method VerifyStrictly(g: Chain, before: Diagnoses) returns (errors: Diagnoses)
    ensures forall d :: d in errors <==> d in before || StrictlyDiagnosed(g, d)
  {
    hide NodeMap, TypedTargetIds, RulesOf, ResolvedRules, StrictProfileProblem, RootIds, Typed, OneTyped, OnlyRoot;
    errors := NoteIf(before, !g.createdAt.Strict(), TimestampInvalid);
    var nodes := NodeMap(g.nodes);
    var roots := RootIds(g, nodes);
    forall root {
      OnlyRootExact(g, nodes, root);
    }
    if |roots| != 1 {
      assert forall root: string :: |{root}| == 1;
      return;
    }
    var root :| root in roots;
    SingletonOf(roots, root);
    assert forall other :: OnlyRoot(g, nodes, other) ==> other in roots;
    SingularTyped(nodes, g.edges, root);
    errors := NoteIf(errors,
      exists p <- SINGULAR :: |TypedTargetIds(g.edges, nodes, root, p.0, p.1)| != 1, RequiredPathMissing);
    var resolved;
    resolved, errors := CollectRules(nodes, g.edges, root, errors);
    errors := CheckStrictProfiles(nodes, g.edges, root, resolved, errors);
  }

  /** The public entry point: the diagnoses of both layers, and none for the chains that both accept. */
  method Verify(g: Chain, loader: Option<Loader>, requireBytes: bool) returns (errors: Diagnoses)
    ensures forall d :: d in errors <==> Diagnosed(g, loader, requireBytes, d) || StrictlyDiagnosed(g, d)
    ensures errors == [] <==> exists root :: Accepted(g, root, loader, requireBytes) && StrictlyAccepted(g, root)
    ensures errors == [] <==> exists root :: Sound(g, root, loader, requireBytes) && StrictlySound(g, root)
  {
    hide Accepted, StrictlyAccepted, Diagnosed, StrictlyDiagnosed, Sound, StrictlySound;
    var first := VerifyChain(g, loader, requireBytes);
    errors := VerifyStrictly(g, first);
    NothingListed(first);
    NothingListed(errors);
    BothSilent(g, loader, requireBytes);
    ReferenceAgreesStrictly(g, loader, requireBytes);
  }

  lemma BothSilent(g: Chain, loader: Option<Loader>, requireBytes: bool)
    ensures (forall d :: !Diagnosed(g, loader, requireBytes, d) && !StrictlyDiagnosed(g, d)) <==>
      exists root :: Accepted(g, root, loader, requireBytes) && StrictlyAccepted(g, root)
  {
    SilentIsAccepted(g, loader, requireBytes);
    forall root | Accepted(g, root, loader, requireBytes) {
      StrictlySilent(g, root, loader, requireBytes);
    }
    hide Accepted, StrictlyAccepted, Diagnosed, StrictlyDiagnosed;
  }
}
