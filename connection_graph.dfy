/**
 * The interaction graph written with the -g option: a vertex line for
 * every hit protein, and an edge for every ordered pair of participants of
 * a reaction or components of a complex that some hit protein belongs to,
 * or of members of a set stored under a hit protein's identifier in the
 * set-to-members table (the table the set lookup reads). Each reaction,
 * complex and set is expanded once. The pair decides the file: internal
 * when both are hit proteins, external when only one is. A set edge is
 * written from the protein that listed the set, not from the pair's first
 * member.
 *
 * Sets and multimaps the Java code iterates are sequences here: the order
 * of `hitProteins` is the iteration order of the hit set, and a multimap
 * gives each key its values in their stored order. Each edge file is a
 * header line followed by EdgeLine of every edge, in order.
 */
module ConnectionGraph {
  import opened JavaText
  import PathwayMatcher

  const Separator: string := PathwayMatcher.Separator

  /** One entry of a reaction's participants: a participant and its role, as text. */
  datatype Participant = Participant(id: string, role: string)

  /** One row of an edge file. */
  datatype Edge = Edge(from: string, to: string, kind: string, container: string, roleFrom: string, roleTo: string)

  /** An edge row as written: its six columns joined by tabs. */
  function EdgeLine(e: Edge): string {
    Join(Separator, [e.from, e.to, e.kind, e.container, e.roleFrom, e.roleTo])
  }

  /** The header line of both edge files. */
  const EdgeHeader: string :=
    "from" + Separator + "to" + Separator + "type" + Separator + "container_stId" + Separator + "role_from"
    + Separator + "role_to"

  /** The header line of the vertex file (its second column title starts with a space). */
  const VertexHeader: string := "id" + Separator + " name"

  datatype Kind = ReactionKind | ComplexKind | SetKind

  /** A reaction, complex or set, with the hit protein `via` whose lookup listed it. */
  datatype Container = Container(kind: Kind, id: string, via: string)

  /** The static tables the graph is built from. */
  datatype StaticData = StaticData(
    proteinNames: map<string, string>,
    reactions: map<string, seq<Participant>>,
    proteinsToReactions: map<string, seq<string>>,
    proteinsToComplexes: map<string, seq<string>>,
    complexesToComponents: map<string, seq<string>>,
    setsToMembersAndCandidates: map<string, seq<string>>)

  /** Multimap.get: the values stored under `k`, none when `k` is absent. */
  function Get(m: map<string, seq<string>>, k: string): seq<string> {
    if k in m then m[k] else []
  }

  /** `a.compareTo(b) < 0`: lexicographic order on characters. */
  predicate LexLess(a: string, b: string) {
    if a == [] then b != []
    else if b == [] then false
    else if a[0] != b[0] then a[0] < b[0]
    else LexLess(a[1..], b[1..])
  }

  /** compareTo orders strictly: never both ways round, and one way round for distinct strings. */
  lemma {:induction false} LexLessStrict(a: string, b: string)
    ensures !(LexLess(a, b) && LexLess(b, a))
    ensures a != b ==> LexLess(a, b) || LexLess(b, a)
    ensures !LexLess(a, a)
  {
    if a != [] && b != [] && a[0] == b[0] {
      LexLessStrict(a[1..], b[1..]);
      if a != b {
        assert a == [a[0]] + a[1..] && b == [b[0]] + b[1..];
      }
    }
    if a != [] {
      LexLessStrict(a[1..], a[1..]);
    }
  }

  /** Plain identifiers given the role their edges are written with. */
  function Tagged(ids: seq<string>, role: string): (ps: seq<Participant>)
    ensures |ps| == |ids|
    ensures forall i :: 0 <= i < |ids| ==> ps[i] == Participant(ids[i], role)
  {
    seq(|ids|, i requires 0 <= i < |ids| => Participant(ids[i], role))
  }

  /** The entries a container's pair loops run over. */
  function Members(c: Container, data: StaticData): seq<Participant> {
    match c.kind
    case ReactionKind => if c.id in data.reactions then data.reactions[c.id] else []
    case ComplexKind => Tagged(Get(data.complexesToComponents, c.id), "component")
    case SetKind => Tagged(Get(data.setsToMembersAndCandidates, c.id), "member/candidate")
  }

  /**
   * The edge row for the ordered pair (f, t) of a container. A set's row
   * starts with the protein that listed the set, not with `f`.
   */
  function MakeEdge(c: Container, f: Participant, t: Participant): Edge {
    match c.kind
    case ReactionKind => Edge(f.id, t.id, "Reaction", c.id, f.role, t.role)
    case ComplexKind => Edge(f.id, t.id, "Complex", c.id, "component", "component")
    case SetKind => Edge(c.via, t.id, "Set", c.id, "member/candidate", "member/candidate")
  }

  /** A pair that gives an internal edge: ordered, both ends hit. */
  predicate InternalPair(f: Participant, t: Participant, hit: seq<string>) {
    LexLess(f.id, t.id) && f.id in hit && t.id in hit
  }

  /** A pair that gives an external edge: ordered, exactly one end hit. */
  predicate ExternalPair(f: Participant, t: Participant, hit: seq<string>) {
    LexLess(f.id, t.id) && (f.id in hit || t.id in hit) && !(f.id in hit && t.id in hit)
  }

  datatype Edges = Edges(internal: seq<Edge>, external: seq<Edge>)

  const NoEdges := Edges([], [])

  function Plus(a: Edges, b: Edges): Edges {
    Edges(a.internal + b.internal, a.external + b.external)
  }

  /** What the innermost test does with one ordered pair. */
  function PairEdges(c: Container, f: Participant, t: Participant, hit: seq<string>): Edges {
    if LexLess(f.id, t.id) && (f.id in hit || t.id in hit) then
      if f.id in hit && t.id in hit then Edges([MakeEdge(c, f, t)], [])
      else Edges([], [MakeEdge(c, f, t)])
    else NoEdges
  }

  /** Groups of edges written one after another. */
  function Concat(parts: seq<Edges>): Edges {
    if parts == [] then NoEdges else Plus(Concat(parts[..|parts| - 1]), parts[|parts| - 1])
  }

  /** An edge is in the internal part of consecutive groups exactly when one group has it there. */
  lemma {:induction false} ConcatInternalIff(parts: seq<Edges>, e: Edge)
    ensures e in Concat(parts).internal <==> exists k :: 0 <= k < |parts| && e in parts[k].internal
  {
    if parts != [] {
      var n := |parts| - 1;
      var init := parts[..n];
      ConcatInternalIff(init, e);
      if e in Concat(init).internal {
        var k :| 0 <= k < |init| && e in init[k].internal;
        assert init[k] == parts[k];
      }
      if exists k :: 0 <= k < |parts| && e in parts[k].internal {
        var k :| 0 <= k < |parts| && e in parts[k].internal;
        if k < n {
          assert init[k] == parts[k];
        }
      }
    }
  }

  /** An edge is in the external part of consecutive groups exactly when one group has it there. */
  lemma {:induction false} ConcatExternalIff(parts: seq<Edges>, e: Edge)
    ensures e in Concat(parts).external <==> exists k :: 0 <= k < |parts| && e in parts[k].external
  {
    if parts != [] {
      var n := |parts| - 1;
      var init := parts[..n];
      ConcatExternalIff(init, e);
      if e in Concat(init).external {
        var k :| 0 <= k < |init| && e in init[k].external;
        assert init[k] == parts[k];
      }
      if exists k :: 0 <= k < |parts| && e in parts[k].external {
        var k :| 0 <= k < |parts| && e in parts[k].external;
        if k < n {
          assert init[k] == parts[k];
        }
      }
    }
  }

  /** One more group appends its edges after the others. */
  lemma ConcatSnoc(parts: seq<Edges>, x: Edges)
    ensures Concat(parts + [x]) == Plus(Concat(parts), x)
  {
    assert (parts + [x])[..|parts|] == parts;
  }

  /** The edge groups of the pairs (f, t) for each t of `tos`, in order. */
  function PairGroups(c: Container, f: Participant, tos: seq<Participant>, hit: seq<string>): (r: seq<Edges>)
    ensures |r| == |tos|
  {
    if tos == [] then [] else PairGroups(c, f, tos[..|tos| - 1], hit) + [PairEdges(c, f, tos[|tos| - 1], hit)]
  }

  /** The edges from `f` to each of `tos`, in order: one run of the inner pair loop. */
  function RowEdges(c: Container, f: Participant, tos: seq<Participant>, hit: seq<string>): Edges {
    Concat(PairGroups(c, f, tos, hit))
  }

  /** The edge groups of the rows of each f of `froms`, in order. */
  function RowGroups(c: Container, froms: seq<Participant>, tos: seq<Participant>, hit: seq<string>): (r: seq<Edges>)
    ensures |r| == |froms|
  {
    if froms == [] then [] else RowGroups(c, froms[..|froms| - 1], tos, hit) + [RowEdges(c, froms[|froms| - 1], tos, hit)]
  }

  /** The edges of the pairs (f, t), f from `froms` and t from `tos`, outer loop over `froms`. */
  function ContainerEdges(c: Container, froms: seq<Participant>, tos: seq<Participant>, hit: seq<string>): Edges {
    Concat(RowGroups(c, froms, tos, hit))
  }

  lemma {:induction false} PairGroupsAt(c: Container, f: Participant, tos: seq<Participant>, hit: seq<string>, j: nat)
    requires j < |tos|
    ensures PairGroups(c, f, tos, hit)[j] == PairEdges(c, f, tos[j], hit)
  {
    var n := |tos| - 1;
    if j < n {
      PairGroupsAt(c, f, tos[..n], hit, j);
    }
  }

  lemma {:induction false} RowGroupsAt(c: Container, froms: seq<Participant>, tos: seq<Participant>, hit: seq<string>, i: nat)
    requires i < |froms|
    ensures RowGroups(c, froms, tos, hit)[i] == RowEdges(c, froms[i], tos, hit)
  {
    var n := |froms| - 1;
    if i < n {
      RowGroupsAt(c, froms[..n], tos, hit, i);
    }
  }

  /** One more inner-loop turn appends the edges of one pair. */
  lemma RowEdgesSnoc(c: Container, f: Participant, tos: seq<Participant>, b: nat, hit: seq<string>)
    requires b < |tos|
    ensures RowEdges(c, f, tos[..b + 1], hit) == Plus(RowEdges(c, f, tos[..b], hit), PairEdges(c, f, tos[b], hit))
  {
    assert tos[..b + 1][..b] == tos[..b];
    ConcatSnoc(PairGroups(c, f, tos[..b], hit), PairEdges(c, f, tos[b], hit));
  }

  /** One more outer-loop turn appends the edges of one row. */
  lemma ContainerEdgesSnoc(c: Container, froms: seq<Participant>, a: nat, tos: seq<Participant>, hit: seq<string>)
    requires a < |froms|
    ensures ContainerEdges(c, froms[..a + 1], tos, hit)
            == Plus(ContainerEdges(c, froms[..a], tos, hit), RowEdges(c, froms[a], tos, hit))
  {
    assert froms[..a + 1][..a] == froms[..a];
    ConcatSnoc(RowGroups(c, froms[..a], tos, hit), RowEdges(c, froms[a], tos, hit));
  }

  /** A pair gives an internal edge exactly when it is an internal pair, and an external one likewise. */
  lemma PairEdgesIff(c: Container, f: Participant, t: Participant, hit: seq<string>, e: Edge)
    ensures e in PairEdges(c, f, t, hit).internal <==> InternalPair(f, t, hit) && e == MakeEdge(c, f, t)
    ensures e in PairEdges(c, f, t, hit).external <==> ExternalPair(f, t, hit) && e == MakeEdge(c, f, t)
  {
  }

  /** The internal edges of a row are exactly those of its internal pairs. */
  lemma RowInternalIff(c: Container, f: Participant, tos: seq<Participant>, hit: seq<string>, e: Edge)
    ensures e in RowEdges(c, f, tos, hit).internal <==>
              exists j :: 0 <= j < |tos| && InternalPair(f, tos[j], hit) && e == MakeEdge(c, f, tos[j])
  {
    var groups := PairGroups(c, f, tos, hit);
    ConcatInternalIff(groups, e);
    forall j | 0 <= j < |tos|
      ensures e in groups[j].internal <==> InternalPair(f, tos[j], hit) && e == MakeEdge(c, f, tos[j])
    {
      PairGroupsAt(c, f, tos, hit, j);
      PairEdgesIff(c, f, tos[j], hit, e);
    }
  }

  /** The external edges of a row are exactly those of its external pairs. */
  lemma RowExternalIff(c: Container, f: Participant, tos: seq<Participant>, hit: seq<string>, e: Edge)
    ensures e in RowEdges(c, f, tos, hit).external <==>
              exists j :: 0 <= j < |tos| && ExternalPair(f, tos[j], hit) && e == MakeEdge(c, f, tos[j])
  {
    var groups := PairGroups(c, f, tos, hit);
    ConcatExternalIff(groups, e);
    forall j | 0 <= j < |tos|
      ensures e in groups[j].external <==> ExternalPair(f, tos[j], hit) && e == MakeEdge(c, f, tos[j])
    {
      PairGroupsAt(c, f, tos, hit, j);
      PairEdgesIff(c, f, tos[j], hit, e);
    }
  }

  /** The internal edges of a container are exactly those of its internal pairs. */
  lemma ContainerInternalIff(c: Container, froms: seq<Participant>, tos: seq<Participant>,
                             hit: seq<string>, e: Edge)
    ensures e in ContainerEdges(c, froms, tos, hit).internal <==>
              exists i, j :: 0 <= i < |froms| && 0 <= j < |tos| && InternalPair(froms[i], tos[j], hit)
                             && e == MakeEdge(c, froms[i], tos[j])
  {
    var rows := RowGroups(c, froms, tos, hit);
    ConcatInternalIff(rows, e);
    forall i | 0 <= i < |froms|
      ensures e in rows[i].internal <==>
                exists j :: 0 <= j < |tos| && InternalPair(froms[i], tos[j], hit) && e == MakeEdge(c, froms[i], tos[j])
    {
      RowGroupsAt(c, froms, tos, hit, i);
      RowInternalIff(c, froms[i], tos, hit, e);
    }
  }

  /** The external edges of a container are exactly those of its external pairs. */
  lemma ContainerExternalIff(c: Container, froms: seq<Participant>, tos: seq<Participant>,
                             hit: seq<string>, e: Edge)
    ensures e in ContainerEdges(c, froms, tos, hit).external <==>
              exists i, j :: 0 <= i < |froms| && 0 <= j < |tos| && ExternalPair(froms[i], tos[j], hit)
                             && e == MakeEdge(c, froms[i], tos[j])
  {
    var rows := RowGroups(c, froms, tos, hit);
    ConcatExternalIff(rows, e);
    forall i | 0 <= i < |froms|
      ensures e in rows[i].external <==>
                exists j :: 0 <= j < |tos| && ExternalPair(froms[i], tos[j], hit) && e == MakeEdge(c, froms[i], tos[j])
    {
      RowGroupsAt(c, froms, tos, hit, i);
      RowExternalIff(c, froms[i], tos, hit, e);
    }
  }

  /**
   * What writing the edges has done so far: the reactions, complexes and
   * sets already checked, the containers expanded, in order, and the edges
   * written to each file.
   */
  datatype GraphState = GraphState(
    checkedReactions: set<string>, checkedComplexes: set<string>, checkedSets: set<string>,
    expanded: seq<Container>, internal: seq<Edge>, external: seq<Edge>)

  const Initial := GraphState({}, {}, {}, [], [], [])

  /** The checked set for containers of kind `k`. */
  function Checked(st: GraphState, k: Kind): set<string> {
    match k
    case ReactionKind => st.checkedReactions
    case ComplexKind => st.checkedComplexes
    case SetKind => st.checkedSets
  }

  /** Adds `id` to the checked set of kind `k`, leaving the other two alone. */
  function MarkChecked(st: GraphState, k: Kind, id: string): (r: GraphState)
    ensures forall k' :: Checked(r, k') == if k' == k then Checked(st, k') + {id} else Checked(st, k')
    ensures r.expanded == st.expanded && r.internal == st.internal && r.external == st.external
  {
    match k
    case ReactionKind => st.(checkedReactions := st.checkedReactions + {id})
    case ComplexKind => st.(checkedComplexes := st.checkedComplexes + {id})
    case SetKind => st.(checkedSets := st.checkedSets + {id})
  }

  /**
   * One turn of a container loop: a container already checked is skipped;
   * otherwise it is marked checked and the edges of its pairs are written.
   */
  function Expand(st: GraphState, c: Container, data: StaticData, hit: seq<string>): GraphState {
    if c.id in Checked(st, c.kind) then st
    else
      var es := Contribution(c, data, hit);
      MarkChecked(st, c.kind, c.id).(expanded := st.expanded + [c],
                                     internal := st.internal + es.internal,
                                     external := st.external + es.external)
  }

  /** A whole container loop over `ids`, the containers of kind `kind` listed for protein `via`. */
  function ExpandAll(st: GraphState, kind: Kind, ids: seq<string>, via: string, data: StaticData,
                     hit: seq<string>): GraphState
  {
    if ids == [] then st
    else Expand(ExpandAll(st, kind, ids[..|ids| - 1], via, data, hit), Container(kind, ids[|ids| - 1], via), data, hit)
  }

  /** The body of the loop over hit proteins: its reactions, then its complexes, then its sets. */
  function ProteinStep(st: GraphState, p: string, data: StaticData, hit: seq<string>): GraphState {
    var afterReactions := ExpandAll(st, ReactionKind, Get(data.proteinsToReactions, p), p, data, hit);
    var afterComplexes := ExpandAll(afterReactions, ComplexKind, Get(data.proteinsToComplexes, p), p, data, hit);
    ExpandAll(afterComplexes, SetKind, Get(data.setsToMembersAndCandidates, p), p, data, hit)
  }

  /** The state after the loop over `proteins`, a prefix of the hit proteins `hit`. */
  function Graph(proteins: seq<string>, data: StaticData, hit: seq<string>): GraphState {
    if proteins == [] then Initial
    else ProteinStep(Graph(proteins[..|proteins| - 1], data, hit), proteins[|proteins| - 1], data, hit)
  }

  /** The name column of a vertex: the protein's name, "null" when it has none. */
  function NameOrNull(p: string, data: StaticData): string {
    if p in data.proteinNames then data.proteinNames[p] else "null"
  }

  /** The vertex lines of `proteins`, each ended by `eol`. */
  function VertexText(proteins: seq<string>, data: StaticData, eol: string): string {
    if proteins == [] then ""
    else
      var p := proteins[|proteins| - 1];
      VertexText(proteins[..|proteins| - 1], data, eol) + Join(Separator, [p, NameOrNull(p, data)]) + eol
  }

  /** The edge lines of `es`, each ended by `eol`. */
  function EdgeText(es: seq<Edge>, eol: string): string {
    if es == [] then "" else EdgeText(es[..|es| - 1], eol) + EdgeLine(es[|es| - 1]) + eol
  }

  /** The text of consecutive edges is the text of the first ones followed by that of the rest. */
  lemma {:induction false} EdgeTextAppend(a: seq<Edge>, b: seq<Edge>, eol: string)
    ensures EdgeText(a + b, eol) == EdgeText(a, eol) + EdgeText(b, eol)
  {
    if b != [] {
      var n := |b| - 1;
      EdgeTextAppend(a, b[..n], eol);
      assert (a + b)[..|a + b| - 1] == a + b[..n];
    } else {
      assert a + b == a;
    }
  }

  /** The endpoint facts for the edges of containers listed for hit proteins. */
  lemma ExpandedEdgeEndpoints(ex: seq<Container>, data: StaticData, hit: seq<string>, e: Edge)
    requires ViaIn(ex, hit)
    ensures e in AllEdges(ex, data, hit).internal && e.kind != "Set" ==>
              e.from in hit && e.to in hit && e.from != e.to
    ensures e in AllEdges(ex, data, hit).external && e.kind != "Set" ==>
              e.from != e.to && (e.from in hit <==> e.to !in hit)
    ensures (e in AllEdges(ex, data, hit).internal || e in AllEdges(ex, data, hit).external) && e.kind == "Set" ==>
              e.from in hit
  {
    AllInternalIff(ex, data, hit, e);
    AllExternalIff(ex, data, hit, e);
    if e in AllEdges(ex, data, hit).internal {
      var k :| 0 <= k < |ex| && e in Contribution(ex[k], data, hit).internal;
      EdgeEndpoints(ex[k], Members(ex[k], data), hit, e);
    }
    if e in AllEdges(ex, data, hit).external {
      var k :| 0 <= k < |ex| && e in Contribution(ex[k], data, hit).external;
      EdgeEndpoints(ex[k], Members(ex[k], data), hit, e);
    }
  }

  /**
   * Over the whole run: a reaction or complex edge in the internal file
   * joins two different hit proteins, one in the external file joins a
   * hit protein and another entity, and every set edge starts at a hit
   * protein.
   */
  lemma GraphEdgeEndpoints(hit: seq<string>, data: StaticData, e: Edge)
    ensures e in Graph(hit, data, hit).internal && e.kind != "Set" ==>
              e.from in hit && e.to in hit && e.from != e.to
    ensures e in Graph(hit, data, hit).external && e.kind != "Set" ==>
              e.from != e.to && (e.from in hit <==> e.to !in hit)
    ensures (e in Graph(hit, data, hit).internal || e in Graph(hit, data, hit).external) && e.kind == "Set" ==>
              e.from in hit
  {
    var g := Graph(hit, data, hit);
    GraphConsistent(hit, data, hit);
    assert g.internal == AllEdges(g.expanded, data, hit).internal;
    assert g.external == AllEdges(g.expanded, data, hit).external;
    ExpandedEdgeEndpoints(g.expanded, data, hit, e);
  }

  /** Two groups written one after the other. */
  lemma ConcatPair(x: Edges, y: Edges)
    ensures Concat([x, y]) == Plus(Plus(NoEdges, x), y)
  {
    assert [x, y][..1] == [x];
    assert [x][..0] == [];
    assert Concat([x]) == Plus(NoEdges, x);
  }

  /** The set S = {A, P} reached through protein P, with its members as the pair loops see them. */
  const SetS := Container(SetKind, "S", "P")
  const MemberA := Participant("A", "member/candidate")
  const MemberP := Participant("P", "member/candidate")
  const EdgePP := Edge("P", "P", "Set", "S", "member/candidate", "member/candidate")

  /** The rows of S with P the only hit protein: only the pair (A, P) is written. */
  lemma SetRowsExample()
    ensures RowEdges(SetS, MemberA, [MemberA, MemberP], ["P"]) == Edges([], [EdgePP])
    ensures RowEdges(SetS, MemberP, [MemberA, MemberP], ["P"]) == NoEdges
  {
    var ms, hit := [MemberA, MemberP], ["P"];
    assert LexLess("A", "P") && !LexLess("P", "A") && !LexLess("A", "A") && !LexLess("P", "P");
    assert ms[..1] == [MemberA] && [MemberA][..0] == [];
    assert PairGroups(SetS, MemberA, ms, hit) == [NoEdges, Edges([], [EdgePP])];
    assert PairGroups(SetS, MemberP, ms, hit) == [NoEdges, NoEdges];
    ConcatPair(NoEdges, Edges([], [EdgePP]));
    ConcatPair(NoEdges, NoEdges);
  }

  /** All the edges of S: one external edge. */
  lemma SetContainerExample()
    ensures ContainerEdges(SetS, [MemberA, MemberP], [MemberA, MemberP], ["P"]) == Edges([], [EdgePP])
  {
    var ms, hit := [MemberA, MemberP], ["P"];
    SetRowsExample();
    assert ms[..1] == [MemberA] && [MemberA][..0] == [];
    assert RowGroups(SetS, ms, ms, hit) == [Edges([], [EdgePP]), NoEdges];
    ConcatPair(Edges([], [EdgePP]), NoEdges);
  }

  /**
   * The first column of a set edge is the protein that listed the set, not
   * the member the pair starts from: with hit protein P in set S = {A, P},
   * the pair (A, P) is written as an external edge from P to P.
   */
  lemma SetEdgeFromListingProtein()
    ensures var data := StaticData(map[], map[], map[], map[], map[], map["P" := ["S"], "S" := ["A", "P"]]);
            var g := Graph(["P"], data, ["P"]);
            g.internal == [] && g.external == [EdgePP]
  {
    var data := StaticData(map[], map[], map[], map[], map[], map["P" := ["S"], "S" := ["A", "P"]]);
    assert Members(SetS, data) == [MemberA, MemberP];
    SetContainerExample();
    var g1 := ExpandAll(Initial, ReactionKind, [], "P", data, ["P"]);
    var g2 := ExpandAll(g1, ComplexKind, [], "P", data, ["P"]);
    assert g2 == Initial;
    assert ["S"][..0] == [];
    assert ExpandAll(g2, SetKind, ["S"], "P", data, ["P"]) == Expand(Initial, SetS, data, ["P"]);
  }

  /** Text already written followed by the text of `b` is the text of `a + b`. */
  lemma WrittenAppend(s: string, a: seq<Edge>, b: seq<Edge>, eol: string)
    ensures s + EdgeText(a, eol) + EdgeText(b, eol) == s + EdgeText(a + b, eol)
  {
    EdgeTextAppend(a, b, eol);
    var x, y := EdgeText(a, eol), EdgeText(b, eol);
    assert s + x + y == s + (x + y);
  }

  /** Text already written followed by one more edge line is the text with that edge appended. */
  lemma WrittenSnoc(s: string, es: seq<Edge>, e: Edge, eol: string)
    ensures s + EdgeText(es, eol) + EdgeLine(e) + eol == s + EdgeText(es + [e], eol)
  {
    assert (es + [e])[..|es|] == es;
    var x, l := EdgeText(es, eol), EdgeLine(e);
    assert s + x + l + eol == s + (x + l + eol);
  }

  /** The identifiers of the containers of kind `k` in `ex`. */
  function Ids(ex: seq<Container>, k: Kind): set<string> {
    set i | 0 <= i < |ex| && ex[i].kind == k :: ex[i].id
  }

  /** No container appears twice, by kind and identifier. */
  predicate DistinctKeys(ex: seq<Container>) {
    forall a, b :: 0 <= a < b < |ex| ==> ex[a].kind != ex[b].kind || ex[a].id != ex[b].id
  }

  /** What expanding container `c` writes: the edges of the pairs of its members. */
  function Contribution(c: Container, data: StaticData, hit: seq<string>): Edges {
    ContainerEdges(c, Members(c, data), Members(c, data), hit)
  }

  /** The contributions of the containers `ex`, in order. */
  function Contributions(ex: seq<Container>, data: StaticData, hit: seq<string>): (r: seq<Edges>)
    ensures |r| == |ex|
  {
    seq(|ex|, k requires 0 <= k < |ex| => Contribution(ex[k], data, hit))
  }

  /** The edges of the containers `ex`, container after container. */
  function AllEdges(ex: seq<Container>, data: StaticData, hit: seq<string>): Edges {
    Concat(Contributions(ex, data, hit))
  }

  /**
   * The state agrees with the containers it has expanded: the checked sets
   * are their identifiers, none was expanded twice, and the edge files hold
   * their edges.
   */
  predicate Consistent(st: GraphState, data: StaticData, hit: seq<string>) {
    (forall k :: Checked(st, k) == Ids(st.expanded, k))
    && DistinctKeys(st.expanded)
    && Edges(st.internal, st.external) == AllEdges(st.expanded, data, hit)
  }

  /** Every container of `ex` was listed for one of the proteins `ps`. */
  predicate ViaIn(ex: seq<Container>, ps: seq<string>) {
    forall i :: 0 <= i < |ex| ==> ex[i].via in ps
  }

  /** The containers of the kind a table lists for the proteins `ps`. */
  function Reached(ps: seq<string>, m: map<string, seq<string>>): set<string> {
    set p, x | p in ps && x in Get(m, p) :: x
  }

  lemma ReachedSnoc(ps: seq<string>, p: string, m: map<string, seq<string>>)
    ensures Reached(ps + [p], m) == Reached(ps, m) + (set x | x in Get(m, p))
  {
    forall x | x in Reached(ps + [p], m)
      ensures x in Reached(ps, m) || x in Get(m, p)
    {
      var q :| q in ps + [p] && x in Get(m, q);
      if q != p {
        assert q in ps;
      }
    }
  }

  /** Appending a container adds its identifier to the identifiers of its kind. */
  lemma IdsSnoc(ex: seq<Container>, c: Container, k: Kind)
    ensures Ids(ex + [c], k) == Ids(ex, k) + (if k == c.kind then {c.id} else {})
  {
    var ex' := ex + [c];
    forall x | x in Ids(ex', k)
      ensures x in Ids(ex, k) + (if k == c.kind then {c.id} else {})
    {
      var i :| 0 <= i < |ex'| && ex'[i].kind == k && ex'[i].id == x;
      if i < |ex| {
        assert ex[i] == ex'[i];
      }
    }
    forall x | x in Ids(ex, k)
      ensures x in Ids(ex', k)
    {
      var i :| 0 <= i < |ex| && ex[i].kind == k && ex[i].id == x;
      assert ex'[i] == ex[i];
    }
    if k == c.kind {
      assert ex'[|ex|] == c;
    }
  }

  /** Appending a container not yet among those of its kind keeps the keys distinct. */
  lemma DistinctSnoc(ex: seq<Container>, c: Container)
    requires DistinctKeys(ex) && c.id !in Ids(ex, c.kind)
    ensures DistinctKeys(ex + [c])
  {
    var ex' := ex + [c];
    forall a, b | 0 <= a < b < |ex'|
      ensures ex'[a].kind != ex'[b].kind || ex'[a].id != ex'[b].id
    {
      if b == |ex| {
        assert ex'[a] == ex[a];
        assert ex[a].id in Ids(ex, ex[a].kind);
      } else {
        assert ex'[a] == ex[a] && ex'[b] == ex[b];
      }
    }
  }

  /** One turn of a container loop checks exactly that container. */
  lemma ExpandChecked(st: GraphState, c: Container, data: StaticData, hit: seq<string>, k: Kind)
    ensures Checked(Expand(st, c, data, hit), k) == if k == c.kind then Checked(st, k) + {c.id} else Checked(st, k)
  {
  }

  /** One turn of a container loop keeps the state consistent. */
  lemma ExpandConsistent(st: GraphState, c: Container, data: StaticData, hit: seq<string>)
    requires Consistent(st, data, hit)
    ensures Consistent(Expand(st, c, data, hit), data, hit)
    ensures Expand(st, c, data, hit).expanded == st.expanded
            || Expand(st, c, data, hit).expanded == st.expanded + [c]
  {
    if c.id !in Checked(st, c.kind) {
      var ex := st.expanded;
      var r := Expand(st, c, data, hit);
      assert r.expanded == ex + [c];
      forall k
        ensures Checked(r, k) == Ids(ex + [c], k)
      {
        IdsSnoc(ex, c, k);
      }
      DistinctSnoc(ex, c);
      assert (ex + [c])[..|ex|] == ex;
      var parts := Contributions(ex, data, hit);
      assert Contributions(ex + [c], data, hit) == parts + [Contribution(c, data, hit)];
      ConcatSnoc(parts, Contribution(c, data, hit));
    }
  }

  /** A whole container loop checks exactly the listed containers. */
  lemma {:induction false} ExpandAllChecked(st: GraphState, kind: Kind, ids: seq<string>, via: string,
                                            data: StaticData, hit: seq<string>, k: Kind)
    ensures Checked(ExpandAll(st, kind, ids, via, data, hit), k)
            == if k == kind then Checked(st, k) + (set x | x in ids) else Checked(st, k)
  {
    if ids != [] {
      var n := |ids| - 1;
      ExpandAllChecked(st, kind, ids[..n], via, data, hit, k);
      ExpandChecked(ExpandAll(st, kind, ids[..n], via, data, hit), Container(kind, ids[n], via), data, hit, k);
      assert (set x | x in ids) == (set x | x in ids[..n]) + {ids[n]} by {
        assert ids == ids[..n] + [ids[n]];
      }
    }
  }

  /** A whole container loop keeps the state consistent and records the protein it was run for. */
  lemma {:induction false} ExpandAllConsistent(st: GraphState, kind: Kind, ids: seq<string>, via: string,
                                               data: StaticData, hit: seq<string>, ps: seq<string>)
    requires Consistent(st, data, hit) && ViaIn(st.expanded, ps) && via in ps
    ensures Consistent(ExpandAll(st, kind, ids, via, data, hit), data, hit)
    ensures ViaIn(ExpandAll(st, kind, ids, via, data, hit).expanded, ps)
  {
    if ids != [] {
      var n := |ids| - 1;
      var c := Container(kind, ids[n], via);
      var mid := ExpandAll(st, kind, ids[..n], via, data, hit);
      ExpandAllConsistent(st, kind, ids[..n], via, data, hit, ps);
      ExpandConsistent(mid, c, data, hit);
      var r := Expand(mid, c, data, hit);
      if r.expanded != mid.expanded {
        assert r.expanded == mid.expanded + [c];
        forall i | 0 <= i < |r.expanded|
          ensures r.expanded[i].via in ps
        {
          if i < |mid.expanded| {
            assert r.expanded[i] == mid.expanded[i];
          }
        }
      }
    }
  }

  /**
   * The table looked up for each protein's containers of kind `k`. For sets
   * it is the set-to-members table itself, as the Java code reads it.
   */
  function Table(data: StaticData, k: Kind): map<string, seq<string>> {
    match k
    case ReactionKind => data.proteinsToReactions
    case ComplexKind => data.proteinsToComplexes
    case SetKind => data.setsToMembersAndCandidates
  }

  /** After the loop over the proteins `ps`, the checked containers are those listed for them. */
  lemma {:induction false} GraphChecked(ps: seq<string>, data: StaticData, hit: seq<string>, k: Kind)
    ensures Checked(Graph(ps, data, hit), k) == Reached(ps, Table(data, k))
  {
    if ps != [] {
      var n := |ps| - 1;
      var p := ps[n];
      var init := ps[..n];
      GraphChecked(init, data, hit, k);
      var g0 := Graph(init, data, hit);
      var g1 := ExpandAll(g0, ReactionKind, Get(data.proteinsToReactions, p), p, data, hit);
      var g2 := ExpandAll(g1, ComplexKind, Get(data.proteinsToComplexes, p), p, data, hit);
      ExpandAllChecked(g0, ReactionKind, Get(data.proteinsToReactions, p), p, data, hit, k);
      ExpandAllChecked(g1, ComplexKind, Get(data.proteinsToComplexes, p), p, data, hit, k);
      ExpandAllChecked(g2, SetKind, Get(data.setsToMembersAndCandidates, p), p, data, hit, k);
      assert ps == init + [p];
      ReachedSnoc(init, p, Table(data, k));
    }
  }

  /** After the loop over the proteins `ps`, the state is consistent and every container was listed for one of them. */
  lemma {:induction false} GraphConsistent(ps: seq<string>, data: StaticData, hit: seq<string>)
    ensures Consistent(Graph(ps, data, hit), data, hit)
    ensures ViaIn(Graph(ps, data, hit).expanded, ps)
  {
    if ps != [] {
      var n := |ps| - 1;
      var p := ps[n];
      var init := ps[..n];
      GraphConsistent(init, data, hit);
      var g0 := Graph(init, data, hit);
      assert ps == init + [p];
      assert ViaIn(g0.expanded, ps) by {
        forall i | 0 <= i < |g0.expanded|
          ensures g0.expanded[i].via in ps
        {
          assert g0.expanded[i].via in init;
        }
      }
      var g1 := ExpandAll(g0, ReactionKind, Get(data.proteinsToReactions, p), p, data, hit);
      var g2 := ExpandAll(g1, ComplexKind, Get(data.proteinsToComplexes, p), p, data, hit);
      ExpandAllConsistent(g0, ReactionKind, Get(data.proteinsToReactions, p), p, data, hit, ps);
      ExpandAllConsistent(g1, ComplexKind, Get(data.proteinsToComplexes, p), p, data, hit, ps);
      ExpandAllConsistent(g2, SetKind, Get(data.setsToMembersAndCandidates, p), p, data, hit, ps);
    } else {
      assert forall k :: Checked(Initial, k) == {} == Ids([], k);
    }
  }

  /**
   * After the loop over the proteins `ps` (a prefix of the hit proteins
   * `hit`), each reaction, complex and set listed for one of them has been
   * expanded exactly once, no other container has, each was reached
   * through one of them, and the edge files hold the edges of the expanded
   * containers in the order they were expanded.
   */
  lemma GraphExpandsEachOnce(ps: seq<string>, data: StaticData, hit: seq<string>, k: Kind)
    ensures DistinctKeys(Graph(ps, data, hit).expanded)
    ensures Ids(Graph(ps, data, hit).expanded, k) == Reached(ps, Table(data, k))
    ensures ViaIn(Graph(ps, data, hit).expanded, ps)
    ensures Edges(Graph(ps, data, hit).internal, Graph(ps, data, hit).external)
            == AllEdges(Graph(ps, data, hit).expanded, data, hit)
  {
    GraphConsistent(ps, data, hit);
    GraphChecked(ps, data, hit, k);
  }

  /** An internal edge is in the files exactly when one of the expanded containers contributes it. */
  lemma AllInternalIff(ex: seq<Container>, data: StaticData, hit: seq<string>, e: Edge)
    ensures e in AllEdges(ex, data, hit).internal <==>
              exists k :: 0 <= k < |ex| && e in Contribution(ex[k], data, hit).internal
  {
    var parts := Contributions(ex, data, hit);
    ConcatInternalIff(parts, e);
    assert forall k :: 0 <= k < |ex| ==> parts[k] == Contribution(ex[k], data, hit);
  }



  /** An external edge is in the files exactly when one of the expanded containers contributes it. */
  lemma AllExternalIff(ex: seq<Container>, data: StaticData, hit: seq<string>, e: Edge)
    ensures e in AllEdges(ex, data, hit).external <==>
              exists k :: 0 <= k < |ex| && e in Contribution(ex[k], data, hit).external
  {
    var parts := Contributions(ex, data, hit);
    ConcatExternalIff(parts, e);
    assert forall k :: 0 <= k < |ex| ==> parts[k] == Contribution(ex[k], data, hit);
  }



  /**
   * The edge of one ordered pair: for a reaction or complex it joins two
   * different participants in compareTo order, both hit for an internal
   * pair and exactly one hit for an external pair; a set's edge starts at
   * the protein that listed the set.
   */
  lemma PairEndpoints(c: Container, f: Participant, t: Participant, hit: seq<string>)
    ensures var e := MakeEdge(c, f, t);
            c.kind != SetKind && InternalPair(f, t, hit) ==>
              LexLess(e.from, e.to) && e.from != e.to && e.from in hit && e.to in hit
    ensures var e := MakeEdge(c, f, t);
            c.kind != SetKind && ExternalPair(f, t, hit) ==>
              LexLess(e.from, e.to) && e.from != e.to && (e.from in hit <==> e.to !in hit)
    ensures var e := MakeEdge(c, f, t);
            e.container == c.id && (e.kind == "Set" <==> c.kind == SetKind)
            && (c.kind == SetKind ==> e.from == c.via)
  {
    LexLessStrict(f.id, t.id);
  }

  /** The endpoint facts of PairEndpoints hold for every edge a container contributes. */
  lemma EdgeEndpoints(c: Container, ms: seq<Participant>, hit: seq<string>, e: Edge)
    ensures c.kind != SetKind && e in ContainerEdges(c, ms, ms, hit).internal ==>
              LexLess(e.from, e.to) && e.from != e.to && e.from in hit && e.to in hit
    ensures c.kind != SetKind && e in ContainerEdges(c, ms, ms, hit).external ==>
              LexLess(e.from, e.to) && e.from != e.to && (e.from in hit <==> e.to !in hit)
    ensures e in ContainerEdges(c, ms, ms, hit).internal || e in ContainerEdges(c, ms, ms, hit).external ==>
              e.container == c.id && (e.kind == "Set" <==> c.kind == SetKind)
              && (c.kind == SetKind ==> e.from == c.via)
  {
    var es := ContainerEdges(c, ms, ms, hit);
    if e in es.internal {
      ContainerInternalIff(c, ms, ms, hit, e);
      var i, j :| 0 <= i < |ms| && 0 <= j < |ms| && InternalPair(ms[i], ms[j], hit) && e == MakeEdge(c, ms[i], ms[j]);
      PairEndpoints(c, ms[i], ms[j], hit);
    }
    if e in es.external {
      ContainerExternalIff(c, ms, ms, hit, e);
      var i, j :| 0 <= i < |ms| && 0 <= j < |ms| && ExternalPair(ms[i], ms[j], hit) && e == MakeEdge(c, ms[i], ms[j]);
      PairEndpoints(c, ms[i], ms[j], hit);
    }
  }

  /** The inner pair loop: the pairs (from, t) for each t of `tos`, each edge written to its file. */
  method EmitRow(c: Container, from: Participant, tos: seq<Participant>, hit: seq<string>,
                 internalOut: PathwayMatcher.Writer, externalOut: PathwayMatcher.Writer)
    requires internalOut != externalOut
    modifies internalOut, externalOut
    ensures internalOut.written
            == old(internalOut.written) + EdgeText(RowEdges(c, from, tos, hit).internal, internalOut.eol)
    ensures externalOut.written
            == old(externalOut.written) + EdgeText(RowEdges(c, from, tos, hit).external, externalOut.eol)
  {
    ghost var iStart := internalOut.written;
    ghost var eStart := externalOut.written;
    for b := 0 to |tos|
      invariant internalOut.written == iStart + EdgeText(RowEdges(c, from, tos[..b], hit).internal, internalOut.eol)
      invariant externalOut.written == eStart + EdgeText(RowEdges(c, from, tos[..b], hit).external, externalOut.eol)
    {
      var to := tos[b];
      ghost var done := RowEdges(c, from, tos[..b], hit);
      RowEdgesSnoc(c, from, tos, b, hit);
      if LexLess(from.id, to.id) {
        if from.id in hit || to.id in hit {
          var line := EdgeLine(MakeEdge(c, from, to));
          if from.id in hit && to.id in hit {
            internalOut.Write(line);
            internalOut.NewLine();
            WrittenSnoc(iStart, done.internal, MakeEdge(c, from, to), internalOut.eol);
            assert done.external + [] == done.external;
          } else {
            externalOut.Write(line);
            externalOut.NewLine();
            WrittenSnoc(eStart, done.external, MakeEdge(c, from, to), externalOut.eol);
            assert done.internal + [] == done.internal;
          }
        } else {
          assert PairEdges(c, from, to, hit) == NoEdges;
          assert done.internal + [] == done.internal && done.external + [] == done.external;
        }
      } else {
        assert PairEdges(c, from, to, hit) == NoEdges;
        assert done.internal + [] == done.internal && done.external + [] == done.external;
      }
    }
    assert tos[..|tos|] == tos;
  }

  /** The pair loops of one container, writing each edge to the file it belongs in. */
  method EmitPairs(c: Container, members: seq<Participant>, hit: seq<string>,
                   internalOut: PathwayMatcher.Writer, externalOut: PathwayMatcher.Writer)
    requires internalOut != externalOut
    modifies internalOut, externalOut
    ensures internalOut.written
            == old(internalOut.written) + EdgeText(ContainerEdges(c, members, members, hit).internal, internalOut.eol)
    ensures externalOut.written
            == old(externalOut.written) + EdgeText(ContainerEdges(c, members, members, hit).external, externalOut.eol)
  {
    ghost var iStart := internalOut.written;
    ghost var eStart := externalOut.written;
    for a := 0 to |members|
      invariant internalOut.written
                == iStart + EdgeText(ContainerEdges(c, members[..a], members, hit).internal, internalOut.eol)
      invariant externalOut.written
                == eStart + EdgeText(ContainerEdges(c, members[..a], members, hit).external, externalOut.eol)
    {
      ghost var before := ContainerEdges(c, members[..a], members, hit);
      ghost var row := RowEdges(c, members[a], members, hit);
      EmitRow(c, members[a], members, hit, internalOut, externalOut);
      ContainerEdgesSnoc(c, members, a, members, hit);
      WrittenAppend(iStart, before.internal, row.internal, internalOut.eol);
      WrittenAppend(eStart, before.external, row.external, externalOut.eol);
    }
    assert members[..|members|] == members;
  }
  /**
   * One turn of a container loop: container `c` is skipped when already in
   * `checked`, otherwise added to it and the edges of its pairs written.
   * `st` is the state before the turn; each writer holds the text `iBase`
   * or `eBase` followed by the edges of the state.
   */
  method EmitContainer(c: Container, data: StaticData, hit: seq<string>, checked: set<string>,
                       internalOut: PathwayMatcher.Writer, externalOut: PathwayMatcher.Writer,
                       ghost st: GraphState, ghost iBase: string, ghost eBase: string)
    returns (checkedAfter: set<string>, ghost stAfter: GraphState)
    requires internalOut != externalOut
    requires checked == Checked(st, c.kind)
    requires c.kind == ReactionKind ==> c.id in data.reactions
    requires internalOut.written == iBase + EdgeText(st.internal, internalOut.eol)
    requires externalOut.written == eBase + EdgeText(st.external, externalOut.eol)
    modifies internalOut, externalOut
    ensures stAfter == Expand(st, c, data, hit)
    ensures checkedAfter == Checked(stAfter, c.kind)
    ensures forall k :: k != c.kind ==> Checked(stAfter, k) == Checked(st, k)
    ensures internalOut.written == iBase + EdgeText(stAfter.internal, internalOut.eol)
    ensures externalOut.written == eBase + EdgeText(stAfter.external, externalOut.eol)
  {
    stAfter := Expand(st, c, data, hit);
    forall k
      ensures Checked(stAfter, k) == if k == c.kind then Checked(st, k) + {c.id} else Checked(st, k)
    {
      ExpandChecked(st, c, data, hit, k);
    }
    if c.id in checked {
      checkedAfter := checked;
      return;
    }
    checkedAfter := checked + {c.id};
    var members: seq<Participant>;
    match c.kind {
      case ReactionKind => members := data.reactions[c.id];
      case ComplexKind => members := Tagged(Get(data.complexesToComponents, c.id), "component");
      case SetKind => members := Tagged(Get(data.setsToMembersAndCandidates, c.id), "member/candidate");
    }
    assert members == Members(c, data);
    ghost var es := Contribution(c, data, hit);
    EmitPairs(c, members, hit, internalOut, externalOut);
    WrittenAppend(iBase, st.internal, es.internal, internalOut.eol);
    WrittenAppend(eBase, st.external, es.external, externalOut.eol);
  }

  /**
   * One container loop inside the loop over hit proteins: the containers
   * `ids` of kind `kind` listed for protein `via`, in order.
   */
  method EmitContainers(kind: Kind, ids: seq<string>, via: string, data: StaticData, hit: seq<string>,
                        checked: set<string>, internalOut: PathwayMatcher.Writer, externalOut: PathwayMatcher.Writer,
                        ghost st: GraphState, ghost iBase: string, ghost eBase: string)
    returns (checkedAfter: set<string>, ghost stAfter: GraphState)
    requires internalOut != externalOut
    requires checked == Checked(st, kind)
    requires kind == ReactionKind ==> forall r :: r in ids ==> r in data.reactions
    requires internalOut.written == iBase + EdgeText(st.internal, internalOut.eol)
    requires externalOut.written == eBase + EdgeText(st.external, externalOut.eol)
    modifies internalOut, externalOut
    ensures stAfter == ExpandAll(st, kind, ids, via, data, hit)
    ensures checkedAfter == Checked(stAfter, kind)
    ensures forall k :: k != kind ==> Checked(stAfter, k) == Checked(st, k)
    ensures internalOut.written == iBase + EdgeText(stAfter.internal, internalOut.eol)
    ensures externalOut.written == eBase + EdgeText(stAfter.external, externalOut.eol)
  {
    checkedAfter := checked;
    stAfter := st;
    for j := 0 to |ids|
      invariant stAfter == ExpandAll(st, kind, ids[..j], via, data, hit)
      invariant checkedAfter == Checked(stAfter, kind)
      invariant forall k :: k != kind ==> Checked(stAfter, k) == Checked(st, k)
      invariant internalOut.written == iBase + EdgeText(stAfter.internal, internalOut.eol)
      invariant externalOut.written == eBase + EdgeText(stAfter.external, externalOut.eol)
    {
      assert ids[..j + 1][..j] == ids[..j];
      checkedAfter, stAfter := EmitContainer(Container(kind, ids[j], via), data, hit, checkedAfter,
                                             internalOut, externalOut, stAfter, iBase, eBase);
    }
    assert ids[..|ids|] == ids;
  }

  /** The vertex loop: one line per hit protein, its identifier and its name. */
  method WriteVertices(out: PathwayMatcher.Writer, hitProteins: seq<string>, data: StaticData)
    modifies out
    ensures out.written == old(out.written) + VertexText(hitProteins, data, out.eol)
  {
    ghost var start := out.written;
    for i := 0 to |hitProteins|
      invariant out.written == start + VertexText(hitProteins[..i], data, out.eol)
    {
      var protein := hitProteins[i];
      var line := Join(Separator, [protein, NameOrNull(protein, data)]);
      ghost var before := VertexText(hitProteins[..i], data, out.eol);
      out.Write(line);
      out.NewLine();
      assert hitProteins[..i + 1][..i] == hitProteins[..i];
      assert start + before + line + out.eol == start + (before + line + out.eol);
    }
    assert hitProteins[..|hitProteins|] == hitProteins;
  }

  /** The loop over hit proteins that writes the edges. */
  method WriteEdges(hitProteins: seq<string>, data: StaticData,
                    internalOut: PathwayMatcher.Writer, externalOut: PathwayMatcher.Writer)
    requires internalOut != externalOut
    requires forall p, r :: p in hitProteins && r in Get(data.proteinsToReactions, p) ==> r in data.reactions
    modifies internalOut, externalOut
    ensures internalOut.written
            == old(internalOut.written) + EdgeText(Graph(hitProteins, data, hitProteins).internal, internalOut.eol)
    ensures externalOut.written
            == old(externalOut.written) + EdgeText(Graph(hitProteins, data, hitProteins).external, externalOut.eol)
  {
    ghost var iBase := internalOut.written;
    ghost var eBase := externalOut.written;
    var checkedComplexes: set<string> := {};
    var checkedReactions: set<string> := {};
    var checkedSets: set<string> := {};
    ghost var st := Initial;
    assert iBase + EdgeText([], internalOut.eol) == iBase;
    assert eBase + EdgeText([], externalOut.eol) == eBase;
    for i := 0 to |hitProteins|
      invariant st == Graph(hitProteins[..i], data, hitProteins)
      invariant checkedReactions == st.checkedReactions
      invariant checkedComplexes == st.checkedComplexes
      invariant checkedSets == st.checkedSets
      invariant internalOut.written == iBase + EdgeText(st.internal, internalOut.eol)
      invariant externalOut.written == eBase + EdgeText(st.external, externalOut.eol)
    {
      var protein := hitProteins[i];
      assert hitProteins[..i + 1][..i] == hitProteins[..i];
      checkedReactions, st := EmitContainers(ReactionKind, Get(data.proteinsToReactions, protein), protein, data,
                                             hitProteins, checkedReactions, internalOut, externalOut,
                                             st, iBase, eBase);
      checkedComplexes, st := EmitContainers(ComplexKind, Get(data.proteinsToComplexes, protein), protein, data,
                                             hitProteins, checkedComplexes, internalOut, externalOut,
                                             st, iBase, eBase);
      checkedSets, st := EmitContainers(SetKind, Get(data.setsToMembersAndCandidates, protein), protein, data,
                                        hitProteins, checkedSets, internalOut, externalOut,
                                        st, iBase, eBase);
    }
    assert hitProteins[..|hitProteins|] == hitProteins;
  }

  /** Creates an output file and writes its header line. */
  method NewFile(header: string, eol: string) returns (out: PathwayMatcher.Writer)
    ensures fresh(out) && out.eol == eol && out.written == header + eol
  {
    out := new PathwayMatcher.Writer(eol);
    out.Write(header);
    out.NewLine();
  }

  /**
   * `writeConnectionGraph`: creates the vertex file and the two edge files,
   * writes their headers, a vertex line per hit protein, then for each hit
   * protein its reactions, complexes and sets, each expanded once.
   * `eol` is the platform line separator.
   */
  method WriteConnectionGraph(hitProteins: seq<string>, data: StaticData, eol: string)
    returns (vertices: PathwayMatcher.Writer, internalEdges: PathwayMatcher.Writer,
             externalEdges: PathwayMatcher.Writer)
    requires forall p, r :: p in hitProteins && r in Get(data.proteinsToReactions, p) ==> r in data.reactions
    ensures fresh(vertices) && fresh(internalEdges) && fresh(externalEdges)
    ensures vertices.eol == eol && internalEdges.eol == eol && externalEdges.eol == eol
    ensures vertices.written == VertexHeader + eol + VertexText(hitProteins, data, eol)
    ensures internalEdges.written
            == EdgeHeader + eol + EdgeText(Graph(hitProteins, data, hitProteins).internal, eol)
    ensures externalEdges.written
            == EdgeHeader + eol + EdgeText(Graph(hitProteins, data, hitProteins).external, eol)
  {
    vertices := NewFile(VertexHeader, eol);
    internalEdges := NewFile(EdgeHeader, eol);
    externalEdges := NewFile(EdgeHeader, eol);
    WriteVertices(vertices, hitProteins, data);
    WriteEdges(hitProteins, data, internalEdges, externalEdges);
  }
}
