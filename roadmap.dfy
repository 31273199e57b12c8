/** The course roadmap: a fixed graph of typed nodes joined by prerequisite
    edges, the node a learner has opened, and the detail panel shown for it. */
module Roadmap {
  import opened Wrappers

  datatype Status = Locked | Available | InProgress | Completed

  datatype ResourceKind = Pdf | Video

  datatype Resource = Resource(id: string, kind: ResourceKind, title: string)

  /** The per-type part of a node's data. */
  datatype NodeKind =
    | Topic(progress: int, estimatedHours: int, resources: seq<Resource>)
    | Assessment(score: Option<int>)
    | Milestone

  datatype Node = Node(id: string, title: string, description: string, status: Status, kind: NodeKind)

  /** A prerequisite edge: `target` comes after `source`. */
  datatype Edge = Edge(id: string, source: string, target: string)

  // ---------------------------------------------------------------------
  // Well-formedness of a node/edge graph

  predicate UniqueIds(nodes: seq<Node>) {
    forall i, j :: 0 <= i < j < |nodes| ==> nodes[i].id != nodes[j].id
  }

  predicate HasNode(nodes: seq<Node>, id: string) {
    exists i :: 0 <= i < |nodes| && nodes[i].id == id
  }

  /** Every edge joins two nodes of the graph. */
  predicate EdgesWellFormed(nodes: seq<Node>, edges: seq<Edge>) {
    forall e :: e in edges ==> HasNode(nodes, e.source) && HasNode(nodes, e.target)
  }

  predicate IsEdge(edges: seq<Edge>, a: string, b: string) {
    exists e :: e in edges && e.source == a && e.target == b
  }

  /** A walk along edges through the ids of `p`. */
  predicate IsPath(edges: seq<Edge>, p: seq<string>) {
    |p| >= 1 &&
    (|p| >= 2 ==> IsPath(edges, p[..|p| - 1]) && IsEdge(edges, p[|p| - 2], p[|p| - 1]))
  }

  /** No walk of one or more edges returns to where it started. */
  ghost predicate Acyclic(edges: seq<Edge>) {
    forall p :: IsPath(edges, p) && |p| >= 2 ==> p[0] != p[|p| - 1]
  }

  ghost predicate Reachable(edges: seq<Edge>, a: string, b: string) {
    exists p :: IsPath(edges, p) && p[0] == a && p[|p| - 1] == b
  }

  predicate HasIncoming(edges: seq<Edge>, id: string) {
    exists e :: e in edges && e.target == id
  }

  /** The position of the first node carrying `id`. */
  function IndexOf(nodes: seq<Node>, id: string): (i: nat)
    requires HasNode(nodes, id)
    ensures i < |nodes| && nodes[i].id == id
    ensures forall j :: 0 <= j < i ==> nodes[j].id != id
  {
    if nodes[0].id == id then 0
    else
      assert HasNode(nodes[1..], id) by {
        var k :| 0 <= k < |nodes| && nodes[k].id == id;
        assert nodes[1..][k - 1].id == id;
      }
      1 + IndexOf(nodes[1..], id)
  }

  /** Every edge points further down the node list. */
  predicate ForwardEdges(nodes: seq<Node>, edges: seq<Edge>) {
    forall e :: e in edges ==>
      HasNode(nodes, e.source) && HasNode(nodes, e.target) &&
      IndexOf(nodes, e.source) < IndexOf(nodes, e.target)
  }

  /** Along a walk of forward edges the position strictly grows. */
  lemma {:induction false} PathMovesForward(nodes: seq<Node>, edges: seq<Edge>, p: seq<string>)
    requires ForwardEdges(nodes, edges)
    requires IsPath(edges, p) && |p| >= 2
    ensures HasNode(nodes, p[0]) && HasNode(nodes, p[|p| - 1])
    ensures IndexOf(nodes, p[0]) < IndexOf(nodes, p[|p| - 1])
  {
    var n := |p|;
    var e :| e in edges && e.source == p[n - 2] && e.target == p[n - 1];
    if n > 2 {
      var q := p[..n - 1];
      PathMovesForward(nodes, edges, q);
      assert q[0] == p[0] && q[|q| - 1] == p[n - 2];
    }
  }

  /** A node list in which every edge points forward is a topological order,
      so the edges contain no cycle. */
  lemma ForwardEdgesAcyclic(nodes: seq<Node>, edges: seq<Edge>)
    requires ForwardEdges(nodes, edges)
    ensures EdgesWellFormed(nodes, edges)
    ensures Acyclic(edges)
  {
    forall p | IsPath(edges, p) && |p| >= 2 ensures p[0] != p[|p| - 1] {
      PathMovesForward(nodes, edges, p);
    }
  }

  // ---------------------------------------------------------------------
  // The roadmap's fixed graph

  function InitialNodes(): (nodes: seq<Node>)
    ensures |nodes| == 7
  {
    [StartNode, Assessment1Node, Topic1Node, Topic2Node, Assessment2Node, Assessment3Node, Milestone1Node]
  }

  const StartNode: Node :=
    Node("start", "Course Introduction", "Overview of the course, objectives, and expectations",
         Completed,
         Topic(100, 1, [Resource("r1", Pdf, "Course Syllabus"), Resource("r2", Video, "Welcome Video")]))

  const Assessment1Node: Node :=
    Node("assessment1", "Initial Assessment", "Evaluate your current knowledge of the subject",
         Completed, Assessment(Some(85)))

  const Topic1Node: Node :=
    Node("topic1", "Basic Concepts", "Foundational principles and terminology",
         InProgress,
         Topic(60, 3, [Resource("r3", Pdf, "Reading Material"), Resource("r4", Video, "Lecture Video")]))

  const Topic2Node: Node :=
    Node("topic2", "Advanced Concepts", "Deeper exploration of key principles",
         Available,
         Topic(0, 4, [Resource("r5", Pdf, "Advanced Reading")]))

  const Assessment2Node: Node :=
    Node("assessment2", "Module Quiz", "Test your understanding of basic concepts",
         Available, Assessment(None))

  const Assessment3Node: Node :=
    Node("assessment3", "Advanced Quiz", "Test your understanding of advanced concepts",
         Locked, Assessment(None))

  const Milestone1Node: Node :=
    Node("milestone1", "Midterm Milestone", "Comprehensive assessment of course progress",
         Locked, Milestone)

  function InitialEdges(): (edges: seq<Edge>)
    ensures |edges| == 7
  {
    PrerequisiteEdges
  }

  const PrerequisiteEdges: seq<Edge> :=
    [ Edge("e1-2", "start", "assessment1"),
      Edge("e2-3", "assessment1", "topic1"),
      Edge("e2-4", "assessment1", "topic2"),
      Edge("e3-5", "topic1", "assessment2"),
      Edge("e4-6", "topic2", "assessment3"),
      Edge("e5-7", "assessment2", "milestone1"),
      Edge("e6-7", "assessment3", "milestone1") ]

  /** The node ids, in list order. */
  lemma InitialNodeIds()
    ensures forall i :: 0 <= i < 7 ==>
      InitialNodes()[i].id ==
        ["start", "assessment1", "topic1", "topic2", "assessment2", "assessment3", "milestone1"][i]
  {
  }

  lemma InitialIdsUnique()
    ensures UniqueIds(InitialNodes())
  {
  }

  /** The fixture lists its nodes in a topological order. */
  lemma InitialEdgesForward()
    ensures ForwardEdges(InitialNodes(), InitialEdges())
  {
    var ns, es := InitialNodes(), InitialEdges();
    InitialIdsUnique();
    forall e | e in es
      ensures HasNode(ns, e.source) && HasNode(ns, e.target)
      ensures IndexOf(ns, e.source) < IndexOf(ns, e.target)
    {
      var k :| 0 <= k < 7 && es[k] == e;
      var s, t := [0, 1, 1, 2, 3, 4, 5][k], [1, 2, 3, 4, 5, 6, 6][k];
      assert ns[s].id == e.source && ns[t].id == e.target;
      assert IndexOf(ns, e.source) == s;
      assert IndexOf(ns, e.target) == t;
    }
  }

  /** The fixture is a well-formed roadmap: unique ids, every edge between
      existing nodes, and no cycle. */
  lemma InitialGraphWellFormed()
    ensures UniqueIds(InitialNodes())
    ensures EdgesWellFormed(InitialNodes(), InitialEdges())
    ensures Acyclic(InitialEdges())
  {
    InitialIdsUnique();
    InitialEdgesForward();
    ForwardEdgesAcyclic(InitialNodes(), InitialEdges());
  }

  /** `start` is the only node without a prerequisite. */
  lemma OnlyStartIsRoot()
    ensures forall i :: 0 <= i < 7 ==>
      (!HasIncoming(InitialEdges(), InitialNodes()[i].id) <==> InitialNodes()[i].id == "start")
  {
  }

  /** A walk extended by one more edge is a walk. */
  lemma ExtendPath(edges: seq<Edge>, p: seq<string>, e: Edge)
    requires IsPath(edges, p) && e in edges && e.source == p[|p| - 1]
    ensures IsPath(edges, p + [e.target])
  {
  }

  /** Reachability grows by one edge at a time. */
  lemma ReachableStep(edges: seq<Edge>, a: string, e: Edge)
    requires Reachable(edges, a, e.source) && e in edges
    ensures Reachable(edges, a, e.target)
  {
    var p :| IsPath(edges, p) && p[0] == a && p[|p| - 1] == e.source;
    ExtendPath(edges, p, e);
    var q := p + [e.target];
    assert q[0] == a && q[|q| - 1] == e.target;
  }

  /** Node `k` of the fixture can be reached from `start`, through a walk
      that enters it by its first incoming edge. */
  lemma {:induction false} ReachableFromStart(k: nat)
    requires k < 7
    ensures Reachable(InitialEdges(), "start", InitialNodes()[k].id)
  {
    var es, ns := InitialEdges(), InitialNodes();
    if k == 0 {
      var p := ["start"];
      assert IsPath(es, p) && p[0] == "start" && p[|p| - 1] == ns[0].id;
    } else {
      var from, via := [0, 0, 1, 1, 2, 3, 4][k], [0, 0, 1, 2, 3, 4, 5][k];
      ReachableFromStart(from);
      assert es[via].source == ns[from].id && es[via].target == ns[k].id;
      ReachableStep(es, "start", es[via]);
    }
  }

  /** Every node of the fixture can be reached from `start`. */
  lemma AllReachableFromStart()
    ensures forall k :: 0 <= k < 7 ==> Reachable(InitialEdges(), "start", InitialNodes()[k].id)
  {
    forall k | 0 <= k < 7 ensures Reachable(InitialEdges(), "start", InitialNodes()[k].id) {
      ReachableFromStart(k);
    }
  }

  /** An assessment carries a score exactly when it is completed. */
  predicate ScoredIffCompleted(n: Node) {
    n.kind.Assessment? ==> (n.kind.score.Some? <==> n.status == Completed)
  }

  /** The completed assessment is scored 85 and the other assessments carry
      no score; the completed topic is at 100 percent and the available one
      at 0. */
  lemma InitialNodeData()
    ensures forall i :: 0 <= i < 7 ==> ScoredIffCompleted(InitialNodes()[i])
    ensures forall i :: 0 <= i < 7 && InitialNodes()[i].kind.Assessment? && InitialNodes()[i].status == Completed ==>
      InitialNodes()[i].kind.score == Some(85)
    ensures forall i :: 0 <= i < 7 && InitialNodes()[i].kind.Topic? && InitialNodes()[i].status == Completed ==>
      InitialNodes()[i].kind.progress == 100
    ensures forall i :: 0 <= i < 7 && InitialNodes()[i].kind.Topic? && InitialNodes()[i].status == Available ==>
      InitialNodes()[i].kind.progress == 0
  {
  }

  // ---------------------------------------------------------------------
  // The detail panel

  /** What the assessment part of the detail panel shows. */
  datatype AssessmentSection =
    | ScoreBar(score: Option<int>)
    | StartButton
    | LockedNotice

  datatype Section =
    | TopicSection(progress: int)
    | AssessmentPart(part: AssessmentSection)
    | NoSection

  /** The detail card: the node's title and description, its resources list
      when the node has one, and the section for its type. */
  datatype DetailPanel = DetailPanel(
    title: string,
    description: string,
    resources: Option<seq<Resource>>,
    section: Section)

  /** The status dispatch of an assessment's panel: the score when
      completed, the Start button when available, and the locked message for
      every other status, in-progress included. */
  function AssessmentSectionFor(status: Status, score: Option<int>): (s: AssessmentSection)
    ensures s.ScoreBar? <==> status == Completed
    ensures s.StartButton? <==> status == Available
    ensures s.LockedNotice? <==> status == Locked || status == InProgress
    ensures s.ScoreBar? ==> s.score == score
  {
    match status
    case Completed => ScoreBar(score)
    case Available => StartButton
    case _ => LockedNotice
  }

  function PanelFor(n: Node): (p: DetailPanel)
    ensures p.title == n.title && p.description == n.description
    ensures p.resources.Some? <==> n.kind.Topic?
    ensures p.section.NoSection? <==> n.kind.Milestone?
    ensures n.kind.Topic? ==> p.resources == Some(n.kind.resources) && p.section == TopicSection(n.kind.progress)
    ensures n.kind.Assessment? ==> p.section == AssessmentPart(AssessmentSectionFor(n.status, n.kind.score))
  {
    match n.kind
    case Topic(progress, _, resources) => DetailPanel(n.title, n.description, Some(resources), TopicSection(progress))
    case Assessment(score) => DetailPanel(n.title, n.description, None, AssessmentPart(AssessmentSectionFor(n.status, score)))
    case Milestone => DetailPanel(n.title, n.description, None, NoSection)
  }

  /** On the fixture: the completed assessment shows its 85, the available
      one offers Start, the locked one shows the locked message; a scored
      panel is shown for exactly the assessments that carry a score. */
  lemma InitialAssessmentPanels()
    ensures PanelFor(InitialNodes()[1]).section == AssessmentPart(ScoreBar(Some(85)))
    ensures PanelFor(InitialNodes()[4]).section == AssessmentPart(StartButton)
    ensures PanelFor(InitialNodes()[5]).section == AssessmentPart(LockedNotice)
    ensures forall i :: 0 <= i < 7 && InitialNodes()[i].kind.Assessment? ==>
      (PanelFor(InitialNodes()[i]).section.part.ScoreBar? <==> InitialNodes()[i].kind.score.Some?)
  {
  }

  // ---------------------------------------------------------------------
  // The roadmap view's state

  /** One mounted roadmap: the node and edge lists (never written after
      initialisation) and the node whose details are open, if any. */
  class RoadmapView {
    const courseId: string
    const nodes: seq<Node>
    const edges: seq<Edge>
    var nodeToView: Option<Node>

    constructor (courseId: string)
      ensures this.courseId == courseId
      ensures nodes == InitialNodes() && edges == InitialEdges()
      ensures nodeToView == None
    {
      this.courseId := courseId;
      nodes := InitialNodes();
      edges := InitialEdges();
      nodeToView := None;
    }

    /** `onNodeClick`: the clicked node, one of the rendered ones, is opened. */
    method OnNodeClick(node: Node)
      requires node in nodes
      modifies this`nodeToView
      ensures nodeToView == Some(node)
    {
      nodeToView := Some(node);
    }

    /** The Close button. */
    method Close()
      modifies this`nodeToView
      ensures nodeToView == None
    {
      nodeToView := None;
    }

    /** The detail card on screen, if a node is open. */
    function Panel(): (p: Option<DetailPanel>)
      reads this
      ensures p.Some? <==> nodeToView.Some?
      ensures p.Some? ==> p.value == PanelFor(nodeToView.value)
    {
      match nodeToView
      case None => None
      case Some(n) => Some(PanelFor(n))
    }
  }
}
