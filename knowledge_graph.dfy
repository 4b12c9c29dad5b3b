/** The knowledge-graph panel: building the graph from its static topology,
    one tick of the force layout (over abstract forces), the boundary clamp,
    and the hover highlighting of a node's neighbourhood.

    Node objects are the elements of the `nodes` array; an edge endpoint is
    the index of the node object it refers to, and `None` stands for the
    `undefined` that `Array.prototype.find` yields for an unknown id. Two
    endpoints denote the same object exactly when they are equal, which is
    what the source's `===` and `Set` membership test. */
module KnowledgeGraph {
  import opened Common

  datatype NodeSpec = NodeSpec(id: string, name: string, group: string)
  datatype EdgeSpec = EdgeSpec(from: string, to: string)

  /** A simulated node: the spread node record plus position and velocity. */
  datatype Node = Node(id: string, name: string, group: string,
                       x: real, y: real, vx: real, vy: real)

  type Endpoint = Option<nat>
  datatype Edge = Edge(source: Endpoint, target: Endpoint)

  /** What the canvas shows: every edge in the default stroke, or the two
      passes of a hover (muted edges first, then highlighted ones). */
  datatype Frame = Blank | Plain(strokes: seq<nat>) | Hover(muted: seq<nat>, bold: seq<nat>)

  datatype Vec = Vec(x: real, y: real)

  const Zero := Vec(0.0, 0.0)
  function Plus(a: Vec, b: Vec): Vec { Vec(a.x + b.x, a.y + b.y) }
  function Minus(a: Vec, b: Vec): Vec { Vec(a.x - b.x, a.y - b.y) }
  function Vel(n: Node): Vec { Vec(n.vx, n.vy) }
  function WithVel(n: Node, v: Vec): Node { n.(vx := v.x, vy := v.y) }

  // ------------------------------------------------------------ the static data

  function GraphNodes(): seq<NodeSpec>
  {
    [ NodeSpec("AUB", "AUB", "topic"),
      NodeSpec("Menorrhagia", "Menorrhagia", "symptom"),
      NodeSpec("Age 31-40", "Age 31-40", "factor"),
      NodeSpec("Secretory Phase", "Secretory Phase", "finding"),
      NodeSpec("Proliferative Phase", "Proliferative Phase", "finding"),
      NodeSpec("Hyperplasia", "Hyperplasia", "finding"),
      NodeSpec("Carcinoma", "Carcinoma", "finding"),
      NodeSpec("Histopathology", "Histopathology", "diagnosis"),
      NodeSpec("Age Factor", "Age Factor", "factor"),
      NodeSpec("LMP Factor", "LMP Factor", "factor") ]
  }

  function GraphEdges(): seq<EdgeSpec>
  {
    [ EdgeSpec("AUB", "Menorrhagia"), EdgeSpec("AUB", "Age 31-40"),
      EdgeSpec("AUB", "Secretory Phase"), EdgeSpec("AUB", "Proliferative Phase"),
      EdgeSpec("AUB", "Histopathology"), EdgeSpec("Age 31-40", "AUB"),
      EdgeSpec("Age Factor", "Hyperplasia"), EdgeSpec("Age Factor", "Carcinoma"),
      EdgeSpec("Hyperplasia", "Histopathology"), EdgeSpec("Carcinoma", "Histopathology"),
      EdgeSpec("LMP Factor", "Histopathology"), EdgeSpec("Menorrhagia", "Histopathology") ]
  }

  // ------------------------------------------------------------ construction

  /** Nodes as `initializeGraph` builds them: the spec's fields, the random
      draws `xs`/`ys` (already scaled by the container size) and no velocity. */
  function BuildNodes(specs: seq<NodeSpec>, xs: seq<real>, ys: seq<real>): (r: seq<Node>)
    requires |xs| == |specs| && |ys| == |specs|
    ensures |r| == |specs|
    ensures forall i :: 0 <= i < |r| ==>
      r[i].id == specs[i].id && r[i].name == specs[i].name && r[i].group == specs[i].group
      && r[i].x == xs[i] && r[i].y == ys[i] && Vel(r[i]) == Zero
  {
    seq(|specs|, i requires 0 <= i < |specs| =>
      Node(specs[i].id, specs[i].name, specs[i].group, xs[i], ys[i], 0.0, 0.0))
  }

  /** `e` is what `nodes.find(n => n.id === id)` yields. */
  ghost predicate Resolves(nodes: seq<Node>, id: string, e: Endpoint)
  {
    match e
    case None => forall i :: 0 <= i < |nodes| ==> nodes[i].id != id
    case Some(k) => k < |nodes| && nodes[k].id == id && forall i :: 0 <= i < k ==> nodes[i].id != id
  }

  function FindFrom(nodes: seq<Node>, id: string, k: nat): (r: Endpoint)
    requires k <= |nodes|
    requires forall i :: 0 <= i < k ==> nodes[i].id != id
    ensures Resolves(nodes, id, r)
    decreases |nodes| - k
  {
    if k == |nodes| then None
    else if nodes[k].id == id then Some(k)
    else FindFrom(nodes, id, k + 1)
  }

  /** The first node whose id is `id`, or `None` (JavaScript `undefined`). */
  function FindNode(nodes: seq<Node>, id: string): (r: Endpoint)
    ensures Resolves(nodes, id, r)
  {
    FindFrom(nodes, id, 0)
  }

  /** Edges as `initializeGraph` resolves them; nothing is validated. */
  function ResolveEdges(nodes: seq<Node>, specs: seq<EdgeSpec>): (r: seq<Edge>)
    ensures |r| == |specs|
    ensures forall k :: 0 <= k < |r| ==>
      Resolves(nodes, specs[k].from, r[k].source) && Resolves(nodes, specs[k].to, r[k].target)
  {
    seq(|specs|, k requires 0 <= k < |specs| =>
      Edge(FindNode(nodes, specs[k].from), FindNode(nodes, specs[k].to)))
  }

  predicate InRange(e: Endpoint, n: nat) { e.None? || e.value < n }

  predicate EndpointsInRange(edges: seq<Edge>, n: nat)
  {
    forall k :: 0 <= k < |edges| ==> InRange(edges[k].source, n) && InRange(edges[k].target, n)
  }

  predicate Resolved(e: Edge) { e.source.Some? && e.target.Some? }

  lemma ResolvedEdgesInRange(nodes: seq<Node>, specs: seq<EdgeSpec>)
    ensures EndpointsInRange(ResolveEdges(nodes, specs), |nodes|)
  {
  }

  /** Every edge of the static topology resolves to a node. */
  lemma StaticEdgesResolve(xs: seq<real>, ys: seq<real>)
    requires |xs| == |GraphNodes()| && |ys| == |GraphNodes()|
    ensures forall e :: e in ResolveEdges(BuildNodes(GraphNodes(), xs, ys), GraphEdges()) ==> Resolved(e)
  {
    var nodes := BuildNodes(GraphNodes(), xs, ys);
    var ids := ["AUB", "Menorrhagia", "Age 31-40", "Secretory Phase", "Proliferative Phase",
                "Hyperplasia", "Carcinoma", "Histopathology", "Age Factor", "LMP Factor"];
    assert forall i :: 0 <= i < |nodes| ==> nodes[i].id == ids[i];
    forall k | 0 <= k < |GraphEdges()|
      ensures FindNode(nodes, GraphEdges()[k].from).Some? && FindNode(nodes, GraphEdges()[k].to).Some?
    {
      assert GraphEdges()[k].from in ids && GraphEdges()[k].to in ids;
    }
  }

  // ------------------------------------------------------------ hover

  /** What one edge contributes to the connected set of node `h`. */
  function Reached(e: Edge, h: nat): set<Endpoint>
  {
    if e.source == Some(h) then {e.target}
    else if e.target == Some(h) then {e.source}
    else {}
  }

  /** The connected set as `highlightConnections` fills it. */
  function Connected(edges: seq<Edge>, h: nat): set<Endpoint>
  {
    if edges == [] then {Some(h)}
    else Connected(edges[..|edges| - 1], h) + Reached(edges[|edges| - 1], h)
  }

  /** Edge `e` joins the hovered node `h` to `x`, in either direction. */
  predicate Joins(e: Edge, h: nat, x: Endpoint)
  {
    (e.source == Some(h) && e.target == x) || (e.target == Some(h) && e.source == x)
  }

  /** The connected set is the hovered node, the targets of its outgoing
      edges and the sources of its incoming edges, and nothing else. */
  lemma {:induction false} ConnectedMembers(edges: seq<Edge>, h: nat, x: Endpoint)
    ensures x in Connected(edges, h) <==>
      x == Some(h) || exists k :: 0 <= k < |edges| && Joins(edges[k], h, x)
  {
    if edges != [] {
      var init := edges[..|edges| - 1];
      ConnectedMembers(init, h, x);
      if x in Connected(init, h) && x != Some(h) {
        var k :| 0 <= k < |init| && Joins(init[k], h, x);
        assert Joins(edges[k], h, x);
      }
      if x != Some(h) && exists k :: 0 <= k < |edges| && Joins(edges[k], h, x) {
        var k :| 0 <= k < |edges| && Joins(edges[k], h, x);
        if k < |init| {
          assert Joins(init[k], h, x);
        }
      }
    }
  }

  /** The loop of `highlightConnections` that fills the connected set. */
  method CollectConnected(edges: seq<Edge>, h: nat) returns (conn: set<Endpoint>)
    ensures conn == Connected(edges, h)
  {
    conn := {Some(h)};
    var k := 0;
    while k < |edges|
      invariant 0 <= k <= |edges|
      invariant conn == Connected(edges[..k], h)
    {
      assert edges[..k + 1][..k] == edges[..k];
      var e := edges[k];
      if e.source == Some(h) {
        conn := conn + {e.target};
      } else if e.target == Some(h) {
        conn := conn + {e.source};
      }
      k := k + 1;
    }
    assert edges[..k] == edges;
  }

  predicate Inside(e: Edge, conn: set<Endpoint>)
  {
    e.source in conn && e.target in conn
  }

  /** Indices below `n` of the edges drawn in one hover pass, in edge order:
      the highlighted pass (`bold`) or the muted pass (`!bold`). */
  function PassIndices(edges: seq<Edge>, conn: set<Endpoint>, bold: bool, n: nat): (r: seq<nat>)
    requires n <= |edges|
    ensures forall q :: 0 <= q < |r| ==> r[q] < n && Inside(edges[r[q]], conn) == bold
    ensures forall k :: 0 <= k < n && Inside(edges[k], conn) == bold ==> k in r
    ensures forall p, q :: 0 <= p < q < |r| ==> r[p] < r[q]
  {
    if n == 0 then []
    else
      var init := PassIndices(edges, conn, bold, n - 1);
      if Inside(edges[n - 1], conn) == bold then init + [n - 1] else init
  }

  /** Every edge is drawn in exactly one of the two hover passes, and it is
      highlighted exactly when both its endpoints are in the connected set. */
  lemma HoverPassesPartition(edges: seq<Edge>, conn: set<Endpoint>, k: nat)
    requires k < |edges|
    ensures k in PassIndices(edges, conn, true, |edges|) <==> Inside(edges[k], conn)
    ensures k in PassIndices(edges, conn, false, |edges|) <==> !Inside(edges[k], conn)
  {
  }

  /** The edges of `idx` that a stroke loop draws before the first one with
      an unresolved endpoint, whose `edge.source.x` raises a TypeError and
      ends the handler. */
  function DrawnPrefix(edges: seq<Edge>, idx: seq<nat>): (r: seq<nat>)
    requires forall q :: 0 <= q < |idx| ==> idx[q] < |edges|
    ensures |r| <= |idx| && r == idx[..|r|]
    ensures forall q :: 0 <= q < |r| ==> Resolved(edges[r[q]])
    ensures |r| < |idx| ==> !Resolved(edges[idx[|r|]])
  {
    if idx == [] || !Resolved(edges[idx[0]]) then []
    else [idx[0]] + DrawnPrefix(edges, idx[1..])
  }

  /** A loop that has drawn the first k edges of `idx`, all resolved, and
      stops at k has drawn `DrawnPrefix`. */
  lemma DrawnPrefixAt(edges: seq<Edge>, idx: seq<nat>, k: nat)
    requires forall q :: 0 <= q < |idx| ==> idx[q] < |edges|
    requires k <= |idx| && forall q :: 0 <= q < k ==> Resolved(edges[idx[q]])
    requires k < |idx| ==> !Resolved(edges[idx[k]])
    ensures DrawnPrefix(edges, idx) == idx[..k]
  {
  }

  /** A stroke loop over every edge in order draws exactly the edges before
      the first unresolved one. */
  lemma DrawnPrefixOfAll(edges: seq<Edge>)
    ensures DrawnPrefix(edges, Range(|edges|)) == Range(ResolvedPrefix(edges))
  {
    var m := ResolvedPrefix(edges);
    DrawnPrefixAt(edges, Range(|edges|), m);
    assert Range(|edges|)[..m] == Range(m);
  }

  /** The highlight handler throws only if some edge has an unresolved
      endpoint: with every endpoint resolved, both passes are drawn whole. */
  lemma HoverDrawnWhole(edges: seq<Edge>, conn: set<Endpoint>)
    requires forall q :: 0 <= q < |edges| ==> Resolved(edges[q])
    ensures DrawnPrefix(edges, PassIndices(edges, conn, false, |edges|)) == PassIndices(edges, conn, false, |edges|)
    ensures DrawnPrefix(edges, PassIndices(edges, conn, true, |edges|)) == PassIndices(edges, conn, true, |edges|)
  {
  }

  /** An edge between two neighbours of the hovered node is highlighted,
      although it does not touch the hovered node. */
  lemma NeighbourEdgeHighlighted(edges: seq<Edge>, h: nat, a: nat, b: nat, c: nat)
    requires a < |edges| && b < |edges| && c < |edges|
    requires Joins(edges[a], h, edges[c].source) && Joins(edges[b], h, edges[c].target)
    ensures c in PassIndices(edges, Connected(edges, h), true, |edges|)
  {
    ConnectedMembers(edges, h, edges[c].source);
    ConnectedMembers(edges, h, edges[c].target);
  }

  /** The end-to-end hover scenario on the chain A -> B -> C. */
  lemma ChainScenario()
    ensures Connected([Edge(Some(0), Some(1)), Edge(Some(1), Some(2))], 1) == {Some(0), Some(1), Some(2)}
    ensures Connected([Edge(Some(0), Some(1)), Edge(Some(1), Some(2))], 0) == {Some(0), Some(1)}
  {
    var edges := [Edge(Some(0), Some(1)), Edge(Some(1), Some(2))];
    assert edges[..1] == [Edge(Some(0), Some(1))];
    assert edges[..1][..0] == [];
  }

  // ------------------------------------------------------------ forces
  //
  // The first two passes of a tick change velocities only, and every force
  // they apply is computed from positions; both passes are therefore
  // modelled on the sequence of velocities, with the positions held fixed.

  function Positions(s: seq<Node>): (ps: seq<Vec>)
    ensures |ps| == |s|
  {
    seq(|s|, k requires 0 <= k < |s| => Vec(s[k].x, s[k].y))
  }

  function Velocities(s: seq<Node>): (vs: seq<Vec>)
    ensures |vs| == |s|
  {
    seq(|s|, k requires 0 <= k < |s| => Vel(s[k]))
  }

  /** `s` with its velocities replaced by `vs`. */
  function WithVels(s: seq<Node>, vs: seq<Vec>): (r: seq<Node>)
    requires |vs| == |s|
    ensures |r| == |s|
  {
    seq(|s|, k requires 0 <= k < |s| => WithVel(s[k], vs[k]))
  }

  /** Replacing the velocities keeps everything else of every node. */
  lemma WithVelsKeeps(s: seq<Node>, vs: seq<Vec>, ws: seq<Vec>)
    requires |vs| == |s| && |ws| == |s|
    ensures Positions(WithVels(s, vs)) == Positions(s)
    ensures Velocities(WithVels(s, vs)) == vs
    ensures WithVels(WithVels(s, vs), ws) == WithVels(s, ws)
    ensures WithVels(s, Velocities(s)) == s
  {
    assert Velocities(WithVels(s, vs)) == vs;
    assert WithVels(s, Velocities(s)) == s;
  }

  /** Replacing velocities leaves node k where it was. */
  lemma PositionAt(cur: seq<Node>, s: seq<Node>, vs: seq<Vec>, k: nat)
    requires |vs| == |s| && cur == WithVels(s, vs) && k < |s|
    ensures cur[k].x == Positions(s)[k].x && cur[k].y == Positions(s)[k].y
  {
  }

  /** Writing one node's velocity in place. */
  lemma WithVelsUpdate(s: seq<Node>, vs: seq<Vec>, i: nat, v: Vec)
    requires |vs| == |s| && i < |s|
    ensures WithVels(s, vs)[i := WithVel(WithVels(s, vs)[i], v)] == WithVels(s, vs[i := v])
  {
  }

  /** Sum of the first `n` vectors of `vs`. */
  function SumTo(vs: seq<Vec>, n: nat): Vec
    requires n <= |vs|
  {
    if n == 0 then Zero else Plus(SumTo(vs, n - 1), vs[n - 1])
  }

  /** Sum of a sequence of vectors. */
  function Total(vs: seq<Vec>): Vec
  {
    SumTo(vs, |vs|)
  }

  /** Replacing vector k changes every partial sum that includes it by the difference. */
  lemma {:induction false} SumToUpdate(vs: seq<Vec>, k: nat, v: Vec, n: nat)
    requires k < |vs| && n <= |vs|
    ensures SumTo(vs[k := v], n) == if n <= k then SumTo(vs, n) else Plus(SumTo(vs, n), Minus(v, vs[k]))
  {
    if n > 0 {
      SumToUpdate(vs, k, v, n - 1);
    }
  }

  /** Replacing one vector changes the sum by the difference. */
  lemma TotalUpdate(vs: seq<Vec>, k: nat, v: Vec)
    requires k < |vs|
    ensures Total(vs[k := v]) == Plus(Total(vs), Minus(v, vs[k]))
  {
    SumToUpdate(vs, k, v, |vs|);
  }

  /** Add `f` to velocity i, then subtract it from velocity j. */
  function Push(vs: seq<Vec>, i: nat, j: nat, f: Vec): (r: seq<Vec>)
    requires i < |vs| && j < |vs|
    ensures |r| == |vs|
  {
    var v1 := vs[i := Plus(vs[i], f)];
    v1[j := Minus(v1[j], f)]
  }

  /** Action and reaction: a push leaves the sum of velocities unchanged. */
  lemma PushConserves(vs: seq<Vec>, i: nat, j: nat, f: Vec)
    requires i < |vs| && j < |vs|
    ensures Total(Push(vs, i, j, f)) == Total(vs)
  {
    var v1 := vs[i := Plus(vs[i], f)];
    TotalUpdate(vs, i, Plus(vs[i], f));
    TotalUpdate(v1, j, Minus(v1[j], f));
  }

  /** Force that node i receives from the pair (i, j) of the repulsion
      loop; node j receives its opposite. It depends only on the
      displacement from i to j. */
  function PairForce(ps: seq<Vec>, repel: (real, real) -> Vec, i: nat, j: nat): Vec
    requires i < |ps| && j < |ps|
  {
    repel(ps[j].x - ps[i].x, ps[j].y - ps[i].y)
  }

  /** Centring pull of node i; it depends only on its position. */
  function Pull(ps: seq<Vec>, center: (real, real) -> Vec, i: nat): Vec
    requires i < |ps|
  {
    center(ps[i].x, ps[i].y)
  }

  /** Sum of the forces node i receives as the first of the pairs (i, j), i < j < hi. */
  function RowSum(ps: seq<Vec>, repel: (real, real) -> Vec, i: nat, hi: nat): Vec
    requires i < |ps| && hi <= |ps|
  {
    if hi <= i + 1 then Zero else Plus(RowSum(ps, repel, i, hi - 1), PairForce(ps, repel, i, hi - 1))
  }

  /** Sum of the forces subtracted from node k as the second of the pairs (i, k), i < hi. */
  function ColSum(ps: seq<Vec>, repel: (real, real) -> Vec, k: nat, hi: nat): Vec
    requires k < |ps| && hi <= |ps|
  {
    if hi == 0 then Zero else Plus(ColSum(ps, repel, k, hi - 1), PairForce(ps, repel, hi - 1, k))
  }

  /** Sum of the centring pulls of the first `m` nodes. */
  function PullSum(ps: seq<Vec>, center: (real, real) -> Vec, m: nat): Vec
    requires m <= |ps|
  {
    if m == 0 then Zero else Plus(PullSum(ps, center, m - 1), Pull(ps, center, m - 1))
  }

  /** Net velocity change of node k in the first pass: its own centring
      pull, plus the force of every pair (k, j) with k < j, minus the force
      of every pair (i, k) with i < k. */
  function ForceDelta(ps: seq<Vec>, center: (real, real) -> Vec, repel: (real, real) -> Vec, k: nat): Vec
    requires k < |ps|
  {
    Minus(Plus(Pull(ps, center, k), RowSum(ps, repel, k, |ps|)), ColSum(ps, repel, k, k))
  }

  /** Row i of the pair loop applied to velocities `t`: the centring pull
      of node i, then the pairs (i, i+1), ..., (i, j-1) in that order. */
  function Row(ps: seq<Vec>, t: seq<Vec>, center: (real, real) -> Vec, repel: (real, real) -> Vec,
               i: nat, j: nat): (r: seq<Vec>)
    requires |t| == |ps| && i < j <= |ps|
    ensures |r| == |ps|
  {
    if j == i + 1 then t[i := Plus(t[i], Pull(ps, center, i))]
    else Push(Row(ps, t, center, repel, i, j - 1), i, j - 1, PairForce(ps, repel, i, j - 1))
  }

  /** Velocities when row i is about to start: rows 0, ..., i-1 done. */
  function RowStart(ps: seq<Vec>, vs: seq<Vec>, center: (real, real) -> Vec, repel: (real, real) -> Vec,
                    i: nat): (r: seq<Vec>)
    requires |vs| == |ps| && i <= |ps|
    ensures |r| == |ps|
  {
    if i == 0 then vs else Row(ps, RowStart(ps, vs, center, repel, i - 1), center, repel, i - 1, |ps|)
  }

  /** Velocities after the whole first pass of a tick. */
  function ForcePassVels(ps: seq<Vec>, vs: seq<Vec>, center: (real, real) -> Vec, repel: (real, real) -> Vec)
    : (r: seq<Vec>)
    requires |vs| == |ps|
    ensures |r| == |ps|
  {
    RowStart(ps, vs, center, repel, |ps|)
  }

  /** What row i, up to column j, adds to velocity k. */
  function RowChange(ps: seq<Vec>, center: (real, real) -> Vec, repel: (real, real) -> Vec,
                     k: nat, i: nat, j: nat): Vec
    requires k < |ps| && i < j <= |ps|
  {
    if k == i then Plus(Pull(ps, center, i), RowSum(ps, repel, i, j))
    else if i < k < j then Minus(Zero, PairForce(ps, repel, i, k))
    else Zero
  }

  /** Change of velocity k once rows 0, ..., i-1 are done: complete for
      k < i; a later node has only lost the forces of the pairs (i', k), i' < i. */
  function StartChange(ps: seq<Vec>, center: (real, real) -> Vec, repel: (real, real) -> Vec, k: nat, i: nat): Vec
    requires k < |ps| && i <= |ps|
  {
    if k < i then ForceDelta(ps, center, repel, k) else Minus(Zero, ColSum(ps, repel, k, i))
  }

  lemma {:induction false} RowClosed(ps: seq<Vec>, t: seq<Vec>, center: (real, real) -> Vec,
                                     repel: (real, real) -> Vec, i: nat, j: nat, k: nat)
    requires |t| == |ps| && i < j <= |ps| && k < |ps|
    ensures Row(ps, t, center, repel, i, j)[k] == Plus(t[k], RowChange(ps, center, repel, k, i, j))
  {
    if j > i + 1 {
      RowClosed(ps, t, center, repel, i, j - 1, k);
      PushAt(Row(ps, t, center, repel, i, j - 1), i, j - 1, PairForce(ps, repel, i, j - 1), k);
    }
  }

  lemma {:induction false} RowStartClosed(ps: seq<Vec>, vs: seq<Vec>, center: (real, real) -> Vec,
                                          repel: (real, real) -> Vec, i: nat, k: nat)
    requires |vs| == |ps| && i <= |ps| && k < |ps|
    ensures RowStart(ps, vs, center, repel, i)[k] == Plus(vs[k], StartChange(ps, center, repel, k, i))
  {
    if i > 0 {
      RowStartClosed(ps, vs, center, repel, i - 1, k);
      RowClosed(ps, RowStart(ps, vs, center, repel, i - 1), center, repel, i - 1, |ps|, k);
    }
  }

  /** After the first pass, velocity k has changed by exactly its own
      centring pull, plus the repulsion of every pair (k, j) with k < j,
      minus that of every pair (i, k) with i < k: each unordered pair is
      visited once, adding to one node what it subtracts from the other. */
  lemma ForcePassClosed(ps: seq<Vec>, vs: seq<Vec>, center: (real, real) -> Vec, repel: (real, real) -> Vec, k: nat)
    requires |vs| == |ps| && k < |ps|
    ensures ForcePassVels(ps, vs, center, repel)[k] == Plus(vs[k], ForceDelta(ps, center, repel, k))
  {
    RowStartClosed(ps, vs, center, repel, |ps|, k);
  }

  /** A row changes the sum of velocities by the pull of its node only. */
  lemma {:induction false} RowMomentum(ps: seq<Vec>, t: seq<Vec>, center: (real, real) -> Vec,
                                       repel: (real, real) -> Vec, i: nat, j: nat)
    requires |t| == |ps| && i < j <= |ps|
    ensures Total(Row(ps, t, center, repel, i, j)) == Plus(Total(t), Pull(ps, center, i))
  {
    if j == i + 1 {
      TotalUpdate(t, i, Plus(t[i], Pull(ps, center, i)));
    } else {
      RowMomentum(ps, t, center, repel, i, j - 1);
      PushConserves(Row(ps, t, center, repel, i, j - 1), i, j - 1, PairForce(ps, repel, i, j - 1));
    }
  }

  lemma {:induction false} RowStartMomentum(ps: seq<Vec>, vs: seq<Vec>, center: (real, real) -> Vec,
                                            repel: (real, real) -> Vec, i: nat)
    requires |vs| == |ps| && i <= |ps|
    ensures Total(RowStart(ps, vs, center, repel, i)) == Plus(Total(vs), PullSum(ps, center, i))
  {
    if i > 0 {
      RowStartMomentum(ps, vs, center, repel, i - 1);
      RowMomentum(ps, RowStart(ps, vs, center, repel, i - 1), center, repel, i - 1, |ps|);
    }
  }

  /** The first pass changes the sum of velocities by exactly the sum of
      the centring pulls: the repulsions cancel pairwise. */
  lemma ForcePassMomentum(ps: seq<Vec>, vs: seq<Vec>, center: (real, real) -> Vec, repel: (real, real) -> Vec)
    requires |vs| == |ps|
    ensures Total(ForcePassVels(ps, vs, center, repel)) == Plus(Total(vs), PullSum(ps, center, |ps|))
  {
    RowStartMomentum(ps, vs, center, repel, |ps|);
  }

  /** Where a push lands: node k gains `f` if it is i and loses `f` if it is j. */
  lemma PushAt(vs: seq<Vec>, i: nat, j: nat, f: Vec, k: nat)
    requires i < |vs| && j < |vs| && k < |vs|
    ensures Push(vs, i, j, f)[k] == Plus(vs[k], Minus(if i == k then f else Zero, if j == k then f else Zero))
  {
  }

  /** The spring force on the source of a resolved edge (the target gets
      its opposite); nothing when the endpoints coincide. */
  function EdgePush(ps: seq<Vec>, spring: (real, real) -> Vec, e: Edge, k: nat): Vec
    requires Resolved(e) && e.source.value < |ps| && e.target.value < |ps|
  {
    var a := ps[e.source.value];
    var b := ps[e.target.value];
    if b.x - a.x == 0.0 && b.y - a.y == 0.0 then Zero
    else
      var f := spring(b.x - a.x, b.y - a.y);
      Minus(if e.source.value == k then f else Zero, if e.target.value == k then f else Zero)
  }

  /** Net velocity change of node k from the springs of the first `m` edges. */
  function SpringDelta(ps: seq<Vec>, spring: (real, real) -> Vec, edges: seq<Edge>, k: nat, m: nat): Vec
    requires m <= |edges| && EndpointsInRange(edges, |ps|)
    requires forall q :: 0 <= q < m ==> Resolved(edges[q])
  {
    if m == 0 then Zero
    else Plus(SpringDelta(ps, spring, edges, k, m - 1), EdgePush(ps, spring, edges[m - 1], k))
  }

  /** Number of leading edges whose endpoints both resolved. */
  function ResolvedPrefix(edges: seq<Edge>): (m: nat)
    ensures m <= |edges|
    ensures forall q :: 0 <= q < m ==> Resolved(edges[q])
    ensures m < |edges| ==> !Resolved(edges[m])
  {
    if edges == [] || !Resolved(edges[0]) then 0 else 1 + ResolvedPrefix(edges[1..])
  }

  /** The spring of one resolved edge: its push added to the source and
      subtracted from the target, unless the endpoints coincide. */
  function SpringStep(ps: seq<Vec>, vs: seq<Vec>, spring: (real, real) -> Vec, e: Edge): (r: seq<Vec>)
    requires |vs| == |ps| && Resolved(e) && e.source.value < |ps| && e.target.value < |ps|
    ensures |r| == |ps|
  {
    var si, ti := e.source.value, e.target.value;
    var dx, dy := ps[ti].x - ps[si].x, ps[ti].y - ps[si].y;
    if dx == 0.0 && dy == 0.0 then vs else Push(vs, si, ti, spring(dx, dy))
  }

  lemma SpringVelsNext(ps: seq<Vec>, vs: seq<Vec>, spring: (real, real) -> Vec, edges: seq<Edge>, m: nat)
    requires |vs| == |ps| && m < ResolvedPrefix(edges) && EndpointsInRange(edges, |ps|)
    ensures SpringVels(ps, vs, spring, edges, m + 1)
            == SpringStep(ps, SpringVels(ps, vs, spring, edges, m), spring, edges[m])
  {
  }

  /** Each velocity changes by the edge's push on that node; the sum is kept. */
  lemma SpringStepAt(ps: seq<Vec>, vs: seq<Vec>, spring: (real, real) -> Vec, e: Edge, k: nat)
    requires |vs| == |ps| && Resolved(e) && e.source.value < |ps| && e.target.value < |ps| && k < |ps|
    ensures SpringStep(ps, vs, spring, e)[k] == Plus(vs[k], EdgePush(ps, spring, e, k))
  {
    var si, ti := e.source.value, e.target.value;
    var dx, dy := ps[ti].x - ps[si].x, ps[ti].y - ps[si].y;
    if !(dx == 0.0 && dy == 0.0) {
      PushAt(vs, si, ti, spring(dx, dy), k);
    }
  }

  lemma SpringStepConserves(ps: seq<Vec>, vs: seq<Vec>, spring: (real, real) -> Vec, e: Edge)
    requires |vs| == |ps| && Resolved(e) && e.source.value < |ps| && e.target.value < |ps|
    ensures Total(SpringStep(ps, vs, spring, e)) == Total(vs)
  {
    var si, ti := e.source.value, e.target.value;
    var dx, dy := ps[ti].x - ps[si].x, ps[ti].y - ps[si].y;
    if !(dx == 0.0 && dy == 0.0) {
      assert SpringStep(ps, vs, spring, e) == Push(vs, si, ti, spring(dx, dy));
      PushConserves(vs, si, ti, spring(dx, dy));
    }
  }

  /** Velocities after the springs of the first `m` edges, in edge order. */
  function SpringVels(ps: seq<Vec>, vs: seq<Vec>, spring: (real, real) -> Vec, edges: seq<Edge>, m: nat)
    : (r: seq<Vec>)
    requires |vs| == |ps| && m <= |edges| && EndpointsInRange(edges, |ps|)
    requires forall q :: 0 <= q < m ==> Resolved(edges[q])
    ensures |r| == |ps|
  {
    if m == 0 then vs
    else
      assert Resolved(edges[m - 1]);
      SpringStep(ps, SpringVels(ps, vs, spring, edges, m - 1), spring, edges[m - 1])
  }

  /** After the springs of the first `m` edges, velocity k has changed by
      the push of every edge it is the source of, minus the push of every
      edge it is the target of. */
  lemma {:induction false} SpringClosed(ps: seq<Vec>, vs: seq<Vec>, spring: (real, real) -> Vec,
                                        edges: seq<Edge>, m: nat, k: nat)
    requires |vs| == |ps| && m <= |edges| && EndpointsInRange(edges, |ps|)
    requires forall q :: 0 <= q < m ==> Resolved(edges[q])
    requires k < |ps|
    ensures SpringVels(ps, vs, spring, edges, m)[k] == Plus(vs[k], SpringDelta(ps, spring, edges, k, m))
  {
    if m > 0 {
      SpringClosed(ps, vs, spring, edges, m - 1, k);
      assert Resolved(edges[m - 1]);
      SpringStepAt(ps, SpringVels(ps, vs, spring, edges, m - 1), spring, edges[m - 1], k);
    }
  }

  /** The spring pass leaves the sum of velocities unchanged, up to any
      point where it stops. */
  lemma {:induction false} SpringMomentum(ps: seq<Vec>, vs: seq<Vec>, spring: (real, real) -> Vec,
                                          edges: seq<Edge>, m: nat)
    requires |vs| == |ps| && m <= |edges| && EndpointsInRange(edges, |ps|)
    requires forall q :: 0 <= q < m ==> Resolved(edges[q])
    ensures Total(SpringVels(ps, vs, spring, edges, m)) == Total(vs)
  {
    if m > 0 {
      SpringMomentum(ps, vs, spring, edges, m - 1);
      assert Resolved(edges[m - 1]);
      SpringStepConserves(ps, SpringVels(ps, vs, spring, edges, m - 1), spring, edges[m - 1]);
    }
  }

  /** Velocities of `s` after the first pass and the springs of the first
      `m` edges. */
  function TickVels(s: seq<Node>, center: (real, real) -> Vec, repel: (real, real) -> Vec,
                    spring: (real, real) -> Vec, edges: seq<Edge>, m: nat): (r: seq<Vec>)
    requires m <= |edges| && EndpointsInRange(edges, |s|)
    requires forall q :: 0 <= q < m ==> Resolved(edges[q])
    ensures |r| == |s|
  {
    SpringVels(Positions(s), ForcePassVels(Positions(s), Velocities(s), center, repel), spring, edges, m)
  }

  /** Before the boundary clamp, a tick changes the sum of velocities only
      by the centring pulls. */
  lemma TickMomentum(s: seq<Node>, center: (real, real) -> Vec, repel: (real, real) -> Vec,
                     spring: (real, real) -> Vec, edges: seq<Edge>, m: nat)
    requires m <= |edges| && EndpointsInRange(edges, |s|)
    requires forall q :: 0 <= q < m ==> Resolved(edges[q])
    ensures Total(TickVels(s, center, repel, spring, edges, m))
         == Plus(Total(Velocities(s)), PullSum(Positions(s), center, |s|))
  {
    var ps := Positions(s);
    ForcePassMomentum(ps, Velocities(s), center, repel);
    SpringMomentum(ps, ForcePassVels(ps, Velocities(s), center, repel), spring, edges, m);
  }

  /** `Math.max(lo, Math.min(hi, v))`. */
  function Clamp(lo: real, hi: real, v: real): (r: real)
    ensures lo <= hi ==> lo <= r <= hi
    ensures hi < lo ==> r == lo
    ensures lo <= v <= hi ==> r == v
    ensures lo <= hi && hi < v ==> r == hi
    ensures v < lo ==> r == lo
  {
    var m := if hi < v then hi else v;
    if lo < m then m else lo
  }

  /** Horizontal margin and vertical margin of the boundary clamp. */
  const MarginX: real := 50.0
  const MarginY: real := 30.0
  const Friction: real := 0.9

  /** Integration and boundary clamp of one node at the end of a tick. */
  function Settle(n: Node, width: real, height: real): Node
  {
    var vx := n.vx * Friction;
    var vy := n.vy * Friction;
    n.(vx := vx, vy := vy,
       x := Clamp(MarginX, width - MarginX, n.x + vx),
       y := Clamp(MarginY, height - MarginY, n.y + vy))
  }

  /** Where the clamp leaves a node: inside [margin, extent - margin] when
      the extent allows it, otherwise pinned to the margin. */
  predicate WithinBounds(n: Node, width: real, height: real)
  {
    (if width >= 2.0 * MarginX then MarginX <= n.x <= width - MarginX else n.x == MarginX)
    && (if height >= 2.0 * MarginY then MarginY <= n.y <= height - MarginY else n.y == MarginY)
  }

  /** Every node of `s` after integration and the boundary clamp. */
  function SettleAll(s: seq<Node>, width: real, height: real): (t: seq<Node>)
    ensures |t| == |s|
    ensures forall k :: 0 <= k < |t| ==> WithinBounds(t[k], width, height)
  {
    seq(|s|, k requires 0 <= k < |s| => Settle(s[k], width, height))
  }

  function Range(n: nat): (r: seq<nat>)
    ensures |r| == n && forall k :: 0 <= k < n ==> r[k] == k
  {
    seq(n, k => k)
  }

  // ------------------------------------------------------------ the panel

  class Graph {
    var nodes: array<Node>
    var edges: seq<Edge>
    /** Class list of each node's label element, index for index. */
    var classes: array<set<string>>
    var width: real
    var height: real
    var canvas: Frame
    /** Whether a next animation frame is scheduled. */
    var running: bool

    ghost predicate Valid()
      reads this
    {
      nodes.Length == classes.Length && EndpointsInRange(edges, nodes.Length)
    }

    /** `initializeGraph` on first load: the graph for a container of the
        given size, with nothing drawn and no frame scheduled yet. */
    constructor (specs: seq<NodeSpec>, edgeSpecs: seq<EdgeSpec>, xs: seq<real>, ys: seq<real>,
                 width: real, height: real)
      requires |xs| == |specs| && |ys| == |specs|
      ensures Valid() && fresh(nodes) && fresh(classes)
      ensures nodes[..] == BuildNodes(specs, xs, ys)
      ensures edges == ResolveEdges(nodes[..], edgeSpecs)
      ensures forall i :: 0 <= i < classes.Length ==> classes[i] == {"graph-node"}
      ensures this.width == width && this.height == height && canvas == Blank && !running
    {
      var built := BuildNodes(specs, xs, ys);
      nodes := new Node[|built|](i requires 0 <= i < |built| => built[i]);
      edges := ResolveEdges(built, edgeSpecs);
      classes := new set<string>[|built|](i => {"graph-node"});
      this.width, this.height := width, height;
      canvas, running := Blank, false;
      new;
      assert nodes[..] == built;
      ResolvedEdgesInRange(built, edgeSpecs);
    }

    /** `initializeGraph` after a resize: cancel the scheduled frame and
        rebuild every node, edge and label element from scratch. */
    method Reinitialize(specs: seq<NodeSpec>, edgeSpecs: seq<EdgeSpec>, xs: seq<real>, ys: seq<real>,
                        width: real, height: real)
      requires |xs| == |specs| && |ys| == |specs|
      modifies this
      ensures Valid() && fresh(nodes) && fresh(classes)
      ensures nodes[..] == BuildNodes(specs, xs, ys)
      ensures edges == ResolveEdges(nodes[..], edgeSpecs)
      ensures forall i :: 0 <= i < classes.Length ==> classes[i] == {"graph-node"}
      ensures this.width == width && this.height == height && canvas == old(canvas) && !running
    {
      running := false;
      var built := BuildNodes(specs, xs, ys);
      nodes := new Node[|built|](i requires 0 <= i < |built| => built[i]);
      edges := ResolveEdges(built, edgeSpecs);
      classes := new set<string>[|built|](i => {"graph-node"});
      this.width, this.height := width, height;
      assert nodes[..] == built;
      ResolvedEdgesInRange(built, edgeSpecs);
    }

    /** What the first `tick` after a build leaves, for nodes built as
        `built`: with every edge resolved, the settled nodes, the plain
        frame and a scheduled next frame; otherwise the velocities up to
        the first unresolved edge, no frame scheduled and the canvas as it
        was (`before`). */
    ghost predicate FirstTicked(built: seq<Node>, center: (real, real) -> Vec, repel: (real, real) -> Vec,
                                spring: (real, real) -> Vec, ok: bool, before: Frame)
      reads this, nodes
      requires EndpointsInRange(edges, |built|)
    {
      (ok <==> forall q :: 0 <= q < |edges| ==> Resolved(edges[q]))
      && (ok ==> nodes[..] == SettleAll(WithVels(built, TickVels(built, center, repel, spring, edges, |edges|)),
                                        width, height)
                 && running && canvas == Plain(Range(|edges|)))
      && (!ok ==> nodes[..] == WithVels(built, TickVels(built, center, repel, spring, edges, ResolvedPrefix(edges)))
                  && !running && canvas == before)
    }

    /** The resize handler: cancel the frame, rebuild the graph for the new
        size and start the simulation again with a first tick. */
    method Resize(specs: seq<NodeSpec>, edgeSpecs: seq<EdgeSpec>, xs: seq<real>, ys: seq<real>,
                  width: real, height: real,
                  center: (real, real) -> Vec, repel: (real, real) -> Vec, spring: (real, real) -> Vec)
      returns (ok: bool)
      requires |xs| == |specs| && |ys| == |specs|
      modifies this
      ensures Valid() && fresh(nodes) && fresh(classes)
      ensures |nodes[..]| == |specs| && edges == ResolveEdges(BuildNodes(specs, xs, ys), edgeSpecs)
      ensures forall i :: 0 <= i < classes.Length ==> classes[i] == {"graph-node"}
      ensures this.width == width && this.height == height
      ensures FirstTicked(BuildNodes(specs, xs, ys), center, repel, spring, ok, old(canvas))
    {
      Reinitialize(specs, edgeSpecs, xs, ys, width, height);
      ok := Tick(center, repel, spring);
    }

    /** First pass of `tick`: the centring pull of every node and the
        repulsion of every unordered pair i < j, added to node i and
        subtracted from node j. Positions are not touched. */
    method ForcePass(center: (real, real) -> Vec, repel: (real, real) -> Vec)
      requires Valid()
      modifies nodes
      ensures nodes[..] == WithVels(old(nodes[..]),
                                    ForcePassVels(Positions(old(nodes[..])), Velocities(old(nodes[..])), center, repel))
    {
      ghost var s := nodes[..];
      ghost var ps, vs := Positions(s), Velocities(s);
      WithVelsKeeps(s, vs, vs);
      var i := 0;
      while i < nodes.Length
        invariant 0 <= i <= nodes.Length
        invariant nodes[..] == WithVels(s, RowStart(ps, vs, center, repel, i))
      {
        ghost var t := RowStart(ps, vs, center, repel, i);
        ForceRow(center, repel, i);
        WithVelsKeeps(s, t, Row(ps, t, center, repel, i, |ps|));
        i := i + 1;
      }
    }

    /** Row i of the first pass: the centring pull of node i, then the
        repulsion of every pair (i, j), j > i, added to node i and
        subtracted from node j. */
    method ForceRow(center: (real, real) -> Vec, repel: (real, real) -> Vec, i: nat)
      requires i < nodes.Length
      modifies nodes
      ensures nodes[..] == WithVels(old(nodes[..]), Row(Positions(old(nodes[..])), Velocities(old(nodes[..])),
                                                        center, repel, i, nodes.Length))
    {
      ghost var s := nodes[..];
      ghost var ps, vs := Positions(s), Velocities(s);
      PullNode(center, i);
      assert Row(ps, vs, center, repel, i, i + 1) == vs[i := Plus(vs[i], Pull(ps, center, i))];
      var j := i + 1;
      while j < nodes.Length
        invariant i + 1 <= j <= nodes.Length
        invariant nodes[..] == WithVels(s, Row(ps, vs, center, repel, i, j))
      {
        ghost var u := Row(ps, vs, center, repel, i, j);
        RepelPair(repel, i, j, s, u);
        assert Row(ps, vs, center, repel, i, j + 1) == Push(u, i, j, PairForce(ps, repel, i, j));
        j := j + 1;
      }
    }

    /** The centring pull of node i, read from its position, added to its
        velocity. */
    method PullNode(center: (real, real) -> Vec, i: nat)
      requires i < nodes.Length
      modifies nodes
      ensures var s := old(nodes[..]);
              nodes[..] == WithVels(s, Velocities(s)[i := Plus(Velocities(s)[i], Pull(Positions(s), center, i))])
    {
      ghost var s := nodes[..];
      ghost var vs := Velocities(s);
      WithVelsKeeps(s, vs, vs);
      var a := nodes[i];
      var v := Plus(Vel(a), center(a.x, a.y));
      nodes[i] := WithVel(a, v);
      WithVelsUpdate(s, vs, i, v);
    }

    /** The repulsion between nodes i and j, read from their positions,
        pushes them apart; `s` and `u` give the positions and velocities
        the array currently holds. */
    method RepelPair(repel: (real, real) -> Vec, i: nat, j: nat, ghost s: seq<Node>, ghost u: seq<Vec>)
      requires i < j < nodes.Length && |s| == nodes.Length && |u| == |s|
      requires nodes[..] == WithVels(s, u)
      modifies nodes
      ensures nodes[..] == WithVels(s, Push(u, i, j, PairForce(Positions(s), repel, i, j)))
    {
      PositionAt(nodes[..], s, u, i);
      PositionAt(nodes[..], s, u, j);
      var p := nodes[i];
      var q := nodes[j];
      var f := repel(q.x - p.x, q.y - p.y);
      assert f == PairForce(Positions(s), repel, i, j);
      WithVelsKeeps(s, u, Push(u, i, j, f));
      PushNodes(i, j, f);
    }

    /** Equal and opposite velocity changes of two nodes: `f` is added to
        node i and then subtracted from node j. */
    method PushNodes(i: nat, j: nat, f: Vec)
      requires i < nodes.Length && j < nodes.Length
      modifies nodes
      ensures nodes[..] == WithVels(old(nodes[..]), Push(Velocities(old(nodes[..])), i, j, f))
    {
      ghost var s := nodes[..];
      ghost var vs := Velocities(s);
      WithVelsKeeps(s, vs, vs);
      var p := nodes[i];
      nodes[i] := WithVel(p, Plus(Vel(p), f));
      WithVelsUpdate(s, vs, i, Plus(vs[i], f));
      ghost var v1 := vs[i := Plus(vs[i], f)];
      var q := nodes[j];
      nodes[j] := WithVel(q, Minus(Vel(q), f));
      WithVelsUpdate(s, v1, j, Minus(v1[j], f));
    }

    /** Second pass of `tick`: the spring of every edge, in edge order, added
        to its source and subtracted from its target when the endpoints do
        not coincide. An edge with an unresolved endpoint raises a TypeError
        in the source, which ends the tick: the pass stops there, `ok` false. */
    method SpringPass(spring: (real, real) -> Vec) returns (ok: bool)
      requires Valid()
      modifies nodes
      ensures ok <==> ResolvedPrefix(edges) == |edges|
      ensures nodes[..] == WithVels(old(nodes[..]), SpringVels(Positions(old(nodes[..])),
                                    Velocities(old(nodes[..])), spring, edges, ResolvedPrefix(edges)))
    {
      ghost var s := nodes[..];
      ghost var ps, vs := Positions(s), Velocities(s);
      WithVelsKeeps(s, vs, vs);
      var m := 0;
      ok := true;
      while m < |edges|
        invariant m <= ResolvedPrefix(edges)
        invariant nodes[..] == WithVels(s, SpringVels(ps, vs, spring, edges, m))
      {
        var e := edges[m];
        if e.source.None? || e.target.None? {
          ok := false;
          return;
        }
        assert m < ResolvedPrefix(edges);
        ghost var u := SpringVels(ps, vs, spring, edges, m);
        SpringEdge(spring, e, s, u);
        SpringVelsNext(ps, vs, spring, edges, m);
        m := m + 1;
      }
    }

    /** `ApplySpring` on an array that holds the positions of `s` and the
        velocities `u`. */
    method SpringEdge(spring: (real, real) -> Vec, e: Edge, ghost s: seq<Node>, ghost u: seq<Vec>)
      requires Resolved(e) && e.source.value < nodes.Length && e.target.value < nodes.Length
      requires |s| == nodes.Length && |u| == |s| && nodes[..] == WithVels(s, u)
      modifies nodes
      ensures nodes[..] == WithVels(s, SpringStep(Positions(s), u, spring, e))
    {
      WithVelsKeeps(s, u, SpringStep(Positions(s), u, spring, e));
      ApplySpring(spring, e);
    }

    /** The spring of one resolved edge, read from the current positions. */
    method ApplySpring(spring: (real, real) -> Vec, e: Edge)
      requires Resolved(e) && e.source.value < nodes.Length && e.target.value < nodes.Length
      modifies nodes
      ensures nodes[..] == WithVels(old(nodes[..]), SpringStep(Positions(old(nodes[..])), Velocities(old(nodes[..])),
                                                               spring, e))
    {
      ghost var s := nodes[..];
      ghost var ps, vs := Positions(s), Velocities(s);
      WithVelsKeeps(s, vs, vs);
      var si, ti := e.source.value, e.target.value;
      var a := nodes[si];
      var b := nodes[ti];
      var dx, dy := b.x - a.x, b.y - a.y;
      assert dx == ps[ti].x - ps[si].x && dy == ps[ti].y - ps[si].y;
      if !(dx == 0.0 && dy == 0.0) {
        var f := spring(dx, dy);
        PushNodes(si, ti, f);
        assert SpringStep(ps, vs, spring, e) == Push(vs, si, ti, f);
      }
    }

    /** Third pass of `tick`: friction, integration and the boundary clamp. */
    method SettlePass()
      requires Valid()
      modifies nodes
      ensures nodes[..] == SettleAll(old(nodes[..]), width, height)
    {
      var k := 0;
      while k < nodes.Length
        invariant 0 <= k <= nodes.Length
        invariant forall i :: 0 <= i < k ==> nodes[i] == Settle(old(nodes[i]), width, height)
        invariant forall i :: k <= i < nodes.Length ==> nodes[i] == old(nodes[i])
      {
        nodes[k] := Settle(nodes[k], width, height);
        k := k + 1;
      }
    }

    /** One `tick`: the three passes, the redraw of every edge in the default
        stroke and the scheduling of the next frame. When the spring pass
        raises, nothing after it happens and no frame is scheduled. */
    method Tick(center: (real, real) -> Vec, repel: (real, real) -> Vec, spring: (real, real) -> Vec)
      returns (ok: bool)
      requires Valid()
      modifies nodes, this`canvas, this`running
      ensures Valid()
      ensures ok <==> forall q :: 0 <= q < |edges| ==> Resolved(edges[q])
      ensures ok ==> nodes[..] == SettleAll(WithVels(old(nodes[..]),
                                   TickVels(old(nodes[..]), center, repel, spring, edges, |edges|)), width, height)
      ensures ok ==> running && canvas == Plain(Range(|edges|))
      ensures !ok ==> nodes[..] == WithVels(old(nodes[..]),
                                   TickVels(old(nodes[..]), center, repel, spring, edges, ResolvedPrefix(edges)))
      ensures !ok ==> running == old(running) && canvas == old(canvas)
    {
      ghost var s := nodes[..];
      ghost var ps := Positions(s);
      ForcePass(center, repel);
      ghost var s1 := nodes[..];
      ghost var v1 := ForcePassVels(ps, Velocities(s), center, repel);
      WithVelsKeeps(s, v1, SpringVels(ps, v1, spring, edges, ResolvedPrefix(edges)));
      ok := SpringPass(spring);
      if ok {
        SettlePass();
        canvas := Plain(Range(|edges|));
        running := true;
      }
    }

    /** `highlightConnections(nodes[h])`: dim every label, then un-dim and
        highlight the connected set; redraw the muted edges, then the
        highlighted ones. An edge with an unresolved endpoint that a pass
        comes to draw raises a TypeError: the class lists are already
        updated, and the canvas keeps only what was stroked before it. */
    method HighlightConnections(h: nat)
      requires Valid() && h < nodes.Length
      modifies classes, this`canvas
      ensures Valid()
      ensures forall i :: 0 <= i < classes.Length ==>
        classes[i] == if Some(i) in Connected(edges, h)
                      then old(classes[i]) - {"dimmed"} + {"highlight"}
                      else old(classes[i]) + {"dimmed"}
      ensures var muted := PassIndices(edges, Connected(edges, h), false, |edges|);
              var bold := PassIndices(edges, Connected(edges, h), true, |edges|);
              canvas == if DrawnPrefix(edges, muted) == muted
                        then Hover(muted, DrawnPrefix(edges, bold))
                        else Hover(DrawnPrefix(edges, muted), [])
    {
      DimAll();
      var conn := CollectConnected(edges, h);
      LightConnected(conn);
      var drawn, ok := StrokeEdges(PassIndices(edges, conn, false, |edges|));
      if !ok {
        canvas := Hover(drawn, []);
        return;
      }
      var bold;
      bold, ok := StrokeEdges(PassIndices(edges, conn, true, |edges|));
      canvas := Hover(drawn, bold);
    }

    /** The first loop of `highlightConnections`: every label is dimmed. */
    method DimAll()
      modifies classes
      ensures forall k :: 0 <= k < classes.Length ==> classes[k] == old(classes[k]) + {"dimmed"}
    {
      var i := 0;
      while i < classes.Length
        invariant 0 <= i <= classes.Length
        invariant forall k :: 0 <= k < i ==> classes[k] == old(classes[k]) + {"dimmed"}
        invariant forall k :: i <= k < classes.Length ==> classes[k] == old(classes[k])
      {
        classes[i] := classes[i] + {"dimmed"};
        i := i + 1;
      }
    }

    /** The second loop: the labels of the connected set lose `dimmed` and
        gain `highlight`; the others are left as they are. */
    method LightConnected(conn: set<Endpoint>)
      modifies classes
      ensures forall k :: 0 <= k < classes.Length ==> classes[k] == if Some(k) in conn
        then old(classes[k]) - {"dimmed"} + {"highlight"} else old(classes[k])
    {
      var i := 0;
      while i < classes.Length
        invariant 0 <= i <= classes.Length
        invariant forall k :: 0 <= k < i ==> classes[k] == if Some(k) in conn
          then old(classes[k]) - {"dimmed"} + {"highlight"} else old(classes[k])
        invariant forall k :: i <= k < classes.Length ==> classes[k] == old(classes[k])
      {
        if Some(i) in conn {
          classes[i] := classes[i] - {"dimmed"} + {"highlight"};
        }
        i := i + 1;
      }
    }

    /** One stroke loop over the edges `idx`, in order: `drawn` are the edges
        stroked, and `ok` is false when the loop stopped at an edge with an
        unresolved endpoint. */
    method StrokeEdges(idx: seq<nat>) returns (drawn: seq<nat>, ok: bool)
      requires forall q :: 0 <= q < |idx| ==> idx[q] < |edges|
      ensures drawn == DrawnPrefix(edges, idx)
      ensures ok <==> drawn == idx
    {
      drawn := [];
      var k := 0;
      while k < |idx|
        invariant 0 <= k <= |idx| && drawn == idx[..k]
        invariant forall q :: 0 <= q < k ==> Resolved(edges[idx[q]])
      {
        var e := edges[idx[k]];
        if e.source.None? || e.target.None? {
          DrawnPrefixAt(edges, idx, k);
          ok := false;
          return;
        }
        drawn := drawn + [idx[k]];
        k := k + 1;
      }
      assert idx[..k] == idx;
      DrawnPrefixAt(edges, idx, k);
      ok := true;
    }

    /** `clearHighlights`: drop both hover classes from every label and
        redraw every edge in the default stroke, up to the first edge with
        an unresolved endpoint, where a TypeError ends the handler. */
    method ClearHighlights()
      requires Valid()
      modifies classes, this`canvas
      ensures Valid()
      ensures forall i :: 0 <= i < classes.Length ==> classes[i] == old(classes[i]) - {"dimmed", "highlight"}
      ensures canvas == Plain(Range(ResolvedPrefix(edges)))
    {
      var i := 0;
      while i < classes.Length
        invariant 0 <= i <= classes.Length
        invariant forall k :: 0 <= k < i ==> classes[k] == old(classes[k]) - {"dimmed", "highlight"}
        invariant forall k :: i <= k < classes.Length ==> classes[k] == old(classes[k])
      {
        classes[i] := classes[i] - {"dimmed"} - {"highlight"};
        i := i + 1;
      }
      var drawn, ok := StrokeEdges(Range(|edges|));
      DrawnPrefixOfAll(edges);
      canvas := Plain(drawn);
    }
  }

  /** `initKnowledgeGraph`: nothing happens unless the container, the
      canvas, its drawing context and the legend all exist (`present`);
      otherwise the graph is built and the simulation started with a first
      tick. `ok` says whether that tick ran to its end. */
  method InitKnowledgeGraph(present: bool, specs: seq<NodeSpec>, edgeSpecs: seq<EdgeSpec>,
                            xs: seq<real>, ys: seq<real>, width: real, height: real,
                            center: (real, real) -> Vec, repel: (real, real) -> Vec, spring: (real, real) -> Vec)
    returns (g: Option<Graph>, ok: bool)
    requires |xs| == |specs| && |ys| == |specs|
    ensures g.Some? <==> present
    ensures g.None? ==> !ok
    ensures g.Some? ==> var gr := g.value;
      fresh(gr) && fresh(gr.nodes) && fresh(gr.classes) && gr.Valid()
      && gr.nodes.Length == |specs| && gr.edges == ResolveEdges(BuildNodes(specs, xs, ys), edgeSpecs)
      && (forall i :: 0 <= i < gr.classes.Length ==> gr.classes[i] == {"graph-node"})
      && gr.width == width && gr.height == height
      && gr.FirstTicked(BuildNodes(specs, xs, ys), center, repel, spring, ok, Blank)
  {
    if !present {
      return None, false;
    }
    var gr := new Graph(specs, edgeSpecs, xs, ys, width, height);
    ok := gr.Tick(center, repel, spring);
    g := Some(gr);
  }

  /** Entering and then leaving a label restores every class list that held
      neither hover class, whatever the hovered node. */
  lemma HoverThenLeaveRestores(before: set<string>, connected: bool)
    requires "dimmed" !in before && "highlight" !in before
    ensures (if connected then before - {"dimmed"} + {"highlight"} else before + {"dimmed"})
            - {"dimmed", "highlight"} == before
  {
  }

  /** A client of the panel: hover and leave restore the label classes. */
  method HoverCycle(g: Graph, h: nat)
    requires g.Valid() && h < g.nodes.Length
    requires forall i :: 0 <= i < g.classes.Length ==> g.classes[i] == {"graph-node"}
    modifies g.classes, g`canvas
    ensures forall i :: 0 <= i < g.classes.Length ==> g.classes[i] == {"graph-node"}
  {
    g.HighlightConnections(h);
    g.ClearHighlights();
  }
}
