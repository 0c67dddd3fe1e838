/** The layered topology diagram: computeLayout of frontend/src/pages/topology.ts. */
module Layout {
  import opened Basics

  type Id = string

  datatype Node = Node(id: Id, seed: bool)
  datatype Edge = Edge(source: Id, target: Id)
  datatype Graph = Graph(nodes: seq<Node>, edges: seq<Edge>)

  const COLUMN_GAP := 200
  const LAYER_GAP := 150
  const ROW_GAP := 96

  // ----- hops -----

  function Ids(nodes: seq<Node>): set<Id> { set n | n in nodes :: n.id }

  predicate Joins(e: Edge, a: Id, b: Id) { (e.source == a && e.target == b) || (e.source == b && e.target == a) }

  /** Edges are undirected; those with an unknown end are ignored. */
  predicate Linked(g: Graph, a: Id, b: Id) {
    a in Ids(g.nodes) && b in Ids(g.nodes) && exists e :: e in g.edges && Joins(e, a, b)
  }

  ghost predicate Walk(g: Graph, a: Id, b: Id, n: nat)
    decreases n
  {
    if n == 0 then a == b else exists m :: Walk(g, a, m, n - 1) && Linked(g, m, b)
  }

  /** `n` hops lead from a to b, and no fewer do. */
  ghost predicate Shortest(g: Graph, a: Id, b: Id, n: nat) {
    Walk(g, a, b, n) && forall k: nat :: k < n ==> !Walk(g, a, b, k)
  }

  ghost predicate Connected(g: Graph, a: Id, b: Id) { exists n: nat :: Walk(g, a, b, n) }

  /** The distances of exactly the nodes connected to the seed. */
  ghost predicate Distances(g: Graph, seed: Id, depth: map<Id, nat>) {
    && (forall id :: id in depth <==> Connected(g, seed, id))
    && (forall id :: id in depth ==> Shortest(g, seed, id, depth[id]))
  }

  ghost predicate Adjacent(g: Graph, adjacency: map<Id, seq<Id>>) {
    && adjacency.Keys == Ids(g.nodes)
    && forall a, b :: a in adjacency ==> (b in adjacency[a] <==> Linked(g, a, b))
  }

  method Adjacency(g: Graph) returns (adjacency: map<Id, seq<Id>>)
    ensures Adjacent(g, adjacency)
  {
    adjacency := map id | id in Ids(g.nodes) :: [];
    for i := 0 to |g.edges|
      invariant Adjacent(Graph(g.nodes, g.edges[..i]), adjacency)
    {
      var e := g.edges[i];
      ghost var was := adjacency;
      if e.source in adjacency && e.target in adjacency {
        adjacency := adjacency[e.source := adjacency[e.source] + [e.target]];
        adjacency := adjacency[e.target := adjacency[e.target] + [e.source]];
      }
      EdgeAdded(g, i);
    }
    assert g.edges[..|g.edges|] == g.edges;
  }

  lemma EdgeAdded(g: Graph, i: nat)
    requires i < |g.edges|
    ensures var now, was := Graph(g.nodes, g.edges[..i + 1]), Graph(g.nodes, g.edges[..i]);
            forall a, b :: Linked(now, a, b) <==>
              Linked(was, a, b) || (a in Ids(g.nodes) && b in Ids(g.nodes) && Joins(g.edges[i], a, b))
  {
    assert forall e :: e in g.edges[..i + 1] <==> e in g.edges[..i] || e == g.edges[i] by {
      assert g.edges[..i + 1] == g.edges[..i] + [g.edges[i]];
    }
  }

  /** The nodes whose links have been followed lead nowhere new. */
  ghost predicate Explored(g: Graph, depth: map<Id, nat>, done: set<Id>) {
    forall x, y :: x in done && Linked(g, x, y) ==> x in depth && y in depth && depth[y] <= depth[x] + 1
  }

  predicate Sorted(depth: map<Id, nat>, queue: seq<Id>) {
    && (forall i :: 0 <= i < |queue| ==> queue[i] in depth)
    && forall i, j :: 0 <= i < j < |queue| ==> depth[queue[i]] <= depth[queue[j]]
  }

  ghost predicate Found(g: Graph, seed: Id, depth: map<Id, nat>) {
    && depth.Keys <= Ids(g.nodes)
    && seed in depth && depth[seed] == 0
    && forall x :: x in depth ==> Walk(g, seed, x, depth[x])
  }

  lemma Extend(g: Graph, a: Id, m: Id, b: Id, n: nat)
    requires Walk(g, a, m, n) && Linked(g, m, b)
    ensures Walk(g, a, b, n + 1) && b in Ids(g.nodes)
  {
  }

  /** The state of the search: where it has been, what it still has to follow, and how far it has come. */
  ghost predicate Searching(g: Graph, seed: Id, depth: map<Id, nat>, queue: seq<Id>, done: set<Id>, near: nat) {
    && Found(g, seed, depth)
    && Sorted(depth, queue)
    && Explored(g, depth, done)
    && (forall x :: x in depth <==> x in done || x in queue)
    && (forall x :: x in depth ==> depth[x] <= near + 1)
    && (forall i :: 0 <= i < |queue| ==> near <= depth[queue[i]])
  }

  method BreadthFirst(g: Graph, adjacency: map<Id, seq<Id>>, seed: Id) returns (depth: map<Id, nat>)
    requires Adjacent(g, adjacency) && seed in Ids(g.nodes)
    ensures Distances(g, seed, depth)
  {
    hide Searching;
    hide Linked;
    hide Walk;
    hide Distances;
    depth := map[seed := 0];
    var queue := [seed];
    ghost var done: set<Id>, near := {}, 0;
    Start(g, seed);
    while queue != []
      invariant Searching(g, seed, depth, queue, done, near)
      decreases Ids(g.nodes) - depth.Keys, |queue|
    {
      var id := queue[0];
      HeadIsNode(g, seed, depth, queue, done, near);
      ghost var depth0, queue0 := depth, queue;
      queue := queue[1..];
      Pop(g, seed, depth0, queue0, done, near);
      for k := 0 to |adjacency[id]|
        invariant id in depth && Following(g, seed, depth, queue, done, id)
        invariant forall x :: x in depth0 ==> x in depth
        invariant forall j :: 0 <= j < k ==> adjacency[id][j] in depth
        invariant depth.Keys == depth0.Keys ==> queue == queue0[1..]
        invariant depth[id] == depth0[id]
      {
        var next := adjacency[id][k];
        if next !in depth {
          Push(g, seed, depth, queue, done, id, next);
          depth := depth[next := depth[id] + 1];
          queue := queue + [next];
        }
      }
      Finish(g, seed, adjacency, depth, queue, done, id);
      done, near := done + {id}, depth[id];
      Fewer(g, depth0, depth);
    }
    ExploredAll(g, seed, depth, done, near);
  }

  /** The same while the links of `id` are followed. */
  ghost predicate Following(g: Graph, seed: Id, depth: map<Id, nat>, queue: seq<Id>, done: set<Id>, id: Id)
    requires id in depth
  {
    && Found(g, seed, depth)
    && Sorted(depth, queue)
    && Explored(g, depth, done)
    && (forall x :: x in depth <==> x in done || x in queue || x == id)
    && (forall x :: x in depth ==> depth[x] <= depth[id] + 1)
    && (forall i :: 0 <= i < |queue| ==> depth[id] <= depth[queue[i]])
  }

  lemma Start(g: Graph, seed: Id)
    requires seed in Ids(g.nodes)
    ensures Searching(g, seed, map[seed := 0], [seed], {}, 0)
  {
    hide Linked;
  }

  lemma HeadIsNode(g: Graph, seed: Id, depth: map<Id, nat>, queue: seq<Id>, done: set<Id>, near: nat)
    requires queue != [] && Searching(g, seed, depth, queue, done, near)
    ensures queue[0] in depth && queue[0] in Ids(g.nodes)
  {
    hide Linked;
    hide Walk;
    hide Explored;
  }

  lemma Pop(g: Graph, seed: Id, depth: map<Id, nat>, queue: seq<Id>, done: set<Id>, near: nat)
    requires queue != [] && queue[0] in depth && Searching(g, seed, depth, queue, done, near)
    ensures Following(g, seed, depth, queue[1..], done, queue[0])
  {
    hide Linked;
    hide Walk;
    hide Found;
    hide Explored;
    assert forall x :: x in queue <==> x == queue[0] || x in queue[1..];
  }

  lemma Push(g: Graph, seed: Id, depth: map<Id, nat>, queue: seq<Id>, done: set<Id>, id: Id, next: Id)
    requires id in depth && Following(g, seed, depth, queue, done, id) && next !in depth && Linked(g, id, next)
    ensures Following(g, seed, depth[next := depth[id] + 1], queue + [next], done, id)
  {
    hide Linked;
    hide Walk;
    Extend(g, seed, id, next, depth[id]);
  }

  lemma Finish(g: Graph, seed: Id, adjacency: map<Id, seq<Id>>, depth: map<Id, nat>, queue: seq<Id>, done: set<Id>,
               id: Id)
    requires Adjacent(g, adjacency) && id in adjacency && id in depth && Following(g, seed, depth, queue, done, id)
    requires forall j :: 0 <= j < |adjacency[id]| ==> adjacency[id][j] in depth
    ensures Searching(g, seed, depth, queue, done + {id}, depth[id])
  {
    hide Linked;
    hide Walk;
    assert Explored(g, depth, done + {id}) by {
      forall y | Linked(g, id, y) ensures y in depth && depth[y] <= depth[id] + 1 { assert y in adjacency[id]; }
    }
  }

  lemma Fewer(g: Graph, depth0: map<Id, nat>, depth: map<Id, nat>)
    requires depth.Keys <= Ids(g.nodes) && forall x :: x in depth0 ==> x in depth
    ensures depth.Keys == depth0.Keys || Ids(g.nodes) - depth.Keys < Ids(g.nodes) - depth0.Keys
  {
    if x :| x in depth && x !in depth0 { assert x in Ids(g.nodes) - depth0.Keys; }
  }

  lemma {:induction false} Reaches(g: Graph, seed: Id, depth: map<Id, nat>, done: set<Id>, x: Id, n: nat)
    requires seed in depth && depth[seed] == 0
    requires Explored(g, depth, done) && depth.Keys == done && Walk(g, seed, x, n)
    ensures x in depth && depth[x] <= n
    decreases n
  {
    hide Linked;
    if n > 0 {
      var m :| Walk(g, seed, m, n - 1) && Linked(g, m, x);
      Reaches(g, seed, depth, done, m, n - 1);
    }
  }

  /** A finished search has found the distances. */
  lemma ExploredAll(g: Graph, seed: Id, depth: map<Id, nat>, done: set<Id>, near: nat)
    requires Searching(g, seed, depth, [], done, near)
    ensures Distances(g, seed, depth)
  {
    hide Linked;
    hide Walk;
    assert depth.Keys == done;
    forall x, n: nat | Walk(g, seed, x, n) ensures x in depth && depth[x] <= n {
      Reaches(g, seed, depth, done, x, n);
    }
  }

  // ----- layers -----

  /** The first node marked as seed, or else the first with the seed address, or else the first node. */
  function Seed(nodes: seq<Node>, seedIp: Option<Id>): (seed: Id)
    requires nodes != []
    ensures seed in Ids(nodes)
    ensures (exists n :: n in nodes && n.seed) ==>
              exists i :: 0 <= i < |nodes| && nodes[i].seed && seed == nodes[i].id && forall j :: 0 <= j < i ==>
                !nodes[j].seed
    ensures (forall n :: n in nodes ==> !n.seed) ==>
              seed == if seedIp.Some? && seedIp.value in Ids(nodes) then seedIp.value else nodes[0].id
  {
    var marked, addressed := FirstMarked(nodes), FirstAt(nodes, seedIp);
    if marked < |nodes| then nodes[marked].id else if addressed < |nodes| then nodes[addressed].id else nodes[0].id
  }

  function FirstMarked(nodes: seq<Node>): (i: nat)
    ensures i <= |nodes| && (i < |nodes| ==> nodes[i].seed) && forall j :: 0 <= j < i ==> !nodes[j].seed
  {
    if nodes == [] || nodes[0].seed then 0 else 1 + FirstMarked(nodes[1..])
  }

  function FirstAt(nodes: seq<Node>, ip: Option<Id>): (i: nat)
    ensures i <= |nodes| && (i < |nodes| ==> Some(nodes[i].id) == ip) && forall j :: 0 <= j < i ==>
              Some(nodes[j].id) != ip
  {
    if nodes == [] || Some(nodes[0].id) == ip then 0 else 1 + FirstAt(nodes[1..], ip)
  }

  function Level(depth: map<Id, nat>, id: Id): nat { if id in depth then depth[id] else 1 }

  /** The ids of a level, in node order. */
  function Layer(nodes: seq<Node>, depth: map<Id, nat>, level: nat): seq<Id> {
    if nodes == [] then []
    else
      var last := nodes[|nodes| - 1].id;
      Layer(nodes[..|nodes| - 1], depth, level) + if Level(depth, last) == level then [last] else []
  }

  /** `Math.ceil(Math.sqrt(n))`. */
  function CeilSqrt(n: nat): (r: nat)
    ensures r * r >= n && (r > 0 ==> (r - 1) * (r - 1) < n)
  {
    RootFrom(n, 0)
  }

  function RootFrom(n: nat, r: nat): (s: nat)
    requires r > 0 ==> (r - 1) * (r - 1) < n
    ensures s * s >= n && (s > 0 ==> (s - 1) * (s - 1) < n)
    decreases Max(0, n - r)
  {
    if r * r >= n then r
    else
      assert r <= r * r;
      assert (r + 1 - 1) * (r + 1 - 1) == r * r;
      RootFrom(n, r + 1)
  }

  function PerRow(length: nat): (perRow: nat)
    ensures length > 0 ==> perRow > 0
  {
    Min(length, Max(4, CeilSqrt(length * 2)))
  }

  datatype Position = Position(x: int, y: int)

  function Quotient(index: nat, width: nat): (q: nat)
    requires width > 0
    ensures q * width <= index < q * width + width
  {
    index / width
  }

  function RowOf(length: nat, index: nat): (row: nat)
    requires index < length
    ensures row * PerRow(length) <= index < row * PerRow(length) + PerRow(length)
  {
    Quotient(index, PerRow(length))
  }

  /** Rows are centred, so the place in a row is a half multiple of the gap. */
  function PlaceX(length: nat, index: nat): int
    requires index < length
  {
    var perRow, row := PerRow(length), RowOf(length, index);
    var columns := Min(perRow, length - row * perRow);
    (2 * (index % perRow) - (columns - 1)) * COLUMN_GAP / 2
  }

  /** The place of the index-th of `length` ids of a level. */
  function Place(length: nat, level: nat, index: nat): Position
    requires index < length
  {
    Position(PlaceX(length, index), level * LAYER_GAP + RowOf(length, index) * ROW_GAP)
  }

  /** The id stands at one of its places in its layer. */
  ghost predicate Placed(layer: seq<Id>, level: nat, id: Id, p: Position) {
    PlacedBefore(layer, level, |layer|, id, p)
  }

  /** The same for the places of the first n ids. */
  ghost predicate PlacedBefore(layer: seq<Id>, level: nat, n: nat, id: Id, p: Position)
    requires n <= |layer|
  {
    exists i :: 0 <= i < n && layer[i] == id && p == Place(|layer|, level, i)
                && forall j :: i < j < n ==> layer[j] != id
  }

  /** A layout by hop distance: connected nodes at their shortest distance, all others in layer 1. */
  ghost predicate LaidOut(g: Graph, depth: map<Id, nat>, positions: map<Id, Position>) {
    && positions.Keys == Ids(g.nodes)
    && forall id :: id in positions ==>
         Placed(Layer(g.nodes, depth, Level(depth, id)), Level(depth, id), id, positions[id])
  }

  lemma {:induction false} LayerHas(nodes: seq<Node>, depth: map<Id, nat>, level: nat, id: Id)
    ensures id in Layer(nodes, depth, level) <==> id in Ids(nodes) && Level(depth, id) == level
  {
    if nodes != [] {
      var n := |nodes| - 1;
      LayerHas(nodes[..n], depth, level, id);
      assert nodes == nodes[..n] + [nodes[n]];
    }
  }

  class TopologyState {
    var positions: map<Id, Position>

    /** Writes one layer over the positions. */
    method PlaceLayer(layer: seq<Id>, level: nat)
      modifies this
      ensures forall id :: id in positions <==> id in old(positions) || id in layer
      ensures forall id :: id in layer ==> Placed(layer, level, id, positions[id])
      ensures forall id :: id in positions && id !in layer ==> positions[id] == old(positions)[id]
    {
      hide Place;
      for i := 0 to |layer|
        invariant forall id :: id in positions <==> id in old(positions) || id in layer[..i]
        invariant forall id :: id in layer[..i] ==> id in positions && PlacedBefore(layer, level, i, id, positions[id])
        invariant forall id :: id in positions && id !in layer[..i] ==> positions[id] == old(positions)[id]
      {
        assert layer[..i + 1] == layer[..i] + [layer[i]];
        assert PlacedBefore(layer, level, i + 1, layer[i], Place(|layer|, level, i));
        forall id | id in layer[..i] && id != layer[i] ensures PlacedBefore(layer, level, i + 1, id, positions[id]) {
          var k :| 0 <= k < i && layer[k] == id && positions[id] == Place(|layer|, level, k)
                   && forall j :: k < j < i ==> layer[j] != id;
          assert forall j :: k < j < i + 1 ==> layer[j] != id;
        }
        hide PlacedBefore;
        positions := positions[layer[i] := Place(|layer|, level, i)];
      }
      assert layer[..|layer|] == layer;
    }

    method ComputeLayout(g: Graph, seedIp: Option<Id>)
      modifies this
      ensures g.nodes == [] ==> positions == old(positions)
      ensures g.nodes != [] ==> Diagram(g, Seed(g.nodes, seedIp), positions)
    {
      hide Distances;
      hide Placed;
      hide Layer;
      hide Level;
      if g.nodes == [] { return; }
      var adjacency := Adjacency(g);
      var depth := BreadthFirst(g, adjacency, Seed(g.nodes, seedIp));
      var layers := Layers(g.nodes, depth);
      positions := map[];
      var todo := layers.Keys;
      while todo != {}
        invariant todo <= layers.Keys
        invariant forall id :: id in positions <==> id in Ids(g.nodes) && Level(depth, id) !in todo
        invariant forall id :: id in positions ==>
                    Placed(Layer(g.nodes, depth, Level(depth, id)), Level(depth, id), id, positions[id])
        decreases todo
      {
        var level :| level in todo;
        PlaceLayer(layers[level], level);
        todo := todo - {level};
      }
    }
  }

  /** The positions are a layout by the distances from the seed. */
  ghost predicate Diagram(g: Graph, seed: Id, positions: map<Id, Position>) {
    exists depth :: Distances(g, seed, depth) && LaidOut(g, depth, positions)
  }

  /** The ids of each occupied level, in node order. */
  method Layers(nodes: seq<Node>, depth: map<Id, nat>) returns (layers: map<nat, seq<Id>>)
    ensures forall l :: l in layers ==> layers[l] == Layer(nodes, depth, l)
    ensures forall l :: l in layers ==> forall id :: id in layers[l] <==> id in Ids(nodes) && Level(depth, id) == l
    ensures forall id :: id in Ids(nodes) ==> Level(depth, id) in layers
  {
    hide Level;
    hide Layer;
    layers := map[];
    assert forall l: nat :: Layer([], depth, l) == [] by { EmptyLayers(depth); }
    for i := 0 to |nodes|
      invariant nodes[..0] == []
      invariant forall l :: l in layers ==> layers[l] == Layer(nodes[..i], depth, l)
      invariant forall l: nat :: l !in layers ==> Layer(nodes[..i], depth, l) == []
    {
      var level := Level(depth, nodes[i].id);
      forall l: nat { LayerSnoc(nodes, depth, l, i); }
      layers := layers[level := (if level in layers then layers[level] else []) + [nodes[i].id]];
    }
    assert nodes[..|nodes|] == nodes;
    Occupied(nodes, depth, layers);
  }

  lemma EmptyLayers(depth: map<Id, nat>)
    ensures forall l: nat :: Layer([], depth, l) == []
  {
  }

  lemma LayerSnoc(nodes: seq<Node>, depth: map<Id, nat>, level: nat, i: nat)
    requires i < |nodes|
    ensures Layer(nodes[..i + 1], depth, level)
            == Layer(nodes[..i], depth, level) + if Level(depth, nodes[i].id) == level then [nodes[i].id] else []
  {
    assert nodes[..i + 1][..i] == nodes[..i];
  }

  lemma Occupied(nodes: seq<Node>, depth: map<Id, nat>, layers: map<nat, seq<Id>>)
    requires forall l :: l in layers ==> layers[l] == Layer(nodes, depth, l)
    requires forall l: nat :: l !in layers ==> Layer(nodes, depth, l) == []
    ensures forall l :: l in layers ==> forall id :: id in layers[l] <==> id in Ids(nodes) && Level(depth, id) == l
    ensures forall id :: id in Ids(nodes) ==> Level(depth, id) in layers
  {
    hide Layer;
    hide Level;
    hide Ids;
    forall l: nat, id ensures id in Layer(nodes, depth, l) <==> id in Ids(nodes) && Level(depth, id) == l {
      LayerHas(nodes, depth, l, id);
    }
  }

  // ----- no two nodes in one place -----

  lemma DivMod(index: nat, perRow: nat)
    requires perRow > 0
    ensures index == index / perRow * perRow + index % perRow && 0 <= index / perRow
  {
  }

  /** Two ids of one layer never share a place. */
  lemma LayerPlacesDistinct(length: nat, level: nat, i: nat, j: nat)
    requires i < length && j < length && i != j
    ensures Place(length, level, i) != Place(length, level, j)
  {
    hide PerRow;
    DivMod(i, PerRow(length));
    DivMod(j, PerRow(length));
  }

  /**
   * Nodes of different layers share a place if and only if they are equally far from the middle of their rows and,
   * for some positive k, 16k layers and 25k rows apart.
   */
  lemma SharedPlaceExactly(length: nat, level: nat, index: nat, length': nat, level': nat, index': nat)
    requires index < length && index' < length' && level < level'
    ensures Place(length, level, index) == Place(length', level', index')
       <==> PlaceX(length, index) == PlaceX(length', index')
            && exists k: nat ::
                 k > 0 && level' - level == 16 * k && RowOf(length, index) - RowOf(length', index') == 25 * k
  {
    hide PlaceX;
    hide RowOf;
    SixteenExactly(level' - level, RowOf(length, index) - RowOf(length', index'));
  }

  lemma SixteenExactly(layers: nat, rows: int)
    requires layers > 0
    ensures layers * LAYER_GAP == rows * ROW_GAP <==> exists k: nat :: k > 0 && layers == 16 * k && rows == 25 * k
  {
    if layers * LAYER_GAP == rows * ROW_GAP {
      Sixteen(layers, rows);
      var k := layers / 16;
      assert layers == 16 * k && rows == 25 * k;
    }
  }

  lemma SharedPlace(length: nat, level: nat, index: nat, length': nat, level': nat, index': nat)
    requires index < length && index' < length' && level < level'
    requires Place(length, level, index) == Place(length', level', index')
    ensures level + 16 <= level' && RowOf(length, index) >= 25
  {
    SharedPlaceExactly(length, level, index, length', level', index');
  }

  lemma Sixteen(layers: nat, rows: int)
    requires layers > 0 && layers * LAYER_GAP == rows * ROW_GAP
    ensures layers % 16 == 0 && rows >= 25
  {
    assert 25 * layers == 16 * rows;
    assert layers == 16 * (11 * layers - 7 * rows);
    assert rows == 25 * (11 * layers - 7 * rows);
  }

  lemma Scaled(a: nat, b: nat, m: nat)
    requires a >= b
    ensures a * m >= b * m
  {
  }

  lemma Squares(a: nat, b: nat)
    requires a >= b
    ensures a * a >= b * b
  {
    Scaled(a, b, a);
    Scaled(a, b, b);
  }

  /** A layer with a 26th row has more than 1275 ids. */
  lemma ManyRows(length: nat, index: nat)
    requires index < length && RowOf(length, index) >= 25
    ensures length > 1275
  {
    var root, perRow := CeilSqrt(length * 2), PerRow(length);
    Scaled(RowOf(length, index), 25, perRow);
    assert perRow == Max(4, root) by { assert length > 25 * perRow; }
    hide *;
    Squares(perRow, root);
    if perRow <= 50 { Scaled(50, perRow, perRow); }
  }

  // ----- how many nodes it takes -----

  predicate DistinctIds(nodes: seq<Node>) { forall i, j :: 0 <= i < j < |nodes| ==> nodes[i].id != nodes[j].id }

  /** The number of nodes on the first n levels. */
  function Below(nodes: seq<Node>, depth: map<Id, nat>, n: nat): (count: nat)
    ensures count <= |nodes|
  {
    if nodes == [] then 0
    else Below(nodes[..|nodes| - 1], depth, n) + if Level(depth, nodes[|nodes| - 1].id) < n then 1 else 0
  }

  lemma {:induction false} BelowNext(nodes: seq<Node>, depth: map<Id, nat>, n: nat)
    ensures Below(nodes, depth, n + 1) == Below(nodes, depth, n) + |Layer(nodes, depth, n)|
  {
    hide Level;
    if nodes != [] { BelowNext(nodes[..|nodes| - 1], depth, n); }
  }

  lemma {:induction false} WalkConcat(g: Graph, a: Id, m: Id, b: Id, k: nat, n: nat)
    requires Walk(g, a, m, k) && Walk(g, m, b, n)
    ensures Walk(g, a, b, k + n)
    decreases n
  {
    hide Linked;
    if n > 0 {
      var x :| Walk(g, m, x, n - 1) && Linked(g, x, b);
      WalkConcat(g, a, m, x, k, n - 1);
    }
  }

  lemma {:induction false} WalkSplit(g: Graph, a: Id, b: Id, k: nat, n: nat) returns (m: Id)
    requires Walk(g, a, b, n) && k <= n
    ensures Walk(g, a, m, k) && Walk(g, m, b, n - k)
    decreases n
  {
    hide Linked;
    if k == n { return b; }
    var x :| Walk(g, a, x, n - 1) && Linked(g, x, b);
    m := WalkSplit(g, a, x, k, n - 1);
    assert Walk(g, m, x, n - 1 - k) && Linked(g, x, b);
  }

  lemma WalkEnds(g: Graph, a: Id, b: Id, n: nat)
    requires Walk(g, a, b, n) && a in Ids(g.nodes)
    ensures b in Ids(g.nodes)
  {
  }

  /** Below a node at some depth no level is empty. */
  lemma LevelOccupied(g: Graph, seed: Id, depth: map<Id, nat>, b: Id, level: nat)
    requires Distances(g, seed, depth) && seed in Ids(g.nodes) && b in depth && level <= depth[b]
    ensures Layer(g.nodes, depth, level) != []
  {
    hide Linked; hide Walk; hide Layer;
    var m := WalkSplit(g, seed, b, level, depth[b]);
    WalkEnds(g, seed, m, level);
    assert Connected(g, seed, m);
    if depth[m] < level { WalkConcat(g, seed, m, b, depth[m], depth[b] - level); }
    LayerHas(g.nodes, depth, level, m);
  }

  /** A layer with more than 1275 ids and another one above it need that many nodes. */
  lemma {:induction false} LevelsFill(g: Graph, seed: Id, depth: map<Id, nat>, b: Id, wide: nat, n: nat)
    requires Distances(g, seed, depth) && seed in Ids(g.nodes) && b in depth && n <= depth[b] + 1
    requires |Layer(g.nodes, depth, wide)| > 1275
    ensures Below(g.nodes, depth, n) >= n + if n > wide then 1275 else 0
  {
    if n > 0 {
      hide Layer; hide Distances; hide Below;
      LevelsFill(g, seed, depth, b, wide, n - 1);
      LevelOccupied(g, seed, depth, b, n - 1);
      BelowNext(g.nodes, depth, n - 1);
    }
  }

  /** With distinct ids the seed is alone on level 0. */
  lemma {:induction false} SeedAlone(nodes: seq<Node>, depth: map<Id, nat>, seed: Id)
    requires DistinctIds(nodes) && forall id :: id in Ids(nodes) && Level(depth, id) == 0 ==> id == seed
    ensures |Layer(nodes, depth, 0)| <= if seed in Ids(nodes) then 1 else 0
  {
    if nodes != [] {
      hide Level;
      var n := |nodes| - 1;
      assert forall id :: id in Ids(nodes[..n]) ==> id in Ids(nodes);
      assert nodes[n] in nodes;
      SeedAlone(nodes[..n], depth, seed);
      if nodes[n].id == seed { assert seed !in Ids(nodes[..n]); }
    }
  }

  lemma OnlySeedAtZero(g: Graph, seed: Id, depth: map<Id, nat>)
    requires Distances(g, seed, depth)
    ensures forall id :: id in Ids(g.nodes) && Level(depth, id) == 0 ==> id == seed
  {
    hide Linked;
  }

  /** The number of nodes below which nothing overlaps: duplicate ids could crowd level 0. */
  predicate Small(nodes: seq<Node>) { |nodes| <= 1291 || (|nodes| <= 1292 && DistinctIds(nodes)) }

  lemma FarApart(g: Graph, seed: Id, depth: map<Id, nat>, b: Id, la: nat, i: nat, j: nat)
    requires Distances(g, seed, depth) && seed in Ids(g.nodes) && la < Level(depth, b) && Small(g.nodes)
    requires i < |Layer(g.nodes, depth, la)| && j < |Layer(g.nodes, depth, Level(depth, b))|
    ensures Place(|Layer(g.nodes, depth, la)|, la, i)
         != Place(|Layer(g.nodes, depth, Level(depth, b))|, Level(depth, b), j)
  {
    hide Place; hide Layer; hide Distances; hide Below;
    var lb := Level(depth, b);
    var m, n := |Layer(g.nodes, depth, la)|, |Layer(g.nodes, depth, lb)|;
    if Place(m, la, i) == Place(n, lb, j) {
      SharedPlace(m, la, i, n, lb, j);
      ManyRows(m, i);
      LevelsFill(g, seed, depth, b, la, lb + 1);
      if la == 0 && DistinctIds(g.nodes) {
        OnlySeedAtZero(g, seed, depth);
        SeedAlone(g.nodes, depth, seed);
      }
    }
  }

  /** In a diagram of at most 1292 nodes with distinct ids no two nodes are drawn in the same place. */
  lemma NoOverlap(g: Graph, seed: Id, depth: map<Id, nat>, positions: map<Id, Position>, a: Id, b: Id)
    requires Distances(g, seed, depth) && seed in Ids(g.nodes) && LaidOut(g, depth, positions)
    requires a in positions && b in positions && a != b
    requires Small(g.nodes) || Level(depth, a) == Level(depth, b)
    ensures positions[a] != positions[b]
  {
    hide Place; hide Layer; hide Distances; hide Level; hide Small;
    var la, lb := Level(depth, a), Level(depth, b);
    var layerA, layerB := Layer(g.nodes, depth, la), Layer(g.nodes, depth, lb);
    var i: nat :| i < |layerA| && layerA[i] == a && positions[a] == Place(|layerA|, la, i);
    var j: nat :| j < |layerB| && layerB[j] == b && positions[b] == Place(|layerB|, lb, j);
    if la == lb {
      LayerPlacesDistinct(|layerA|, la, i, j);
    } else if la < lb {
      FarApart(g, seed, depth, b, la, i, j);
    } else {
      FarApart(g, seed, depth, a, lb, j, i);
    }
  }
}
