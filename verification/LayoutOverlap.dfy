/** The smallest diagram in which two nodes are drawn in one place: the bound of Layout.NoOverlap is sharp. */
module LayoutOverlap {
  import opened Basics
  import opened Layout

  // ----- every layout exists -----

  lemma LastPlace(layer: seq<Id>, level: nat, id: Id)
    requires id in layer
    ensures exists p :: Placed(layer, level, id, p)
  {
    var i := LastIndex(layer, id);
    assert Placed(layer, level, id, Place(|layer|, level, i));
  }

  function LastIndex(layer: seq<Id>, id: Id): (i: nat)
    requires id in layer
    ensures i < |layer| && layer[i] == id && forall j :: i < j < |layer| ==> layer[j] != id
  {
    if layer[|layer| - 1] == id then |layer| - 1 else LastIndex(layer[..|layer| - 1], id)
  }

  ghost function SomePlace(nodes: seq<Node>, depth: map<Id, nat>, id: Id): (p: Position)
    requires id in Ids(nodes)
    ensures Placed(Layer(nodes, depth, Level(depth, id)), Level(depth, id), id, p)
  {
    LayerHas(nodes, depth, Level(depth, id), id);
    LastPlace(Layer(nodes, depth, Level(depth, id)), Level(depth, id), id);
    var p :| Placed(Layer(nodes, depth, Level(depth, id)), Level(depth, id), id, p);
    p
  }

  ghost function AnyLayout(g: Graph, depth: map<Id, nat>): (positions: map<Id, Position>)
    ensures LaidOut(g, depth, positions)
  {
    map id | id in Ids(g.nodes) :: SomePlace(g.nodes, depth, id)
  }

  // ----- a seed, a crowd of 1276 around it, and a chain of 16 behind one of them -----

  const CROWD := 1276
  const SIZE := 1293

  /** Ids of different lengths are distinct. */
  function Name(i: nat): Id { seq(i, n => 'n') }

  function Parent(i: nat): nat
    requires 0 < i
  {
    if i <= CROWD then 0 else if i == CROWD + 1 then 1 else i - 1
  }

  function DepthOf(i: nat): nat { if i == 0 then 0 else if i <= CROWD then 1 else i - CROWD + 1 }

  function Nodes(): seq<Node> { seq(SIZE, i requires 0 <= i < SIZE => Node(Name(i), i == 0)) }

  function Edges(): seq<Edge> { seq(SIZE - 1, i requires 0 <= i < SIZE - 1 => Edge(Name(Parent(i + 1)), Name(i + 1))) }

  const BIG: Graph := Graph(Nodes(), Edges())

  function Depths(): map<Id, nat> { map id | id in Ids(Nodes()) :: DepthOf(|id|) }

  lemma HasName(i: nat)
    ensures i < SIZE ==> Name(i) in Ids(Nodes())
    ensures |Name(i)| == i
  {
    if i < SIZE { assert Nodes()[i] in Nodes(); }
  }

  lemma Named(id: Id)
    requires id in Ids(Nodes())
    ensures |id| < SIZE && id == Name(|id|)
  {
    var n :| n in Nodes() && n.id == id;
    var i :| 0 <= i < SIZE && Nodes()[i] == n;
  }

  lemma ParentLinked(i: nat)
    requires 0 < i < SIZE
    ensures Linked(BIG, Name(Parent(i)), Name(i)) && DepthOf(i) == DepthOf(Parent(i)) + 1 && Parent(i) < i
  {
    HasName(i);
    HasName(Parent(i));
    var e := Edges()[i - 1];
    assert e in Edges() && Joins(e, Name(Parent(i)), Name(i));
  }

  lemma LinkedAreNear(a: Id, b: Id)
    requires Linked(BIG, a, b)
    ensures DepthOf(|b|) <= DepthOf(|a|) + 1
  {
    var e :| e in Edges() && Joins(e, a, b);
    var i :| 0 <= i < SIZE - 1 && Edges()[i] == e;
    HasName(i + 1);
    HasName(Parent(i + 1));
  }

  lemma {:induction false} Reached(i: nat)
    requires i < SIZE
    ensures Walk(BIG, Name(0), Name(i), DepthOf(i))
    decreases i
  {
    hide Linked;
    if i > 0 {
      ParentLinked(i);
      Reached(Parent(i));
    }
  }

  lemma {:induction false} NotSooner(b: Id, n: nat)
    requires Walk(BIG, Name(0), b, n)
    ensures b in Ids(Nodes()) && DepthOf(|b|) <= n
    decreases n
  {
    hide Linked;
    if n == 0 {
      HasName(0);
    } else {
      var m :| Walk(BIG, Name(0), m, n - 1) && Linked(BIG, m, b);
      NotSooner(m, n - 1);
      LinkedAreNear(m, b);
      assert b in Ids(Nodes()) by { assert Linked(BIG, m, b); LinkedIds(m, b); }
    }
  }

  lemma LinkedIds(a: Id, b: Id)
    requires Linked(BIG, a, b)
    ensures b in Ids(Nodes())
  {
  }

  lemma DepthsAreDistances()
    ensures Distances(BIG, Name(0), Depths())
  {
    hide Walk; hide Linked;
    forall id | id in Depths() ensures Shortest(BIG, Name(0), id, Depths()[id]) {
      Named(id);
      Reached(|id|);
      forall k: nat | k < Depths()[id] ensures !Walk(BIG, Name(0), id, k) {
        if Walk(BIG, Name(0), id, k) { NotSooner(id, k); }
      }
    }
    forall id | Connected(BIG, Name(0), id) ensures id in Depths() {
      var n: nat :| Walk(BIG, Name(0), id, n);
      NotSooner(id, n);
    }
  }

  // ----- its layers -----

  lemma LevelOfNode(i: nat)
    requires i < SIZE
    ensures Nodes()[i].id == Name(i) && Level(Depths(), Name(i)) == DepthOf(i)
  {
    HasName(i);
  }

  function Crowd(n: nat): seq<Id> { seq(n, i requires 0 <= i < n => Name(i + 1)) }

  lemma {:induction false} CrowdLayer(k: nat)
    requires k <= SIZE
    ensures Layer(Nodes()[..k], Depths(), 1) == Crowd(if k == 0 then 0 else Min(k - 1, CROWD))
    decreases k
  {
    hide Level; hide Depths; hide Nodes; hide Name;
    if k > 0 {
      CrowdLayer(k - 1);
      assert |Nodes()| == SIZE by { NodeCount(); }
      LayerSnoc(Nodes(), Depths(), 1, k - 1);
      LevelOfNode(k - 1);
      if 2 <= k <= CROWD + 1 { assert Crowd(k - 1) == Crowd(k - 2) + [Name(k - 1)]; }
    } else {
      assert Nodes()[..0] == [];
    }
  }

  lemma NodeCount()
    ensures |Nodes()| == SIZE && DistinctIds(Nodes())
  {
    forall i, j | 0 <= i < j < SIZE ensures Nodes()[i].id != Nodes()[j].id {
      HasName(i);
      HasName(j);
    }
  }

  lemma {:induction false} LastLayer(k: nat)
    requires k <= SIZE
    ensures Layer(Nodes()[..k], Depths(), 17) == if k == SIZE then [Name(SIZE - 1)] else []
    decreases k
  {
    hide Level; hide Depths; hide Nodes; hide Name;
    if k > 0 {
      LastLayer(k - 1);
      assert |Nodes()| == SIZE by { NodeCount(); }
      LayerSnoc(Nodes(), Depths(), 17, k - 1);
      LevelOfNode(k - 1);
    } else {
      assert Nodes()[..0] == [];
    }
  }

  lemma RootOf(n: nat, r: nat)
    requires r > 0 && (r - 1) * (r - 1) < n <= r * r
    ensures CeilSqrt(n) == r
  {
    var c := CeilSqrt(n);
    hide CeilSqrt;
    if c > r { Squares(c - 1, r); }
    if c < r { Squares(r - 1, c); }
  }

  /** The last of 1276 ids of one level stands where the only id of the sixteenth level above it stands. */
  lemma OnePlace(level: nat)
    ensures Place(CROWD, level, CROWD - 1) == Place(1, level + 16, 0)
  {
    RootOf(2552, 51);
    RootOf(2, 2);
    assert PerRow(CROWD) == 51 && PerRow(1) == 1;
    hide PerRow;
    assert RowOf(CROWD, CROWD - 1) == 25 && RowOf(1, 0) == 0;
    hide RowOf;
    assert (CROWD - 1) % 51 == 0;
  }

  lemma PlaceOfLast(layer: seq<Id>, level: nat, p: Position)
    requires layer != [] && Placed(layer, level, layer[|layer| - 1], p)
    ensures p == Place(|layer|, level, |layer| - 1)
  {
    hide Place;
    var n := |layer| - 1;
    var i: nat :| i < |layer| && layer[i] == layer[n] && p == Place(|layer|, level, i)
                  && forall j :: i < j < |layer| ==> layer[j] != layer[n];
    assert i >= n;
  }

  lemma CrowdPosition(positions: map<Id, Position>)
    requires LaidOut(BIG, Depths(), positions)
    ensures Name(CROWD) in positions && positions[Name(CROWD)] == Place(CROWD, 1, CROWD - 1)
  {
    hide Place; hide Layer; hide Level; hide Depths; hide Name; hide Placed;
    HasName(CROWD);
    LevelOfNode(CROWD);
    CrowdLayer(SIZE);
    assert Nodes()[..SIZE] == Nodes();
    PlaceOfLast(Layer(Nodes(), Depths(), 1), 1, positions[Name(CROWD)]);
  }

  lemma LastPosition(positions: map<Id, Position>)
    requires LaidOut(BIG, Depths(), positions)
    ensures Name(SIZE - 1) in positions && positions[Name(SIZE - 1)] == Place(1, 17, 0)
  {
    hide Place; hide Layer; hide Level; hide Depths; hide Name; hide Placed;
    HasName(SIZE - 1);
    LevelOfNode(SIZE - 1);
    LastLayer(SIZE);
    assert Nodes()[..SIZE] == Nodes();
    PlaceOfLast(Layer(Nodes(), Depths(), 17), 17, positions[Name(SIZE - 1)]);
  }

  /** A diagram of 1293 nodes with distinct ids, laid out as the program lays it out, in which two nodes overlap. */
  lemma Overlap() returns (positions: map<Id, Position>, a: Id, b: Id)
    ensures |BIG.nodes| == 1293 && DistinctIds(BIG.nodes) && Diagram(BIG, Seed(BIG.nodes, None), positions)
    ensures a in positions && b in positions && a != b && positions[a] == positions[b]
  {
    hide LaidOut; hide Depths; hide Distances; hide Name; hide Place;
    NodeCount();
    assert Seed(BIG.nodes, None) == Name(0) by { SeedIsFirst(); }
    DepthsAreDistances();
    positions := AnyLayout(BIG, Depths());
    a, b := Name(CROWD), Name(SIZE - 1);
    assert a != b by { HasName(CROWD); HasName(SIZE - 1); }
    CrowdPosition(positions);
    LastPosition(positions);
    OnePlace(1);
  }

  lemma SeedIsFirst()
    ensures Seed(Nodes(), None) == Name(0)
  {
    assert Nodes()[0].seed && Nodes()[0] in Nodes();
  }
}
