/** Where the nodes of the topology diagram stand (computeLayout of frontend/src/pages/topology.ts). */
module LayoutMeaning {
  import opened Layout

  /** A row of `width` nodes is at least half as wide as it takes for a square of `length` nodes, and not below four. */
  predicate Wide(length: nat, width: nat) { width >= 4 && width * width >= 2 * length }

  /** A row has the least such width, unless the whole layer fits into it. */
  lemma PerRowExactly(length: nat, width: nat)
    requires 0 < width <= length
    ensures PerRow(length) == width
       <==> (width < length ==> Wide(length, width)) && forall w: nat :: w < width ==> !Wide(length, w)
  {
    var root := CeilSqrt(length * 2);
    var least := if root < 4 then 4 else root;
    assert Wide(length, least) by { if root < 4 { SquareGrows(root, 4); } }
    forall w: nat | w < least ensures !Wide(length, w) { if w >= 4 { SquareGrows(w, root - 1); } }
    hide CeilSqrt;
    if width < least && width < length { assert !Wide(length, width); }
  }

  lemma SquareGrows(a: nat, b: nat)
    requires a <= b
    ensures a * a <= b * b
  {
    Squares(b, a);
  }

  /** How many nodes stand in a row. */
  function InRow(length: nat, row: nat): (columns: nat)
    requires row * PerRow(length) < length
  {
    if (row + 1) * PerRow(length) <= length then PerRow(length) else length - row * PerRow(length)
  }

  function IndexAt(length: nat, row: nat, column: nat): (index: nat) { row * PerRow(length) + column }

  lemma RowColumn(length: nat, row: nat, column: nat)
    requires IndexAt(length, row, column) < length && column < PerRow(length)
    ensures row * PerRow(length) < length && column < InRow(length, row)
    ensures RowOf(length, IndexAt(length, row, column)) == row
    ensures IndexAt(length, row, column) % PerRow(length) == column
    ensures PlaceX(length, IndexAt(length, row, column)) == 200 * column - 100 * (InRow(length, row) - 1)
  {
    var p := PerRow(length);
    hide PerRow;
    assert (row + 1) * p == row * p + p;
    Unique(row * p + column, p, row, column);
  }

  lemma Unique(index: nat, p: nat, row: nat, column: nat)
    requires p > 0 && index == row * p + column && column < p
    ensures index / p == row && index % p == column
  {
    var q, r := index / p, index % p;
    assert index == q * p + r by { DivMod(index, p); }
    hide *;
    assert (row - q) * p == r - column;
    if row > q { Between(row - q, p, r - column); }
    if row < q { Between(q - row, p, column - r); }
  }

  lemma Between(k: int, p: nat, d: int)
    requires k >= 1 && k * p == d
    ensures d >= p
  {
    assert (k - 1) * p >= 0;
  }

  /**
   * Layers are 150 apart and rows 96; within a row the nodes stand 200 apart, from left to right, and as far to the
   * left of the middle as to the right.
   */
  lemma PlacesInRow(length: nat, level: nat, row: nat, column: nat)
    requires IndexAt(length, row, column) < length && column < PerRow(length)
    ensures row * PerRow(length) < length && column < InRow(length, row)
    ensures var place := Place(length, level, IndexAt(length, row, column));
            var mirror := IndexAt(length, row, InRow(length, row) - 1 - column);
            && place.y == 150 * level + 96 * row
            && mirror < length && Place(length, level, mirror) == Position(-place.x, place.y)
            && (column + 1 < InRow(length, row) ==>
                  IndexAt(length, row, column + 1) < length
                  && Place(length, level, IndexAt(length, row, column + 1)) == Position(place.x + 200, place.y))
  {
    hide PerRow; hide PlaceX; hide RowOf;
    RowColumn(length, row, column);
    Fits(length, row);
    RowColumn(length, row, InRow(length, row) - 1 - column);
    if column + 1 < InRow(length, row) { RowColumn(length, row, column + 1); }
  }

  lemma Fits(length: nat, row: nat)
    requires row * PerRow(length) < length
    ensures row * PerRow(length) + InRow(length, row) <= length && InRow(length, row) <= PerRow(length)
  {
    hide PerRow;
    assert (row + 1) * PerRow(length) == row * PerRow(length) + PerRow(length);
  }

  /** The level of a node: its number of hops from the seed, or 1 if there is no path. */
  ghost predicate OnLevel(g: Graph, seed: Id, id: Id, level: nat) {
    Shortest(g, seed, id, level) || (!Connected(g, seed, id) && level == 1)
  }

  /** The node is the index-th of `length` on its level, counted in rows. */
  ghost predicate Stands(g: Graph, seed: Id, id: Id, p: Position, level: nat, layer: seq<Id>, index: nat) {
    && OnLevel(g, seed, id, level)
    && (forall other :: other in layer <==> other in Ids(g.nodes) && OnLevel(g, seed, other, level))
    && index < |layer| && layer[index] == id && p == Place(|layer|, level, index)
  }

  lemma LevelIs(g: Graph, seed: Id, depth: map<Id, nat>, id: Id, level: nat)
    requires Distances(g, seed, depth)
    ensures Level(depth, id) == level <==> OnLevel(g, seed, id, level)
  {
    hide Linked; hide Walk;
    if Shortest(g, seed, id, level) {
      assert Connected(g, seed, id);
      assert Shortest(g, seed, id, depth[id]) && Walk(g, seed, id, level);
    }
  }

  /** Every node, and nothing else, stands in a diagram at a place of the layer of all nodes on its level. */
  lemma DiagramMeans(g: Graph, seed: Id, positions: map<Id, Position>, id: Id)
    requires Diagram(g, seed, positions)
    ensures id in positions <==> id in Ids(g.nodes)
    ensures id in positions ==>
              exists level: nat, layer, index: nat :: Stands(g, seed, id, positions[id], level, layer, index)
  {
    hide Distances; hide Place; hide Layer; hide Level; hide OnLevel;
    var depth :| Distances(g, seed, depth) && LaidOut(g, depth, positions);
    if id in positions {
      var level := Level(depth, id);
      var layer := Layer(g.nodes, depth, level);
      LevelIs(g, seed, depth, id, level);
      forall other ensures other in layer <==> other in Ids(g.nodes) && OnLevel(g, seed, other, level) {
        LayerHas(g.nodes, depth, level, other);
        LevelIs(g, seed, depth, other, level);
      }
      var index: nat :| index < |layer| && layer[index] == id && positions[id] == Place(|layer|, level, index);
      assert Stands(g, seed, id, positions[id], level, layer, index);
    }
  }
}
