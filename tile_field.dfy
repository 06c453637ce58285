/** The procedural grass field of game.py: a square grid of cells, each
    holding a tile or not according to a coin flip, placed at a fixed pitch
    and grouped row by row before the rows are merged into one node. */
module TileField {

  /** One placed tile, by the cell it was generated for: x is the outer
      loop's index, y the inner one's. */
  datatype Tile = Tile(x: nat, y: nat)

  /** Cells per side: the generator walks buffer size / 16 cells each way. */
  function GridSide(bufSize: nat): (n: nat)
    ensures n * 16 <= bufSize < (n + 1) * 16
  {
    bufSize / 16
  }

  /** A tile's offset from the field's corner on one axis: neighbouring cells
      are 32 offset units apart (the scene position is offset / buffer size - 1). */
  function Offset(c: nat): (o: nat)
    ensures o % 32 == 0 && o / 32 == c
  {
    c * 32
  }

  /** t sits on a cell of the n-by-n grid that the coin included. */
  predicate Placed(t: Tile, n: nat, coin: (nat, nat) -> bool)
  {
    t.x < n && t.y < n && coin(t.x, t.y)
  }

  /** Row x's group after its first m cells have been visited. */
  function RowTiles(x: nat, m: nat, coin: (nat, nat) -> bool): (r: seq<Tile>)
    ensures |r| <= m
  {
    if m == 0 then []
    else RowTiles(x, m - 1, coin) + (if coin(x, m - 1) then [Tile(x, m - 1)] else [])
  }

  /** The first k row groups of an n-by-n grid. */
  function Rows(k: nat, n: nat, coin: (nat, nat) -> bool): (r: seq<seq<Tile>>)
    ensures |r| == k
    ensures forall x :: 0 <= x < k ==> r[x] == RowTiles(x, n, coin)
  {
    if k == 0 then [] else Rows(k - 1, n, coin) + [RowTiles(k - 1, n, coin)]
  }

  /** Merging row groups into one node, keeping the rows in order. */
  function Concat(rows: seq<seq<Tile>>): seq<Tile>
  {
    if rows == [] then [] else Concat(rows[..|rows| - 1]) + rows[|rows| - 1]
  }

  /** The first k row groups of an n-by-n grid, merged. */
  function Merged(k: nat, n: nat, coin: (nat, nat) -> bool): seq<Tile>
  {
    Concat(Rows(k, n, coin))
  }

  /** The merged field of an n-by-n grid. */
  function Field(n: nat, coin: (nat, nat) -> bool): seq<Tile>
  {
    Merged(n, n, coin)
  }

  lemma ConcatStep(rows: seq<seq<Tile>>, row: seq<Tile>)
    ensures Concat(rows + [row]) == Concat(rows) + row
  {
    assert (rows + [row])[..|rows|] == rows;
  }

  /** Merging one more row group appends that row's tiles after the rows
      merged so far. */
  lemma MergedStep(k: nat, n: nat, coin: (nat, nat) -> bool)
    requires k > 0
    ensures Merged(k, n, coin) == Merged(k - 1, n, coin) + RowTiles(k - 1, n, coin)
  {
    assert Rows(k, n, coin) == Rows(k - 1, n, coin) + [RowTiles(k - 1, n, coin)];
    ConcatStep(Rows(k - 1, n, coin), RowTiles(k - 1, n, coin));
  }

  /** Membership in a concatenation, with the membership of each part given. */
  lemma InAppend(a: seq<Tile>, b: seq<Tile>, t: Tile, inA: bool, inB: bool)
    requires t in a <==> inA
    requires t in b <==> inB
    ensures t in a + b <==> inA || inB
  {
  }

  /** A tile is in row x's group exactly when its cell lies in that row,
      among the first m cells, and was included. */
  lemma {:induction false} RowMember(x: nat, m: nat, coin: (nat, nat) -> bool, t: Tile)
    ensures t in RowTiles(x, m, coin) <==> t.x == x && t.y < m && coin(x, t.y)
  {
    if m > 0 {
      RowMember(x, m - 1, coin, t);
    }
  }

  /** A tile is among the first k merged rows exactly when its cell is in one
      of those rows and was included. */
  lemma {:induction false} MergedMember(k: nat, n: nat, coin: (nat, nat) -> bool, t: Tile)
    ensures t in Merged(k, n, coin) <==> t.x < k && t.y < n && coin(t.x, t.y)
  {
    if k > 0 {
      MergedStep(k, n, coin);
      MergedMember(k - 1, n, coin, t);
      RowMember(k - 1, n, coin, t);
      InAppend(Merged(k - 1, n, coin), RowTiles(k - 1, n, coin), t,
               t.x < k - 1 && t.y < n && coin(t.x, t.y), t.x == k - 1 && t.y < n && coin(k - 1, t.y));
    }
  }

  /** The merged field holds a tile exactly for each included cell: the
      row-batched result is the set of placed tiles. */
  lemma FieldMembers(n: nat, coin: (nat, nat) -> bool)
    ensures forall t :: t in Field(n, coin) <==> Placed(t, n, coin)
  {
    forall t
      ensures t in Field(n, coin) <==> Placed(t, n, coin)
    {
      MergedMember(n, n, coin, t);
    }
  }

  /** Number of cells in k rows of n cells, counted row by row. */
  function Area(k: nat, n: nat): nat
  {
    if k == 0 then 0 else Area(k - 1, n) + n
  }

  lemma {:induction false} AreaIsProduct(k: nat, n: nat)
    ensures Area(k, n) == k * n
  {
    if k > 0 {
      AreaIsProduct(k - 1, n);
      assert (k - 1) * n + n == k * n;
    }
  }

  /** At most one tile per visited cell. */
  lemma {:induction false} MergedSize(k: nat, n: nat, coin: (nat, nat) -> bool)
    ensures |Merged(k, n, coin)| <= Area(k, n)
  {
    if k > 0 {
      MergedStep(k, n, coin);
      MergedSize(k - 1, n, coin);
    }
  }

  /** With every coin flip coming up "include", each row is full. */
  lemma {:induction false} FullRow(x: nat, m: nat, coin: (nat, nat) -> bool)
    requires forall i: nat, j: nat :: coin(i, j)
    ensures |RowTiles(x, m, coin)| == m
  {
    if m > 0 {
      FullRow(x, m - 1, coin);
    }
  }

  /** With every coin flip coming up "include", every cell gets a tile. */
  lemma {:induction false} FullMergedSize(k: nat, n: nat, coin: (nat, nat) -> bool)
    requires forall i: nat, j: nat :: coin(i, j)
    ensures |Merged(k, n, coin)| == Area(k, n)
  {
    if k > 0 {
      MergedStep(k, n, coin);
      FullMergedSize(k - 1, n, coin);
      FullRow(k - 1, n, coin);
    }
  }

  /** The field of an n-by-n grid holds at most n * n tiles, and exactly
      n * n when every coin flip comes up "include". */
  lemma FieldSize(n: nat, coin: (nat, nat) -> bool)
    ensures |Field(n, coin)| <= n * n
    ensures (forall i: nat, j: nat :: coin(i, j)) ==> |Field(n, coin)| == n * n
  {
    MergedSize(n, n, coin);
    AreaIsProduct(n, n);
    if forall i: nat, j: nat :: coin(i, j) {
      FullMergedSize(n, n, coin);
    }
  }

  /** Generation order: by outer index, then by inner index. */
  predicate Before(a: Tile, b: Tile)
  {
    a.x < b.x || (a.x == b.x && a.y < b.y)
  }

  predicate Ordered(s: seq<Tile>)
  {
    forall i, j :: 0 <= i < j < |s| ==> Before(s[i], s[j])
  }

  predicate NoDuplicates(s: seq<Tile>)
  {
    forall i, j :: 0 <= i < j < |s| ==> s[i] != s[j]
  }

  lemma OrderedAppend(a: seq<Tile>, b: seq<Tile>)
    requires Ordered(a) && Ordered(b)
    requires forall u, v :: u in a && v in b ==> Before(u, v)
    ensures Ordered(a + b)
  {
    forall i, j | 0 <= i < j < |a + b|
      ensures Before((a + b)[i], (a + b)[j])
    {
      if j < |a| {
      } else if i >= |a| {
        assert (a + b)[i] == b[i - |a|] && (a + b)[j] == b[j - |a|];
      } else {
        assert (a + b)[i] == a[i] && (a + b)[j] == b[j - |a|];
      }
    }
  }

  lemma {:induction false} RowOrdered(x: nat, m: nat, coin: (nat, nat) -> bool)
    ensures Ordered(RowTiles(x, m, coin))
  {
    if m > 0 {
      RowOrdered(x, m - 1, coin);
      var prefix := RowTiles(x, m - 1, coin);
      forall u | u in prefix
        ensures u.x == x && u.y < m - 1
      {
        RowMember(x, m - 1, coin, u);
      }
      OrderedAppend(prefix, if coin(x, m - 1) then [Tile(x, m - 1)] else []);
    }
  }

  /** Appending row x's group to rows that all lie before row x keeps the
      generation order. */
  lemma OrderedAppendRow(before: seq<Tile>, row: seq<Tile>, x: nat)
    requires Ordered(before) && Ordered(row)
    requires forall u :: u in before ==> u.x < x
    requires forall v :: v in row ==> v.x == x
    ensures Ordered(before + row)
  {
    OrderedAppend(before, row);
  }

  lemma {:induction false} MergedOrdered(k: nat, n: nat, coin: (nat, nat) -> bool)
    ensures Ordered(Merged(k, n, coin))
  {
    if k > 0 {
      MergedStep(k, n, coin);
      MergedOrdered(k - 1, n, coin);
      RowOrdered(k - 1, n, coin);
      var before, row := Merged(k - 1, n, coin), RowTiles(k - 1, n, coin);
      forall u | u in before
        ensures u.x < k - 1
      {
        MergedMember(k - 1, n, coin, u);
      }
      forall v | v in row
        ensures v.x == k - 1
      {
        RowMember(k - 1, n, coin, v);
      }
      OrderedAppendRow(before, row, k - 1);
    }
  }

  /** The field lists its tiles in generation order, so no cell receives two
      tiles and no two tiles share a position. */
  lemma FieldNoDuplicates(n: nat, coin: (nat, nat) -> bool)
    ensures Ordered(Field(n, coin))
    ensures NoDuplicates(Field(n, coin))
    ensures forall i, j :: 0 <= i < j < |Field(n, coin)| ==>
              (Offset(Field(n, coin)[i].x), Offset(Field(n, coin)[i].y)) !=
              (Offset(Field(n, coin)[j].x), Offset(Field(n, coin)[j].y))
  {
    MergedOrdered(n, n, coin);
  }

  /** Every tile of the field generated for a buffer of side bufSize is
      offset by less than 2 * bufSize on both axes. */
  lemma FieldBounds(bufSize: nat, coin: (nat, nat) -> bool)
    ensures forall t :: t in Field(GridSide(bufSize), coin) ==>
              Offset(t.x) < 2 * bufSize && Offset(t.y) < 2 * bufSize
  {
    var n := GridSide(bufSize);
    FieldMembers(n, coin);
  }

  /** Reference definition without batching: the first c cells of the grid
      visited one at a time in the generator's order, each included tile
      appended directly to one flat list. */
  function Flat(c: nat, n: nat, coin: (nat, nat) -> bool): seq<Tile>
    requires n > 0
  {
    if c == 0 then []
    else Flat(c - 1, n, coin) + (if coin((c - 1) / n, (c - 1) % n) then [Tile((c - 1) / n, (c - 1) % n)] else [])
  }

  /** The cell visited m steps into row k has index Area(k, n) + m. */
  lemma CellIndex(k: nat, n: nat, m: nat)
    requires m < n
    ensures (Area(k, n) + m) / n == k && (Area(k, n) + m) % n == m
  {
    AreaIsProduct(k, n);
    DivModUnique(k * n + m, n, k, m);
  }

  /** Quotient and remainder are the only pair that rebuilds the dividend. */
  lemma DivModUnique(c: nat, n: nat, q: nat, r: nat)
    requires r < n && c == q * n + r
    ensures c / n == q && c % n == r
  {
    var q', r' := c / n, c % n;
    assert q' * n + r' == q * n + r;
    if q' > q {
      MulAtLeast(q' - q, n);
    } else if q' < q {
      MulAtLeast(q - q', n);
    }
  }

  lemma {:induction false} MulAtLeast(a: nat, n: nat)
    requires a >= 1
    ensures a * n >= n
  {
    if a > 1 {
      MulAtLeast(a - 1, n);
      assert a * n == (a - 1) * n + n;
    }
  }

  lemma {:induction false} FlatRow(k: nat, m: nat, n: nat, coin: (nat, nat) -> bool)
    requires m <= n && n > 0
    ensures Flat(Area(k, n) + m, n, coin) == Flat(Area(k, n), n, coin) + RowTiles(k, m, coin)
  {
    if m > 0 {
      FlatRow(k, m - 1, n, coin);
      CellIndex(k, n, m - 1);
      var c := Area(k, n) + m;
      assert Flat(c, n, coin) == Flat(c - 1, n, coin) + (if coin(k, m - 1) then [Tile(k, m - 1)] else []);
    }
  }

  lemma {:induction false} MergedEqualsFlat(k: nat, n: nat, coin: (nat, nat) -> bool)
    requires n > 0
    ensures Merged(k, n, coin) == Flat(Area(k, n), n, coin)
  {
    if k > 0 {
      var a := Area(k - 1, n);
      calc {
        Merged(k, n, coin);
      ==  { MergedStep(k, n, coin); }
        Merged(k - 1, n, coin) + RowTiles(k - 1, n, coin);
      ==  { MergedEqualsFlat(k - 1, n, coin); }
        Flat(a, n, coin) + RowTiles(k - 1, n, coin);
      ==  { FlatRow(k - 1, n, n, coin); }
        Flat(a + n, n, coin);
      ==  { assert Area(k, n) == a + n; }
        Flat(Area(k, n), n, coin);
      }
    }
  }

  /** Batching is unobservable: merging the row groups gives exactly the list
      a single pass over all n * n cells would give, tile for tile and in
      order. */
  lemma BatchedEqualsFlat(n: nat, coin: (nat, nat) -> bool)
    requires n > 0
    ensures Concat(Rows(n, n, coin)) == Flat(n * n, n, coin)
  {
    MergedEqualsFlat(n, n, coin);
    AreaIsProduct(n, n);
  }

  /** The generator loop: for each row x, visit every cell y of the row,
      attach the included cells' tiles to that row's group, then append the
      group to the list of rows; finally merge all rows into one field. */
  method GenerateField(bufSize: nat, coin: (nat, nat) -> bool) returns (rows: seq<seq<Tile>>, field: seq<Tile>)
    ensures rows == Rows(GridSide(bufSize), GridSide(bufSize), coin)
    ensures field == Concat(rows) && field == Field(GridSide(bufSize), coin)
    ensures forall t :: t in field <==> Placed(t, GridSide(bufSize), coin)
    ensures Ordered(field) && NoDuplicates(field)
    ensures |field| <= GridSide(bufSize) * GridSide(bufSize)
    ensures forall t :: t in field ==> Offset(t.x) < 2 * bufSize && Offset(t.y) < 2 * bufSize
  {
    var n := bufSize / 16;
    rows := [];
    var x := 0;
    while x < n
      invariant 0 <= x <= n
      invariant rows == Rows(x, n, coin)
    {
      var row: seq<Tile> := [];
      var y := 0;
      while y < n
        invariant 0 <= y <= n
        invariant row == RowTiles(x, y, coin)
      {
        if coin(x, y) {
          row := row + [Tile(x, y)];
        }
        y := y + 1;
      }
      rows := rows + [row];
      x := x + 1;
    }
    field := Concat(rows);
    FieldMembers(n, coin);
    FieldNoDuplicates(n, coin);
    FieldSize(n, coin);
    FieldBounds(bufSize, coin);
  }

  /** Scene position of a tile: the offset scaled by 1 / bufSize and shifted
      by -1, so the field starts at the buffer's lower-left corner. */
  function ScenePosition(t: Tile, bufSize: nat): (p: (real, real))
    requires bufSize > 0
    ensures (p.0 + 1.0) * bufSize as real == Offset(t.x) as real
    ensures (p.1 + 1.0) * bufSize as real == Offset(t.y) as real
  {
    (Offset(t.x) as real / bufSize as real - 1.0, Offset(t.y) as real / bufSize as real - 1.0)
  }

  /** Side of a tile card in scene units (its card is scaled by 32 / bufSize). */
  function TileScale(bufSize: nat): (s: real)
    requires bufSize > 0
    ensures s * bufSize as real == 32.0
  {
    32.0 / bufSize as real
  }

  lemma RatioInUnitRange(q: real, a: real, b: real)
    requires b > 0.0 && 0.0 <= a < 2.0 * b && (q + 1.0) * b == a
    ensures -1.0 <= q < 1.0
  {
  }

  lemma RatioUnique(q: real, r: real, b: real)
    requires b > 0.0 && q * b == r * b
    ensures q == r
  {
    assert (q - r) * b == 0.0;
  }

  /** Every tile of a generated field lies in the camera's [-1, 1) square. */
  lemma SceneBounds(bufSize: nat, coin: (nat, nat) -> bool)
    requires bufSize > 0
    ensures forall t :: t in Field(GridSide(bufSize), coin) ==>
              -1.0 <= ScenePosition(t, bufSize).0 < 1.0 && -1.0 <= ScenePosition(t, bufSize).1 < 1.0
  {
    FieldBounds(bufSize, coin);
    forall t | t in Field(GridSide(bufSize), coin)
      ensures -1.0 <= ScenePosition(t, bufSize).0 < 1.0 && -1.0 <= ScenePosition(t, bufSize).1 < 1.0
    {
      TileInUnitSquare(t, bufSize);
    }
  }

  lemma TileInUnitSquare(t: Tile, bufSize: nat)
    requires 0 < bufSize && Offset(t.x) < 2 * bufSize && Offset(t.y) < 2 * bufSize
    ensures -1.0 <= ScenePosition(t, bufSize).0 < 1.0 && -1.0 <= ScenePosition(t, bufSize).1 < 1.0
  {
    var p, b := ScenePosition(t, bufSize), bufSize as real;
    assert Offset(t.x) as real < 2.0 * b && Offset(t.y) as real < 2.0 * b;
    RatioInUnitRange(p.0, Offset(t.x) as real, b);
    RatioInUnitRange(p.1, Offset(t.y) as real, b);
  }

  /** Neighbouring cells are exactly one tile card apart, so the tiles of a
      full row or column neither overlap nor leave gaps. */
  lemma TilesAbut(bufSize: nat, x: nat, y: nat)
    requires bufSize > 0
    ensures ScenePosition(Tile(x + 1, y), bufSize).0 - ScenePosition(Tile(x, y), bufSize).0 == TileScale(bufSize)
    ensures ScenePosition(Tile(x, y + 1), bufSize).1 - ScenePosition(Tile(x, y), bufSize).1 == TileScale(bufSize)
  {
    var b := bufSize as real;
    var p0, p1, p2 := ScenePosition(Tile(x, y), bufSize), ScenePosition(Tile(x + 1, y), bufSize), ScenePosition(Tile(x, y + 1), bufSize);
    var s := TileScale(bufSize);
    assert (p1.0 - p0.0) * b == (p1.0 + 1.0) * b - (p0.0 + 1.0) * b;
    RatioUnique(p1.0 - p0.0, s, b);
    assert (p2.1 - p0.1) * b == (p2.1 + 1.0) * b - (p0.1 + 1.0) * b;
    RatioUnique(p2.1 - p0.1, s, b);
  }

  lemma SmallGridOffset(c: nat)
    ensures c < 4 <==> Offset(c) in {0, 32, 64, 96}
  {
  }

  /** With every coin "include" the field of an n-by-n grid is the whole
      grid. */
  lemma FullField(n: nat, coin: (nat, nat) -> bool)
    requires forall i: nat, j: nat :: coin(i, j)
    ensures |Field(n, coin)| == n * n
    ensures forall t :: t in Field(n, coin) <==> t.x < n && t.y < n
  {
    FieldSize(n, coin);
    FieldMembers(n, coin);
  }

  /** A 4-by-4 grid (buffer side 64) with every coin "include" holds exactly
      16 tiles, at offsets {0, 32, 64, 96} on each axis. */
  lemma SmallFullGrid(coin: (nat, nat) -> bool)
    requires forall i: nat, j: nat :: coin(i, j)
    ensures GridSide(64) == 4
    ensures |Field(GridSide(64), coin)| == 16
    ensures forall t :: t in Field(GridSide(64), coin) <==>
              Offset(t.x) in {0, 32, 64, 96} && Offset(t.y) in {0, 32, 64, 96}
  {
    FullField(4, coin);
    forall t
      ensures t in Field(4, coin) <==> Offset(t.x) in {0, 32, 64, 96} && Offset(t.y) in {0, 32, 64, 96}
    {
      SmallGridOffset(t.x);
      SmallGridOffset(t.y);
    }
  }
}
