/** Clue tokens, their expansion into pieces, and floating overlays: clue
    grids smaller than the board that must match it at some offset. */
module Clues {
  import opened Catalog

  /** A clue grid, row by row; `None` marks a cell that says nothing. */
  type Overlay = seq<seq<Option<string>>>

  /** A clue token: a piece code, `?` and a shape, or a colour and `?`. */
  predicate IsToken(t: string) {
    || IsPiece(t)
    || (|t| == 2 && t[0] == '?' && IsShape(t[1]))
    || (|t| == 2 && IsColor(t[0]) && t[1] == '?')
  }

  /** Piece `p` agrees with token `t` at every position where `t` is not `?`. */
  predicate Fits(t: string, p: string)
    requires |t| == 2 && |p| == 2
  {
    (t[0] == '?' || t[0] == p[0]) && (t[1] == '?' || t[1] == p[1])
  }

  /** The pieces a clue token allows, in colour or shape order. */
  function GetConstraints(t: string): (r: seq<string>)
    requires IsToken(t)
    ensures |r| == (if '?' in t then 3 else 1)
  {
    if '?' !in t then [t]
    else if t[0] == '?' then seq(3, i requires 0 <= i < 3 => [Colors[i], t[1]])
    else seq(3, i requires 0 <= i < 3 => [t[0], Shapes[i]])
  }

  /** The expansion of a token is exactly the set of pieces that fit it, each
      listed once: a concrete code gives itself, `?s` the three colours of
      shape s, `c?` the three shapes of colour c. */
  lemma GetConstraintsExact(t: string)
    requires IsToken(t)
    ensures NoDup(GetConstraints(t))
    ensures forall p :: p in GetConstraints(t) <==> IsPiece(p) && Fits(t, p)
  {
    var r := GetConstraints(t);
    forall p | IsPiece(p) && Fits(t, p) ensures p in r {
      if '?' !in t {
        assert p == t;
      } else if t[0] == '?' {
        var c :| 0 <= c < 3 && Colors[c] == p[0];
        assert r[c] == p;
      } else {
        var s :| 0 <= s < 3 && Shapes[s] == p[1];
        assert r[s] == p;
      }
    }
  }

  /** Every cell the source inspects exists: at least one row, no row narrower
      than the first, and a token in every non-`None` cell within that width. */
  predicate WellFormed(o: Overlay) {
    && |o| >= 1
    && (forall x :: 0 <= x < |o| ==> |o[x]| >= |o[0]|)
    && (forall x, y :: 0 <= x < |o| && 0 <= y < |o[0]| && o[x][y].Some? ==> IsToken(o[x][y].value))
  }

  /** One non-`None` cell of a floating overlay and the pieces it allows. */
  datatype Clue = Clue(x: int, y: int, allowed: seq<string>)

  /** A compiled floating overlay: its clue cells and the offsets to try. */
  datatype Floating = Floating(clues: seq<Clue>, offsets: seq<Loc>)

  /** `range(n)` as a count: empty when n is not positive. */
  function RangeLen(n: int): nat { if n < 0 then 0 else n }

  /** The offsets (x, y) for x in range(rows), y in range(cols), from row x on. */
  function OffsetsFrom(x: nat, rows: int, cols: int): seq<Loc>
    decreases RangeLen(rows) - x
  {
    if x >= RangeLen(rows) then []
    else seq(RangeLen(cols), j requires 0 <= j < RangeLen(cols) => (x as int, j)) + OffsetsFrom(x + 1, rows, cols)
  }

  /** Every translation of an h-by-w overlay, row-major. */
  function Offsets(h: int, w: int): seq<Loc> {
    OffsetsFrom(0, 4 - h, 4 - w)
  }

  lemma {:induction false} OffsetsFromRange(x: nat, rows: int, cols: int)
    ensures forall off: Loc :: off in OffsetsFrom(x, rows, cols) <==> x <= off.0 < rows && 0 <= off.1 < cols
    decreases RangeLen(rows) - x
  {
    if x < RangeLen(rows) {
      OffsetsFromRange(x + 1, rows, cols);
      var row := seq(RangeLen(cols), j requires 0 <= j < RangeLen(cols) => (x as int, j));
      assert OffsetsFrom(x, rows, cols) == row + OffsetsFrom(x + 1, rows, cols);
      forall off: Loc | x == off.0 && 0 <= off.1 < cols ensures off in row {
        assert row[off.1] == off;
      }
    }
  }

  lemma {:induction false} NoColumnsNoOffsets(x: nat, rows: int, cols: int)
    requires cols <= 0
    ensures OffsetsFrom(x, rows, cols) == []
    decreases RangeLen(rows) - x
  {
    if x < RangeLen(rows) {
      NoColumnsNoOffsets(x + 1, rows, cols);
    }
  }

  /** The offsets keep an h-by-w overlay on the board, all such offsets are
      listed, and an overlay taller or wider than the board gets none. */
  lemma OffsetsInRange(h: int, w: int)
    ensures forall off: Loc :: off in Offsets(h, w) <==> 0 <= off.0 <= 3 - h && 0 <= off.1 <= 3 - w
    ensures h > 3 || w > 3 ==> Offsets(h, w) == []
  {
    OffsetsFromRange(0, 4 - h, 4 - w);
    if w > 3 {
      NoColumnsNoOffsets(0, 4 - h, 4 - w);
    }
  }

  /** The clue for cell (x, y), or nothing when the cell is `None`. */
  function CellClue(o: Overlay, x: nat, y: nat): seq<Clue>
    requires WellFormed(o) && x < |o| && y < |o[0]|
  {
    match o[x][y]
    case None => []
    case Some(t) => [Clue(x, y, GetConstraints(t))]
  }

  /** The clues of row x at columns before y. */
  function RowClues(o: Overlay, x: nat, y: nat): seq<Clue>
    requires WellFormed(o) && x < |o| && y <= |o[0]|
  {
    if y == 0 then [] else RowClues(o, x, y - 1) + CellClue(o, x, y - 1)
  }

  /** The clues of the rows before x. */
  function ClueRows(o: Overlay, x: nat): seq<Clue>
    requires WellFormed(o) && x <= |o|
  {
    if x == 0 then [] else ClueRows(o, x - 1) + RowClues(o, x - 1, |o[0]|)
  }

  /** The floating constraint the source builds for overlay `o`. */
  function FloatingOf(o: Overlay): Floating
    requires WellFormed(o)
  {
    Floating(ClueRows(o, |o|), Offsets(|o|, |o[0]|))
  }

  /** The clue `c` stands for a non-`None` cell of `o` and its expansion. */
  predicate IsCellClue(o: Overlay, c: Clue)
    requires WellFormed(o)
  {
    0 <= c.x < |o| && 0 <= c.y < |o[0]| && o[c.x][c.y].Some? && c.allowed == GetConstraints(o[c.x][c.y].value)
  }

  lemma {:induction false} RowCluesExact(o: Overlay, x: nat, y: nat)
    requires WellFormed(o) && x < |o| && y <= |o[0]|
    ensures forall c :: c in RowClues(o, x, y) <==> IsCellClue(o, c) && c.x == x && c.y < y
  {
    if y > 0 {
      RowCluesExact(o, x, y - 1);
    }
  }

  lemma {:induction false} ClueRowsExact(o: Overlay, x: nat)
    requires WellFormed(o) && x <= |o|
    ensures forall c :: c in ClueRows(o, x) <==> IsCellClue(o, c) && c.x < x
  {
    if x > 0 {
      ClueRowsExact(o, x - 1);
      RowCluesExact(o, x - 1, |o[0]|);
    }
  }

  /** The clues of `FloatingOf(o)` are exactly the non-`None` cells of `o`,
      each with its expansion; `None` cells contribute nothing. */
  lemma FloatingCluesExact(o: Overlay)
    requires WellFormed(o)
    ensures forall c :: c in FloatingOf(o).clues <==> IsCellClue(o, c)
  {
    ClueRowsExact(o, |o|);
  }

  /** Every clue cell of `f`, shifted by every offset of `f`, is on the board. */
  predicate InBounds(f: Floating) {
    forall j, k :: 0 <= j < |f.clues| && 0 <= k < |f.offsets| ==>
      OnBoard(f.clues[j].x + f.offsets[k].0, f.clues[j].y + f.offsets[k].1)
  }

  lemma FloatingOfInBounds(o: Overlay)
    requires WellFormed(o)
    ensures InBounds(FloatingOf(o))
  {
    var f := FloatingOf(o);
    FloatingCluesExact(o);
    OffsetsInRange(|o|, |o[0]|);
    forall j, k | 0 <= j < |f.clues| && 0 <= k < |f.offsets|
      ensures OnBoard(f.clues[j].x + f.offsets[k].0, f.clues[j].y + f.offsets[k].1)
    {
      assert f.clues[j] in f.clues;
      assert f.offsets[k] in f.offsets;
    }
  }

  /** Every clue of `clues`, shifted by `off`, finds a value it allows on the
      board (the `all(...)` test of one offset). */
  predicate MatchesAt(clues: seq<Clue>, board: seq<string>, off: Loc)
    requires |board| == 9
    requires forall j :: 0 <= j < |clues| ==> OnBoard(clues[j].x + off.0, clues[j].y + off.1)
  {
    forall j :: 0 <= j < |clues| ==> At(board, clues[j].x + off.0, clues[j].y + off.1) in clues[j].allowed
  }

  /** The floating constraint holds of a full board: some offset matches. */
  predicate Holds(f: Floating, board: seq<string>)
    requires InBounds(f) && |board| == 9
  {
    exists k :: 0 <= k < |f.offsets| && MatchesAt(f.clues, board, f.offsets[k])
  }

  /** The closure the source returns, evaluated on a full board: try the
      offsets in order and report whether one of them matches. */
  method Evaluate(f: Floating, board: seq<string>) returns (ok: bool)
    requires InBounds(f) && |board| == 9
    ensures ok == Holds(f, board)
  {
    for k := 0 to |f.offsets|
      invariant forall i :: 0 <= i < k ==> !MatchesAt(f.clues, board, f.offsets[i])
    {
      if MatchesAt(f.clues, board, f.offsets[k]) {
        return true;
      }
    }
    return false;
  }

  /** Overlay `o`, shifted by (dx, dy), agrees with the board at every clue cell. */
  ghost predicate FitsAt(o: Overlay, board: seq<string>, dx: int, dy: int)
    requires WellFormed(o) && |board| == 9
    requires 0 <= dx <= 3 - |o| && 0 <= dy <= 3 - |o[0]|
  {
    forall x, y :: 0 <= x < |o| && 0 <= y < |o[0]| && o[x][y].Some? ==>
      var v := At(board, x + dx, y + dy);
      IsPiece(v) && Fits(o[x][y].value, v)
  }

  /** The meaning of a floating clue: it sits somewhere on the board. */
  ghost predicate FitsSomewhere(o: Overlay, board: seq<string>)
    requires WellFormed(o) && |board| == 9
  {
    exists dx, dy :: 0 <= dx <= 3 - |o| && 0 <= dy <= 3 - |o[0]| && FitsAt(o, board, dx, dy)
  }

  /** At one offset that keeps the overlay on the board, the clue cells of
      `FloatingOf(o)` match exactly when the overlay fits there. */
  lemma MatchesAtIffFitsAt(o: Overlay, board: seq<string>, dx: int, dy: int)
    requires WellFormed(o) && |board| == 9
    requires 0 <= dx <= 3 - |o| && 0 <= dy <= 3 - |o[0]|
    ensures forall j :: 0 <= j < |FloatingOf(o).clues| ==>
      OnBoard(FloatingOf(o).clues[j].x + dx, FloatingOf(o).clues[j].y + dy)
    ensures MatchesAt(FloatingOf(o).clues, board, (dx, dy)) <==> FitsAt(o, board, dx, dy)
  {
    var clues := FloatingOf(o).clues;
    FloatingCluesExact(o);
    forall j | 0 <= j < |clues| ensures OnBoard(clues[j].x + dx, clues[j].y + dy) {
      assert clues[j] in clues;
    }
    if MatchesAt(clues, board, (dx, dy)) {
      forall x, y | 0 <= x < |o| && 0 <= y < |o[0]| && o[x][y].Some?
        ensures IsPiece(At(board, x + dx, y + dy)) && Fits(o[x][y].value, At(board, x + dx, y + dy))
      {
        var c := Clue(x, y, GetConstraints(o[x][y].value));
        assert IsCellClue(o, c);
        var j :| 0 <= j < |clues| && clues[j] == c;
        GetConstraintsExact(o[x][y].value);
      }
    }
    if FitsAt(o, board, dx, dy) {
      forall j | 0 <= j < |clues|
        ensures At(board, clues[j].x + dx, clues[j].y + dy) in clues[j].allowed
      {
        var c := clues[j];
        assert c in clues;
        GetConstraintsExact(o[c.x][c.y].value);
      }
    }
  }

  /** The compiled floating constraint holds exactly when the overlay fits
      the board at some offset that keeps it on the board. */
  lemma FloatingOfCorrect(o: Overlay, board: seq<string>)
    requires WellFormed(o) && |board| == 9
    ensures InBounds(FloatingOf(o))
    ensures Holds(FloatingOf(o), board) <==> FitsSomewhere(o, board)
  {
    var f := FloatingOf(o);
    FloatingOfInBounds(o);
    OffsetsInRange(|o|, |o[0]|);
    if Holds(f, board) {
      var k :| 0 <= k < |f.offsets| && MatchesAt(f.clues, board, f.offsets[k]);
      assert f.offsets[k] in f.offsets;
      MatchesAtIffFitsAt(o, board, f.offsets[k].0, f.offsets[k].1);
    }
    if FitsSomewhere(o, board) {
      var dx, dy :| 0 <= dx <= 3 - |o| && 0 <= dy <= 3 - |o[0]| && FitsAt(o, board, dx, dy);
      assert (dx, dy) in f.offsets;
      var k :| 0 <= k < |f.offsets| && f.offsets[k] == (dx, dy);
      MatchesAtIffFitsAt(o, board, dx, dy);
    }
  }

  /** An overlay taller or wider than the board never fits, so its constraint
      rules out every board instead of being reported as malformed. */
  lemma OversizedNeverHolds(o: Overlay, board: seq<string>)
    requires WellFormed(o) && |board| == 9
    requires |o| > 3 || |o[0]| > 3
    ensures InBounds(FloatingOf(o)) && !Holds(FloatingOf(o), board)
  {
    FloatingOfInBounds(o);
    OffsetsInRange(|o|, |o[0]|);
  }

  /** The source's construction of a floating overlay: a nested loop collects
      the non-`None` cells with their expansions, then the offsets are listed. */
  method FloatingOverlay(o: Overlay) returns (f: Floating)
    requires WellFormed(o)
    ensures f == FloatingOf(o)
  {
    var height := |o|;
    var width := |o[0]|;
    var clues: seq<Clue> := [];
    for x := 0 to height
      invariant clues == ClueRows(o, x)
    {
      for y := 0 to width
        invariant clues == ClueRows(o, x) + RowClues(o, x, y)
      {
        if o[x][y].Some? {
          clues := clues + [Clue(x, y, GetConstraints(o[x][y].value))];
        }
      }
    }
    f := Floating(clues, Offsets(height, width));
  }
}
