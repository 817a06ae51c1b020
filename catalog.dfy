/** The fixed universe of Chocolate Fix: three colours, three shapes, the nine
    pieces they combine into, and the nine cells of the 3x3 board. */
module Catalog {

  datatype Option<T> = None | Some(value: T)

  /** A board cell as (row, column). */
  type Loc = (int, int)

  /** Colour codes: pink, brown, white. */
  const Colors: seq<char> := ['p', 'b', 'w']

  /** Shape codes: circle, square, triangle. */
  const Shapes: seq<char> := ['c', 's', 't']

  predicate IsColor(c: char) { c in Colors }

  predicate IsShape(c: char) { c in Shapes }

  /** A piece code: a colour character followed by a shape character. */
  predicate IsPiece(p: string) { |p| == 2 && IsColor(p[0]) && IsShape(p[1]) }

  ghost predicate NoDup<T>(s: seq<T>) {
    forall i, j :: 0 <= i < j < |s| ==> s[i] != s[j]
  }

  /** The piece catalogue, shape by shape and within a shape colour by colour. */
  function Pieces(): seq<string> {
    seq(9, i requires 0 <= i < 9 => [Colors[i % 3], Shapes[i / 3]])
  }

  /** The board cells in row-major order. */
  function Locations(): seq<Loc> {
    seq(9, i requires 0 <= i < 9 => (i / 3, i % 3))
  }

  predicate OnBoard(x: int, y: int) { 0 <= x < 3 && 0 <= y < 3 }

  /** The value a row-major board holds at (x, y). */
  function At<T>(board: seq<T>, x: int, y: int): T
    requires |board| == 9 && OnBoard(x, y)
  {
    board[3 * x + y]
  }

  /** The catalogue holds each of the nine colour-shape codes exactly once and nothing else. */
  lemma PiecesCatalogue()
    ensures |Pieces()| == 9 && NoDup(Pieces())
    ensures forall p :: p in Pieces() <==> IsPiece(p)
  {
    var ps := Pieces();
    forall p | IsPiece(p) ensures p in ps {
      var c :| 0 <= c < 3 && Colors[c] == p[0];
      var s :| 0 <= s < 3 && Shapes[s] == p[1];
      assert ps[3 * s + c] == p;
    }
  }

  /** `Locations()` lists every board cell once, row by row, so that the i-th
      variable of a board is the value at cell (i / 3, i % 3). */
  lemma LocationsRowMajor()
    ensures |Locations()| == 9 && NoDup(Locations())
    ensures forall x, y :: OnBoard(x, y) ==> Locations()[3 * x + y] == (x, y)
    ensures forall l: Loc :: l in Locations() <==> OnBoard(l.0, l.1)
  {
    forall l: Loc | OnBoard(l.0, l.1) ensures l in Locations() {
      assert Locations()[3 * l.0 + l.1] == l;
    }
  }
}
