/** Puzzles stated as checks on the model: the third demo shipped with the
    solver (two board-sized overlays and two 2x3 floating ones), the second
    demo (two board-sized overlays clueing the centre differently), and the
    puzzle with no overlays at all, which has more than one solution. */
module Demo {
  import opened Catalog
  import opened Clues
  import opened Solver

  function C(t: string): Option<string> { Some(t) }

  /** The third demo puzzle. */
  function MixedPuzzle(): seq<Overlay> {
    [ [[C("bt"), None, C("ps")],
       [None, None, None],
       [None, C("wt"), None]],
      [[None, None, None],
       [None, C("bc"), None],
       [None, None, None]],
      [[None, C("bs"), None],
       [C("wc"), None, C("ws")]],
      [[None, None, None],
       [C("pt"), None, C("pc")]] ]
  }

  /** Its expected answer, row-major. */
  function MixedAnswer(): seq<string> {
    ["bt", "bs", "ps", "wc", "bc", "ws", "pt", "wt", "pc"]
  }

  lemma MixedWellFormed()
    ensures AllWellFormed(MixedPuzzle())
    ensures forall k :: 0 <= k < |MixedPuzzle()| ==> (IsAnchored(MixedPuzzle()[k]) <==> k < 2)
  {
  }

  lemma MixedCellAllowed(x: int, y: int)
    requires OnBoard(x, y)
    ensures AllWellFormed(MixedPuzzle())
    ensures Allowed(MixedPuzzle(), x, y, At(MixedAnswer(), x, y))
  {
  }

  lemma MixedFloatsFit()
    ensures AllWellFormed(MixedPuzzle())
    ensures FitsAt(MixedPuzzle()[2], MixedAnswer(), 0, 0) && FitsAt(MixedPuzzle()[3], MixedAnswer(), 1, 0)
    ensures FitsSomewhere(MixedPuzzle()[2], MixedAnswer()) && FitsSomewhere(MixedPuzzle()[3], MixedAnswer())
  {
    MixedWellFormed();
    var ovs: seq<Overlay> := MixedPuzzle();
    var s: seq<string> := MixedAnswer();
    assert FitsAt(ovs[2], s, 0, 0);
    assert FitsAt(ovs[3], s, 1, 0);
  }

  /** The expected answer solves the puzzle: the first floating overlay fits
      at offset (0, 0) and the second at offset (1, 0). */
  lemma MixedAnswerSolves()
    ensures AllWellFormed(MixedPuzzle())
    ensures SolvesPuzzle(MixedPuzzle(), MixedAnswer())
    ensures FitsAt(MixedPuzzle()[2], MixedAnswer(), 0, 0) && FitsAt(MixedPuzzle()[3], MixedAnswer(), 1, 0)
  {
    MixedWellFormed();
    forall x: int, y: int | OnBoard(x, y) ensures Allowed(MixedPuzzle(), x, y, At(MixedAnswer(), x, y)) {
      MixedCellAllowed(x, y);
    }
    MixedFloatsFit();
  }

  /** The second demo puzzle: two board-sized overlays with wildcard tokens
      that clue the centre cell as both `ps` and `ws`. */
  function WildcardPuzzle(): seq<Overlay> {
    [ [[C("p?"), C("wc"), None],
       [None, C("ps"), C("bc")],
       [C("w?"), C("pc"), None]],
      [[None, None, C("ps")],
       [C("b?"), C("ws"), None],
       [None, None, C("bs")]] ]
  }

  function WildcardAnswer(): seq<string> {
    ["pt", "wc", "ps", "bt", "ws", "bc", "wt", "pc", "bs"]
  }

  lemma WildcardWellFormed()
    ensures AllWellFormed(WildcardPuzzle())
    ensures IsAnchored(WildcardPuzzle()[0]) && IsAnchored(WildcardPuzzle()[1])
  {
  }

  /** The intersecting reading of anchored clues, which the solver does not
      use: a piece is allowed at (x, y) only when it fits every board-sized
      clue there. */
  ghost predicate AllowedByAll(ovs: seq<Overlay>, x: int, y: int, v: string)
    requires AllWellFormed(ovs) && OnBoard(x, y)
  {
    IsPiece(v) && forall k :: 0 <= k < |ovs| && IsAnchored(ovs[k]) && ovs[k][x][y].Some? ==> Fits(ovs[k][x][y].value, v)
  }

  /** Under the intersecting reading no board meets the anchored clues of the
      second demo: no piece fits both `ps` and `ws` in the centre. */
  lemma WildcardIntersectEmpty(s: seq<string>)
    requires |s| == 9
    ensures AllWellFormed(WildcardPuzzle())
    ensures !(forall x, y :: OnBoard(x, y) ==> AllowedByAll(WildcardPuzzle(), x, y, At(s, x, y)))
  {
    WildcardWellFormed();
    var ovs: seq<Overlay> := WildcardPuzzle();
    assert ovs[0][1][1] == Some("ps") && ovs[1][1][1] == Some("ws");
    if AllowedByAll(ovs, 1, 1, At(s, 1, 1)) {
      assert false;
    }
  }

  lemma WildcardCellAllowed(x: int, y: int)
    requires OnBoard(x, y)
    ensures AllWellFormed(WildcardPuzzle())
    ensures Allowed(WildcardPuzzle(), x, y, At(WildcardAnswer(), x, y))
  {
    WildcardWellFormed();
    var ovs: seq<Overlay> := WildcardPuzzle();
    var v := At(WildcardAnswer(), x, y);
    assert IsPiece(v);
    if (x, y) == (0, 2) || (x, y) == (1, 0) || (x, y) == (1, 1) || (x, y) == (2, 2) {
      assert Fits(ovs[1][x][y].value, v);
    } else {
      assert Fits(ovs[0][x][y].value, v);
    }
  }

  /** The expected answer solves the puzzle, with `ws` in the centre although
      the first overlay clues that cell `ps`: the clues are united. */
  lemma WildcardAnswerSolves()
    ensures AllWellFormed(WildcardPuzzle())
    ensures SolvesPuzzle(WildcardPuzzle(), WildcardAnswer())
    ensures WildcardPuzzle()[0][1][1] == Some("ps") && At(WildcardAnswer(), 1, 1) == "ws"
  {
    WildcardWellFormed();
    forall x: int, y: int | OnBoard(x, y) ensures Allowed(WildcardPuzzle(), x, y, At(WildcardAnswer(), x, y)) {
      WildcardCellAllowed(x, y);
    }
  }

  /** Without overlays only the all-different rule applies, and two boards
      satisfy it, so solving reports an ambiguous puzzle rather than a grid. */
  lemma NoOverlaysAmbiguous()
    ensures AllWellFormed([])
    ensures exists a, b :: a != b && SolvesPuzzle([], a) && SolvesPuzzle([], b)
    ensures !UniqueSolution([])
  {
    PiecesCatalogue();
    var a := Pieces();
    var b := a[0 := a[1]][1 := a[0]];
    forall x: int, y: int | OnBoard(x, y) ensures Allowed([], x, y, At(a, x, y)) && Allowed([], x, y, At(b, x, y)) {
      assert a[3 * x + y] in a;
      assert b[3 * x + y] in a;
    }
    assert SolvesPuzzle([], a);
    assert SolvesPuzzle([], b);
    assert a != b by {
      assert a[0] != b[0];
    }
  }
}
