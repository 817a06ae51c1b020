/** `solve_board`: compiles a list of overlays into per-cell domains and
    floating constraints, enumerates every solution, insists there is exactly
    one and copies it into a 3x3 answer grid. */
module Solver {
  import opened Catalog
  import opened Clues
  import opened Search

  /** The per-cell allowed lists, keyed by board cell; a missing key is a
      cell no board-sized overlay has mentioned yet. */
  type Spots = map<Loc, seq<string>>

  /** The outcome of solving: the answer grid, or the number of solutions
      when that number is not one. */
  datatype Outcome = Solved(grid: seq<seq<string>>) | WrongCount(count: nat)

  predicate AllWellFormed(ovs: seq<Overlay>) {
    forall k :: 0 <= k < |ovs| ==> WellFormed(ovs[k])
  }

  /** An overlay as large as the board applies to it cell for cell; every
      other overlay floats. */
  predicate IsAnchored(o: Overlay) { |o| == 3 && |o[0]| == 3 }

  /** The list held for cell `l`, if it has one. */
  function Lookup(spot: Spots, l: Loc): Option<seq<string>> {
    if l in spot then Some(spot[l]) else None
  }

  /** The list held for cell `l`, the empty list when it has none. */
  function Get(spot: Spots, l: Loc): seq<string> {
    if l in spot then spot[l] else []
  }

  /** Appending to the list of cell `l`, creating it when missing. */
  function Extend(spot: Spots, l: Loc, vals: seq<string>): Spots {
    spot[l := Get(spot, l) + vals]
  }

  /** One cell of a board-sized overlay added to the allowed lists. */
  function AddCell(spot: Spots, o: Overlay, x: int, y: int): Spots
    requires WellFormed(o) && IsAnchored(o) && OnBoard(x, y)
  {
    match o[x][y]
    case None => spot
    case Some(t) => Extend(spot, (x, y), GetConstraints(t))
  }

  /** The allowed lists after the cells of `o` before (x, y), in row-major
      order, have been added. */
  function AnchorCells(spot: Spots, o: Overlay, x: nat, y: nat): Spots
    requires WellFormed(o) && IsAnchored(o) && y <= 3 && (x < 3 || (x == 3 && y == 0))
    decreases x, y
  {
    if y > 0 then AddCell(AnchorCells(spot, o, x, y - 1), o, x, y - 1)
    else if x > 0 then AnchorCells(spot, o, x - 1, 3)
    else spot
  }

  function AnchorOverlay(spot: Spots, o: Overlay): Spots
    requires WellFormed(o) && IsAnchored(o)
  {
    AnchorCells(spot, o, 3, 0)
  }

  /** Cell `l` is one of the non-`None` cells of `o` before (x, y). */
  predicate Touches(o: Overlay, l: Loc, x: int, y: int)
    requires WellFormed(o) && IsAnchored(o)
  {
    OnBoard(l.0, l.1) && (l.0 < x || (l.0 == x && l.1 < y)) && o[l.0][l.1].Some?
  }

  /** What cell `l` holds once the cells of `o` before (x, y) are added. */
  function Applied(spot: Spots, o: Overlay, l: Loc, x: int, y: int): Option<seq<string>>
    requires WellFormed(o) && IsAnchored(o)
  {
    if Touches(o, l, x, y) then Some(Get(spot, l) + GetConstraints(o[l.0][l.1].value))
    else Lookup(spot, l)
  }

  lemma {:induction false} AnchorCellsAt(spot: Spots, o: Overlay, x: nat, y: nat, l: Loc)
    requires WellFormed(o) && IsAnchored(o) && y <= 3 && (x < 3 || (x == 3 && y == 0))
    ensures Lookup(AnchorCells(spot, o, x, y), l) == Applied(spot, o, l, x, y)
    decreases x, y
  {
    if y > 0 {
      AnchorCellsAt(spot, o, x, y - 1, l);
    } else if x > 0 {
      AnchorCellsAt(spot, o, x - 1, 3, l);
    }
  }

  /** A board-sized overlay appends the expansion of each non-`None` cell to
      that cell's list (creating it when missing) and changes no other cell. */
  lemma AnchorOverlayEffect(spot: Spots, o: Overlay)
    requires WellFormed(o) && IsAnchored(o)
    ensures forall x, y :: OnBoard(x, y) && o[x][y].Some? ==>
      Lookup(AnchorOverlay(spot, o), (x, y)) == Some(Get(spot, (x, y)) + GetConstraints(o[x][y].value))
    ensures forall x, y :: OnBoard(x, y) && o[x][y].None? ==>
      Lookup(AnchorOverlay(spot, o), (x, y)) == Lookup(spot, (x, y))
    ensures forall l: Loc :: !OnBoard(l.0, l.1) ==> Lookup(AnchorOverlay(spot, o), l) == Lookup(spot, l)
  {
    forall l: Loc ensures Lookup(AnchorOverlay(spot, o), l) == Applied(spot, o, l, 3, 0) {
      AnchorCellsAt(spot, o, 3, 0, l);
    }
  }

  /** The allowed lists after all board-sized overlays of `ovs`, in order. */
  function SpotConstraints(ovs: seq<Overlay>): Spots
    requires AllWellFormed(ovs)
  {
    if ovs == [] then map[]
    else
      var spot := SpotConstraints(ovs[..|ovs| - 1]);
      var o := ovs[|ovs| - 1];
      if IsAnchored(o) then AnchorOverlay(spot, o) else spot
  }

  /** The floating constraints of the smaller overlays of `ovs`, in order. */
  function FloatsOf(ovs: seq<Overlay>): seq<Floating>
    requires AllWellFormed(ovs)
  {
    if ovs == [] then []
    else
      var o := ovs[|ovs| - 1];
      FloatsOf(ovs[..|ovs| - 1]) + (if IsAnchored(o) then [] else [FloatingOf(o)])
  }

  /** The final domain of a cell: its list, or the whole catalogue when no
      board-sized overlay mentions it. */
  function DomainAt(spot: Spots, x: int, y: int): seq<string> {
    if (x, y) in spot then spot[(x, y)] else Pieces()
  }

  /** The domains of the nine cells, row-major. */
  function DefaultDomains(spot: Spots): seq<seq<string>> {
    seq(9, i requires 0 <= i < 9 => DomainAt(spot, i / 3, i % 3))
  }

  function Domains(ovs: seq<Overlay>): seq<seq<string>>
    requires AllWellFormed(ovs)
  {
    DefaultDomains(SpotConstraints(ovs))
  }

  /** Some board-sized overlay of `ovs` has a clue at (x, y). */
  ghost predicate Mentions(ovs: seq<Overlay>, x: int, y: int)
    requires AllWellFormed(ovs) && OnBoard(x, y)
  {
    exists k :: 0 <= k < |ovs| && IsAnchored(ovs[k]) && ovs[k][x][y].Some?
  }

  /** Piece `v` fits the clue of at least one board-sized overlay at (x, y). */
  ghost predicate FitsSomeClue(ovs: seq<Overlay>, x: int, y: int, v: string)
    requires AllWellFormed(ovs) && OnBoard(x, y) && |v| == 2
  {
    exists k :: 0 <= k < |ovs| && IsAnchored(ovs[k]) && ovs[k][x][y].Some? && Fits(ovs[k][x][y].value, v)
  }

  /** What the board-sized overlays allow at (x, y): any piece when none of
      them mentions the cell, otherwise any piece that fits one of their
      clues there (the clues are united, not intersected). */
  ghost predicate Allowed(ovs: seq<Overlay>, x: int, y: int, v: string)
    requires AllWellFormed(ovs) && OnBoard(x, y)
  {
    IsPiece(v) && (Mentions(ovs, x, y) ==> FitsSomeClue(ovs, x, y, v))
  }

  lemma MentionsSnoc(init: seq<Overlay>, o: Overlay, x: int, y: int)
    requires AllWellFormed(init + [o]) && WellFormed(o) && OnBoard(x, y)
    ensures AllWellFormed(init)
    ensures Mentions(init + [o], x, y) <==> Mentions(init, x, y) || (IsAnchored(o) && o[x][y].Some?)
  {
    var ovs := init + [o];
    assert forall k :: 0 <= k < |init| ==> ovs[k] == init[k];
    assert ovs[|init|] == o;
  }

  lemma FitsSomeClueSnoc(init: seq<Overlay>, o: Overlay, x: int, y: int, v: string)
    requires AllWellFormed(init + [o]) && WellFormed(o) && OnBoard(x, y) && |v| == 2
    ensures AllWellFormed(init)
    ensures FitsSomeClue(init + [o], x, y, v) <==>
      FitsSomeClue(init, x, y, v) || (IsAnchored(o) && o[x][y].Some? && Fits(o[x][y].value, v))
  {
    var ovs := init + [o];
    assert forall k :: 0 <= k < |init| ==> ovs[k] == init[k];
    assert ovs[|init|] == o;
  }

  /** Cell (x, y) has a list exactly when a board-sized overlay mentions it,
      and that list holds exactly the pieces fitting one of their clues. */
  lemma {:induction false} SpotConstraintsAt(ovs: seq<Overlay>, x: int, y: int)
    requires AllWellFormed(ovs) && OnBoard(x, y)
    ensures (x, y) in SpotConstraints(ovs) <==> Mentions(ovs, x, y)
    ensures (x, y) in SpotConstraints(ovs) ==>
      forall v :: v in SpotConstraints(ovs)[(x, y)] <==> IsPiece(v) && FitsSomeClue(ovs, x, y, v)
  {
    if ovs != [] {
      var init := ovs[..|ovs| - 1];
      var o := ovs[|ovs| - 1];
      assert ovs == init + [o];
      var before := SpotConstraints(init);
      MentionsSnoc(init, o, x, y);
      SpotConstraintsAt(init, x, y);
      if IsAnchored(o) {
        AnchorOverlayEffect(before, o);
        if o[x][y].Some? {
          GetConstraintsExact(o[x][y].value);
        }
      }
      forall v: string | |v| == 2 {
        FitsSomeClueSnoc(init, o, x, y, v);
      }
    }
  }

  /** Every constraint of the puzzle, stated on the overlays themselves: no
      piece twice on the board, each cell allowed by the
      board-sized overlays, and every smaller overlay fitting somewhere. */
  ghost predicate SolvesPuzzle(ovs: seq<Overlay>, s: seq<string>)
    requires AllWellFormed(ovs)
  {
    && |s| == 9
    && NoDup(s)
    && (forall x, y :: OnBoard(x, y) ==> Allowed(ovs, x, y, At(s, x, y)))
    && (forall k :: 0 <= k < |ovs| && !IsAnchored(ovs[k]) ==> FitsSomewhere(ovs[k], s))
  }

  /** The domain of each cell holds exactly the pieces the board-sized
      overlays allow there; an unmentioned cell gets the whole catalogue. */
  lemma DomainsMeaning(ovs: seq<Overlay>)
    requires AllWellFormed(ovs)
    ensures |Domains(ovs)| == 9
    ensures forall x, y, v :: OnBoard(x, y) ==> (v in At(Domains(ovs), x, y) <==> Allowed(ovs, x, y, v))
  {
    PiecesCatalogue();
    forall x, y, v | OnBoard(x, y) ensures v in At(Domains(ovs), x, y) <==> Allowed(ovs, x, y, v) {
      SpotConstraintsAt(ovs, x, y);
      assert At(Domains(ovs), x, y) == DomainAt(SpotConstraints(ovs), x, y);
    }
  }

  /** The floating constraints are those of the smaller overlays, and only those. */
  lemma {:induction false} FloatsOfExact(ovs: seq<Overlay>)
    requires AllWellFormed(ovs)
    ensures forall k :: 0 <= k < |ovs| && !IsAnchored(ovs[k]) ==> FloatingOf(ovs[k]) in FloatsOf(ovs)
    ensures forall f :: f in FloatsOf(ovs) ==>
      exists k :: 0 <= k < |ovs| && !IsAnchored(ovs[k]) && f == FloatingOf(ovs[k])
  {
    if ovs != [] {
      var init := ovs[..|ovs| - 1];
      FloatsOfExact(init);
      assert forall k :: 0 <= k < |init| ==> ovs[k] == init[k];
    }
  }

  lemma DomainsPart(ovs: seq<Overlay>, s: seq<string>)
    requires AllWellFormed(ovs) && |s| == 9
    ensures |Domains(ovs)| == 9
    ensures (forall i :: 0 <= i < 9 ==> s[i] in Domains(ovs)[i]) <==>
      (forall x, y :: OnBoard(x, y) ==> Allowed(ovs, x, y, At(s, x, y)))
  {
    DomainsMeaning(ovs);
    var doms := Domains(ovs);
    if forall i :: 0 <= i < 9 ==> s[i] in doms[i] {
      forall x, y | OnBoard(x, y) ensures Allowed(ovs, x, y, At(s, x, y)) {
        assert s[3 * x + y] in doms[3 * x + y];
      }
    }
    if forall x, y :: OnBoard(x, y) ==> Allowed(ovs, x, y, At(s, x, y)) {
      forall i | 0 <= i < 9 ensures s[i] in doms[i] {
        assert Allowed(ovs, i / 3, i % 3, At(s, i / 3, i % 3));
      }
    }
  }

  lemma FloatsPart(ovs: seq<Overlay>, s: seq<string>)
    requires AllWellFormed(ovs) && |s| == 9
    ensures forall k :: 0 <= k < |FloatsOf(ovs)| ==> InBounds(FloatsOf(ovs)[k])
    ensures AllFloatingHold(FloatsOf(ovs), s) <==>
      (forall k :: 0 <= k < |ovs| && !IsAnchored(ovs[k]) ==> FitsSomewhere(ovs[k], s))
  {
    var floats := FloatsOf(ovs);
    FloatsOfExact(ovs);
    forall k | 0 <= k < |ovs| {
      FloatingOfCorrect(ovs[k], s);
    }
    forall j | 0 <= j < |floats| ensures InBounds(floats[j]) {
      assert floats[j] in floats;
    }
    if AllFloatingHold(floats, s) {
      forall k | 0 <= k < |ovs| && !IsAnchored(ovs[k]) ensures FitsSomewhere(ovs[k], s) {
        var j :| 0 <= j < |floats| && floats[j] == FloatingOf(ovs[k]);
      }
    }
    if forall k :: 0 <= k < |ovs| && !IsAnchored(ovs[k]) ==> FitsSomewhere(ovs[k], s) {
      forall j | 0 <= j < |floats| ensures Holds(floats[j], s) {
        assert floats[j] in floats;
      }
    }
  }

  /** Compilation is faithful: the compiled domains and floating constraints
      meet what the search needs, and its solutions are exactly the boards
      that solve the puzzle as the overlays state it. */
  lemma CompiledCorrect(ovs: seq<Overlay>, s: seq<string>)
    requires AllWellFormed(ovs)
    ensures Compiled(Domains(ovs), FloatsOf(ovs))
    ensures IsSolution(Domains(ovs), FloatsOf(ovs), s) <==> SolvesPuzzle(ovs, s)
  {
    var doms := Domains(ovs);
    DomainsMeaning(ovs);
    forall i, v | 0 <= i < 9 && v in doms[i] ensures IsPiece(v) {
      assert v in At(doms, i / 3, i % 3);
    }
    FloatsPart(ovs, if |s| == 9 then s else Pieces());
    if |s| == 9 {
      DomainsPart(ovs, s);
    }
  }

  /** Exactly one board solves the puzzle. */
  ghost predicate UniqueSolution(ovs: seq<Overlay>)
    requires AllWellFormed(ovs)
  {
    exists s :: SolvesPuzzle(ovs, s) && forall t :: SolvesPuzzle(ovs, t) ==> t == s
  }

  /** `n` is the number of boards that solve the puzzle. */
  ghost predicate CountsSolutions(ovs: seq<Overlay>, n: nat)
    requires AllWellFormed(ovs)
  {
    exists sols: seq<seq<string>> :: |sols| == n && NoDup(sols) && forall s :: s in sols <==> SolvesPuzzle(ovs, s)
  }

  /** The first loop of the source: board-sized overlays extend the allowed
      lists cell by cell, smaller ones become floating constraints. */
  method CompileOverlays(ovs: seq<Overlay>) returns (spot: Spots, floats: seq<Floating>)
    requires AllWellFormed(ovs)
    ensures spot == SpotConstraints(ovs) && floats == FloatsOf(ovs)
  {
    spot := map[];
    floats := [];
    for k := 0 to |ovs|
      invariant spot == SpotConstraints(ovs[..k]) && floats == FloatsOf(ovs[..k])
    {
      var o := ovs[k];
      assert ovs[..k + 1][..k] == ovs[..k] && ovs[..k + 1][k] == o;
      if |o| == 3 && |o[0]| == 3 {
        ghost var before := spot;
        for x := 0 to 3
          invariant spot == AnchorCells(before, o, x, 0)
        {
          for y := 0 to 3
            invariant spot == AnchorCells(before, o, x, y)
          {
            if o[x][y].Some? {
              spot := Extend(spot, (x, y), GetConstraints(o[x][y].value));
            }
          }
        }
      } else {
        var f := FloatingOverlay(o);
        floats := floats + [f];
      }
    }
    assert ovs[..|ovs|] == ovs;
  }

  /** The second loop of the source: every cell still without a list gets
      the whole catalogue; the lists are then handed over row-major, as the
      domains of the nine cells. */
  method FillDefaults(spot0: Spots) returns (doms: seq<seq<string>>)
    ensures doms == DefaultDomains(spot0)
  {
    var spot := spot0;
    for x := 0 to 3
      invariant forall a, b :: OnBoard(a, b) ==>
        Lookup(spot, (a, b)) == (if a < x then Some(DomainAt(spot0, a, b)) else Lookup(spot0, (a, b)))
    {
      for y := 0 to 3
        invariant forall a, b :: OnBoard(a, b) ==>
          Lookup(spot, (a, b)) == (if a < x || (a == x && b < y) then Some(DomainAt(spot0, a, b)) else Lookup(spot0, (a, b)))
      {
        if (x, y) !in spot {
          spot := spot[(x, y) := Pieces()];
        }
      }
    }
    doms := [];
    for i := 0 to 9
      invariant doms == DefaultDomains(spot0)[..i]
    {
      assert Lookup(spot, (i / 3, i % 3)) == Some(DomainAt(spot0, i / 3, i % 3));
      doms := doms + [spot[Locations()[i]]];
    }
  }

  /** The answer grid: row x, column y holds the solution's value at (x, y). */
  method AnswerGrid(solution: seq<string>) returns (answer: seq<seq<string>>)
    requires |solution| == 9
    ensures |answer| == 3 && forall x :: 0 <= x < 3 ==> |answer[x]| == 3
    ensures forall x, y :: OnBoard(x, y) ==> answer[x][y] == At(solution, x, y)
  {
    answer := [["", "", ""], ["", "", ""], ["", "", ""]];
    for x := 0 to 3
      invariant |answer| == 3 && forall a :: 0 <= a < 3 ==> |answer[a]| == 3
      invariant forall a, b :: 0 <= a < x && 0 <= b < 3 ==> answer[a][b] == At(solution, a, b)
    {
      for y := 0 to 3
        invariant |answer| == 3 && forall a :: 0 <= a < 3 ==> |answer[a]| == 3
        invariant forall a, b :: OnBoard(a, b) && (a < x || (a == x && b < y)) ==> answer[a][b] == At(solution, a, b)
      {
        answer := answer[x := answer[x][y := solution[3 * x + y]]];
      }
    }
  }

  /** A list of all solutions without repeats decides uniqueness by its length. */
  lemma CountDecides(ovs: seq<Overlay>, sols: seq<seq<string>>)
    requires AllWellFormed(ovs) && NoDup(sols)
    requires forall s :: s in sols <==> SolvesPuzzle(ovs, s)
    ensures CountsSolutions(ovs, |sols|)
    ensures |sols| == 1 <==> UniqueSolution(ovs)
    ensures |sols| == 1 ==> forall s :: SolvesPuzzle(ovs, s) ==> s == sols[0]
  {
    if |sols| >= 2 {
      assert sols[0] in sols && sols[1] in sols && sols[0] != sols[1];
    }
    if |sols| == 1 {
      assert SolvesPuzzle(ovs, sols[0]);
    }
  }

  /** The solutions the search finds for the compiled puzzle are exactly the
      boards that solve the puzzle. */
  lemma SearchFindsPuzzleSolutions(ovs: seq<Overlay>, sols: seq<seq<string>>)
    requires AllWellFormed(ovs) && Compiled(Domains(ovs), FloatsOf(ovs))
    requires forall s :: s in sols <==> IsSolution(Domains(ovs), FloatsOf(ovs), s) && s[..0] == []
    ensures forall s :: s in sols <==> SolvesPuzzle(ovs, s)
  {
    forall s ensures s in sols <==> SolvesPuzzle(ovs, s) {
      CompiledCorrect(ovs, s);
      if |s| == 9 {
        assert s[..0] == [];
      }
    }
  }

  /** `solve_board`: the grid of the one board that solves the puzzle, or
      the number of solving boards when that number is not one. */
  method SolveBoard(ovs: seq<Overlay>) returns (r: Outcome)
    requires AllWellFormed(ovs)
    ensures r.Solved? <==> UniqueSolution(ovs)
    ensures r.Solved? ==> |r.grid| == 3 && forall x :: 0 <= x < 3 ==> |r.grid[x]| == 3
    ensures r.Solved? ==> forall s, x, y :: SolvesPuzzle(ovs, s) && OnBoard(x, y) ==> r.grid[x][y] == At(s, x, y)
    ensures r.WrongCount? ==> r.count != 1 && CountsSolutions(ovs, r.count)
  {
    var spot, floats := CompileOverlays(ovs);
    var doms := FillDefaults(spot);
    CompiledCorrect(ovs, Pieces());
    var board := new string[9];
    assert board[..0] == [];
    var sols := Backtrack(doms, floats, board, 0, {});
    SearchFindsPuzzleSolutions(ovs, sols);
    CountDecides(ovs, sols);
    if |sols| != 1 {
      return WrongCount(|sols|);
    }
    var answer := AnswerGrid(sols[0]);
    r := Solved(answer);
  }
}
