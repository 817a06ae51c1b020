# Chocolate Fix solver, modelled in Dafny

A model of `chocolate_fix.py`, a solver for ThinkFun's Chocolate Fix puzzle.
Nine pieces (three colours `p`, `b`, `w` times three shapes `c`, `s`, `t`) go on a
3x3 board. Clue cards ("overlays") say which piece, or which colour or shape,
sits where. A board-sized overlay is anchored cell for cell. A smaller one
floats: it must match the board at some offset. The solver turns the clues
into per-cell domains and floating constraints. It enumerates every board that
uses each piece once and meets all constraints, and it insists there is exactly
one such board.

Modules, one per part of the source:

- `Catalog` (`catalog.dfy`): colours, shapes, the piece catalogue and the board cells in row-major order.
- `Clues` (`clues.dfy`): clue tokens and their expansion (`get_constraints`). Floating overlays (`floating_overlay`) are kept as data: the clue cells with their expansions, plus the offsets. The closure becomes the method `Evaluate`.
- `Search` (`search.dfy`): the solution search the source delegates to the `constraint` library. It is a depth-first backtracking over the nine cells, with the partial assignment in an array and the set of used pieces. It is proved to list each solution exactly once.
- `Solver` (`solver.dfy`): `solve_board`. It builds the per-cell lists, fills the untouched cells with the whole catalogue and runs the search. It reports either the answer grid or the number of solutions when that number is not one.
- `Demo` (`demo.dfy`): two of the puzzles shipped in the source, plus the puzzle with no overlays, stated as lemmas.

The meaning of a puzzle is written directly on the overlays, in
`Solver.SolvesPuzzle`:

- no piece appears twice;
- each cell holds a piece, and if some anchored overlay clues the cell, the piece fits at least one of those clues (`Solver.Allowed`);
- every floating overlay fits the board at some offset (`Clues.FitsSomewhere`).

`Solver.CompiledCorrect` proves that the compiled domains and floating constraints mean exactly this. `Solver.SolveBoard` is then specified against `SolvesPuzzle` alone.

Anchored clues on the same cell are **united**, not intersected. The source
extends the cell's list (`extend`, chocolate_fix.py:68-69), and its second demo
relies on it: the centre is clued `ps` in one overlay and `ws` in the other,
and the expected answer holds `ws`. See `Solver.Allowed`,
`Demo.WildcardAnswerSolves` and `Demo.WildcardIntersectEmpty`; the last
proves that under an intersecting reading no board meets the second demo's
anchored clues.

An overlay taller or wider than the board is not rejected. Its offset list is
empty (chocolate_fix.py:39-41), so its constraint never holds and the puzzle
has no solution (`Clues.OversizedNeverHolds`).

## Model

| member | source | states |
|---|---|---|
| `Catalog.PiecesCatalogue` | chocolate_fix.py:9-14 | the catalogue has 9 entries, none repeated, and holds exactly the colour-shape codes |
| `Catalog.LocationsRowMajor` | chocolate_fix.py:16 | `locations` lists each of the 9 board cells once, row by row: entry 3x+y is (x, y) |
| `Clues.GetConstraints` | chocolate_fix.py:19-25 | a token without `?` expands to one entry; a token with one `?` expands to three |
| `Clues.GetConstraintsExact` | chocolate_fix.py:19-25 | the expansion holds no repeats and exactly the pieces that agree with the token wherever it is not `?`: the token itself, the three colours of a shape, or the three shapes of a colour |
| `Clues.OffsetsInRange` | chocolate_fix.py:39-41 | an offset is listed exactly when 0 <= dx <= 3-h and 0 <= dy <= 3-w; an overlay taller or wider than 3 gets no offsets |
| `Clues.FloatingCluesExact` | chocolate_fix.py:33-37 | the collected clue cells are exactly the non-`None` cells of the overlay, each with its expansion |
| `Clues.FloatingOfInBounds` | chocolate_fix.py:39-49 | every clue cell shifted by every listed offset lies on the 3x3 board |
| `Clues.MatchesAtIffFitsAt` | chocolate_fix.py:47-51 | at one offset, all clue cells match exactly when the overlay, shifted there, agrees with the board at every non-`None` cell |
| `Clues.FloatingOfCorrect` | chocolate_fix.py:28-55 | the floating predicate holds exactly when some offset keeps the overlay on the board and every non-`None` cell fits the board there; `None` cells impose nothing |
| `Clues.OversizedNeverHolds` | chocolate_fix.py:39-41 | an overlay taller or wider than the board is never satisfied |
| `Clues.Evaluate` | chocolate_fix.py:43-53 | trying the offsets in turn returns true exactly when some offset matches |
| `Clues.FloatingOverlay` | chocolate_fix.py:28-41 | the nested loops and the offset list build exactly the floating constraint `FloatingOf(o)` |
| `Search.CheckFloating` | chocolate_fix.py:73-75 | the board passes exactly when every floating constraint holds of it |
| `Search.Backtrack` | chocolate_fix.py:83-88 | the result lists, each once, exactly the full boards that extend the partial assignment and take each cell's value from its domain, no piece twice and every floating constraint true; the partial assignment is left as it was |
| `Search.SolutionIsPermutation` | chocolate_fix.py:86-88 | every solution places each of the nine pieces exactly once |
| `Solver.AnchorOverlayEffect` | chocolate_fix.py:63-69 | a board-sized overlay appends the expansion of each non-`None` cell to that cell's list, creating the list when missing, and changes no other cell |
| `Solver.SpotConstraintsAt` | chocolate_fix.py:60-69 | a cell has a list exactly when some board-sized overlay clues it, and the list holds exactly the pieces that fit at least one of those clues (union) |
| `Solver.FloatsOfExact` | chocolate_fix.py:70-75 | the floating constraints are those of the overlays that are not 3x3, and only those |
| `Solver.DomainsMeaning` | chocolate_fix.py:77-84 | each cell's domain holds exactly the pieces the anchored clues allow there; an unclued cell gets the whole catalogue |
| `Solver.DomainsPart` | chocolate_fix.py:77-84 | a board takes every cell's value from its domain exactly when every cell holds a piece the anchored clues allow |
| `Solver.FloatsPart` | chocolate_fix.py:70-75 | the compiled floating constraints all hold exactly when every smaller overlay fits the board somewhere |
| `Solver.CompiledCorrect` | chocolate_fix.py:58-88 | the compiled domains contain only pieces and the floating constraints stay on the board; a board is a solution of the compiled problem exactly when it solves the puzzle as the overlays state it |
| `Solver.CompileOverlays` | chocolate_fix.py:60-75 | the first loop builds exactly the per-cell lists `SpotConstraints` and the floating constraints `FloatsOf` |
| `Solver.FillDefaults` | chocolate_fix.py:77-84 | every untouched cell gets the whole catalogue and the lists are handed over row-major as the nine domains |
| `Solver.AnswerGrid` | chocolate_fix.py:93-96 | the answer is 3x3 and `answer[x][y]` is the solution's value at (x, y) |
| `Solver.SearchFindsPuzzleSolutions` | chocolate_fix.py:83-88 | the boards the search returns from the empty assignment are exactly the boards that solve the puzzle |
| `Solver.CountDecides` | chocolate_fix.py:88-91 | a repeat-free list of all solutions counts them, and has length one exactly when the solution is unique, that one being its entry |
| `Solver.SolveBoard` | chocolate_fix.py:58-101 | a grid is returned exactly when one board solves the puzzle, and it is that board; otherwise the result is the number of solving boards, which is not one |
| `Demo.MixedAnswerSolves` | chocolate_fix.py:131-144 | the expected answer of the third demo solves it, with two floating 2x3 overlays fitting at offsets (0, 0) and (1, 0) |
| `Demo.WildcardIntersectEmpty` | chocolate_fix.py:120-125 | if anchored clues were intersected instead of united (`Demo.AllowedByAll`), no board would meet the second demo's anchored clues, because no piece fits both `ps` and `ws` in the centre |
| `Demo.WildcardAnswerSolves` | chocolate_fix.py:120-129 | the expected answer of the second demo solves it, holding `ws` in the centre although one overlay clues `ps` there |
| `Demo.NoOverlaysAmbiguous` | chocolate_fix.py:86-91 | with no overlays two distinct boards solve the puzzle, so the solution is not unique and no grid is returned |

## Left out

- Printing the answer (chocolate_fix.py:98-99) is output and is not modelled.
- The internals of the `constraint` library (`Problem`, `FunctionConstraint`, `AllDifferentConstraint`, `getSolutions`) are not part of this model. `Search.Backtrack` stands in for them: it returns every satisfying board exactly once.
- A domain whose list repeats a piece (a cell clued by two anchored overlays whose expansions overlap) is treated as a set. How the library enumerates repeated domain values is not modelled. If it yields a board once per repeated value, the source would count such a puzzle's single board twice and fail its assert, while `Solver.SolveBoard` returns `Solved`: the model's count can then differ from the source's.
- A failed uniqueness `assert` becomes the result `Solver.Outcome.WrongCount(n)`, which carries the count the source puts in its message.
- Tokens other than a piece code, `?` plus a shape, or a colour plus `?` are excluded by a precondition (`Clues.IsToken`). This includes `??`, which would expand to strings that are not pieces.
- An empty overlay `[]` and an overlay with a row narrower than its first row are excluded by a precondition (`Clues.WellFormed`). The source would fail with an index error on both (`len(overlay[0])` at chocolate_fix.py:31, or a missing column in the row loop).
- The closure receives the nine values in `locations` order and copies them into a dictionary. The model keeps the board as a row-major sequence and reads cell (x, y) at index 3x+y (`Catalog.At`). `Catalog.LocationsRowMajor` proves the two agree.
- Dictionary iteration order (`iteritems`) has no effect on the result and is not modelled. The answer grid starts from empty strings, not `None`.
- Clues.GetConstraints: the order of the expanded list (colours or shapes in catalogue order) is not stated. Only its length, its members and the absence of repeats are.
- Two of the four demo puzzles (chocolate_fix.py:106-118 and 146-163) are not stated. For the two that are, the model proves that the expected answer solves the puzzle. It does not prove that the answer is the only one, because that would mean running the search.
