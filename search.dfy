/** The search that enumerates every solution of a compiled puzzle: a
    depth-first backtracking over the nine cells in row-major order, with a
    partial assignment updated in place and the set of pieces already used. */
module Search {
  import opened Catalog
  import opened Clues

  /** What compilation guarantees the search: nine domains of catalogue
      pieces and floating constraints that stay on the board. */
  predicate Compiled(doms: seq<seq<string>>, floats: seq<Floating>) {
    && |doms| == 9
    && (forall i, v :: 0 <= i < 9 && v in doms[i] ==> IsPiece(v))
    && (forall k :: 0 <= k < |floats| ==> InBounds(floats[k]))
  }

  /** Every floating constraint holds of the full board `s`. */
  predicate AllFloatingHold(floats: seq<Floating>, s: seq<string>)
    requires |s| == 9 && forall k :: 0 <= k < |floats| ==> InBounds(floats[k])
  {
    forall k :: 0 <= k < |floats| ==> Holds(floats[k], s)
  }

  /** A solution: one value per cell from that cell's domain, no piece twice,
      and every floating constraint satisfied. */
  ghost predicate IsSolution(doms: seq<seq<string>>, floats: seq<Floating>, s: seq<string>)
    requires Compiled(doms, floats)
  {
    && |s| == 9
    && (forall i :: 0 <= i < 9 ==> s[i] in doms[i])
    && NoDup(s)
    && AllFloatingHold(floats, s)
  }

  lemma {:induction false} NoDupCard<T>(s: seq<T>)
    requires NoDup(s)
    ensures |set x | x in s| == |s|
  {
    if s != [] {
      var init := s[..|s| - 1];
      NoDupCard(init);
      assert (set x | x in s) == (set x | x in init) + {s[|s| - 1]};
    }
  }

  /** A solution places all nine pieces, each exactly once. */
  lemma SolutionIsPermutation(doms: seq<seq<string>>, floats: seq<Floating>, s: seq<string>)
    requires Compiled(doms, floats) && IsSolution(doms, floats, s)
    ensures forall p :: p in s <==> IsPiece(p)
  {
    PiecesCatalogue();
    NoDupCard(s);
    NoDupCard(Pieces());
    var used := set x | x in s;
    var all := set x | x in Pieces();
    assert used <= all;
    assert |all - used| == |all| - |used|;
    assert all - used == {};
    forall p ensures p in s <==> IsPiece(p) {
      assert p in s <==> p in used;
      assert p in Pieces() <==> p in all;
    }
  }

  /** The check of every floating constraint on a full board. */
  method CheckFloating(floats: seq<Floating>, board: seq<string>) returns (ok: bool)
    requires |board| == 9 && forall k :: 0 <= k < |floats| ==> InBounds(floats[k])
    ensures ok == AllFloatingHold(floats, board)
  {
    for k := 0 to |floats|
      invariant forall j :: 0 <= j < k ==> Holds(floats[j], board)
    {
      var holds := Evaluate(floats[k], board);
      if !holds {
        return false;
      }
    }
    return true;
  }

  lemma NoDupConcat<T>(a: seq<T>, b: seq<T>)
    requires NoDup(a) && NoDup(b)
    requires forall x :: x in a ==> x !in b
    ensures NoDup(a + b)
  {
    forall i, j | 0 <= i < j < |a + b| ensures (a + b)[i] != (a + b)[j] {
      if i < |a| && j >= |a| {
        assert (a + b)[i] in a && (a + b)[j] in b;
      }
    }
  }

  /** Enumerates, each exactly once, the solutions that agree with
      `board[..i]`, trying the pieces of cell i in catalogue order and
      skipping those outside its domain or already used. */
  method Backtrack(doms: seq<seq<string>>, floats: seq<Floating>, board: array<string>, i: nat, used: set<string>)
    returns (sols: seq<seq<string>>)
    requires Compiled(doms, floats) && board.Length == 9 && i <= 9
    requires forall k :: 0 <= k < i ==> board[k] in doms[k]
    requires NoDup(board[..i])
    requires forall v :: v in used <==> v in board[..i]
    modifies board
    ensures board[..i] == old(board[..i])
    ensures NoDup(sols)
    ensures forall s :: s in sols <==> IsSolution(doms, floats, s) && s[..i] == old(board[..i])
    decreases 9 - i
  {
    if i == 9 {
      var complete := board[..];
      assert complete == board[..i];
      var ok := CheckFloating(floats, complete);
      sols := if ok then [complete] else [];
      forall s | |s| == 9 ensures s[..i] == complete <==> s == complete {
        assert s[..i] == s;
      }
      return;
    }
    PiecesCatalogue();
    ghost var prefix := board[..i];
    sols := [];
    for c := 0 to 9
      invariant board[..i] == prefix
      invariant NoDup(sols)
      invariant forall s :: s in sols <==> IsSolution(doms, floats, s) && s[..i] == prefix && s[i] in Pieces()[..c]
    {
      var v := Pieces()[c];
      assert Pieces()[..c + 1] == Pieces()[..c] + [v];
      assert v !in Pieces()[..c];
      if v in doms[i] && v !in used {
        board[i] := v;
        assert board[..i + 1] == prefix + [v];
        var sub := Backtrack(doms, floats, board, i + 1, used + {v});
        forall s | s in sub ensures s !in sols && s[..i] == prefix && s[i] == v {
          assert s[..i] == s[..i + 1][..i];
        }
        forall s | IsSolution(doms, floats, s) && s[..i] == prefix && s[i] == v ensures s in sub {
          assert s[..i + 1] == s[..i] + [s[i]];
        }
        NoDupConcat(sols, sub);
        sols := sols + sub;
      }
    }
    assert Pieces()[..9] == Pieces();
  }
}
