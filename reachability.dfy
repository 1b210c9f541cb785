/**
 A reference definition of the distances the search computes, independent of the search
 loop. One step from a pattern applies the inverse transformation of one cached move
 (the direction the search uses); `Within(k)` is the set of patterns reachable from the
 start in at most `k` steps, and `Level(d)` the patterns whose distance is exactly `d`.
 Move sequences (`Walk`) tie these sets to shortest move counts.
 */
module Reachability {
  import opened KPuzzle
  import opened MoveCache

  /** The pattern one step from `p` by move `j` of the cached move list. */
  ghost function Neighbour<P, T, M>(puzzle: PackedKPuzzle<P, T, M>, moves: seq<CachedMoveInfo<T, M>>, p: P, j: nat): P
    requires j < |moves|
  {
    puzzle.applyTransformation(p, moves[j].inverseTransformation)
  }

  ghost function Elems<X>(s: seq<X>): set<X>
  {
    set x | x in s
  }

  /** `s` lists exactly the elements of `t` (in some order, possibly with repeats). */
  ghost predicate Lists<X>(s: seq<X>, t: set<X>)
  {
    (forall x :: x in s ==> x in t) && (forall x :: x in t ==> x in s)
  }

  lemma ListsElems<X>(s: seq<X>, t: set<X>)
    requires Lists(s, t)
    ensures Elems(s) == t
  {
  }

  ghost predicate NoDup<X>(s: seq<X>)
  {
    forall a, b :: 0 <= a < b < |s| ==> s[a] != s[b]
  }

  /** The patterns one step from `p` by the first `n` moves. */
  ghost function Successors<P, T, M>(puzzle: PackedKPuzzle<P, T, M>, moves: seq<CachedMoveInfo<T, M>>, p: P, n: nat): set<P>
    requires n <= |moves|
  {
    set j | 0 <= j < n :: Neighbour(puzzle, moves, p, j)
  }

  /** The patterns one step from some pattern of `s`. */
  ghost function Step<P, T, M>(puzzle: PackedKPuzzle<P, T, M>, moves: seq<CachedMoveInfo<T, M>>, s: set<P>): set<P>
  {
    set p, j | p in s && 0 <= j < |moves| :: Neighbour(puzzle, moves, p, j)
  }

  ghost predicate ClosedUnder<P, T, M>(puzzle: PackedKPuzzle<P, T, M>, moves: seq<CachedMoveInfo<T, M>>, s: set<P>)
  {
    forall p, j :: p in s && 0 <= j < |moves| ==> Neighbour(puzzle, moves, p, j) in s
  }

  /** The patterns reachable from `start` in at most `k` steps. */
  ghost function Within<P, T, M>(puzzle: PackedKPuzzle<P, T, M>, moves: seq<CachedMoveInfo<T, M>>, start: P, k: nat): set<P>
  {
    if k == 0 then {start}
    else
      var w := Within(puzzle, moves, start, k - 1);
      w + Step(puzzle, moves, w)
  }

  /** The patterns whose least number of steps from `start` is exactly `d`. */
  ghost function Level<P, T, M>(puzzle: PackedKPuzzle<P, T, M>, moves: seq<CachedMoveInfo<T, M>>, start: P, d: nat): set<P>
  {
    if d == 0 then {start}
    else Within(puzzle, moves, start, d) - Within(puzzle, moves, start, d - 1)
  }

  /** A sequence of indices into the cached move list. */
  ghost predicate IsPath<T, M>(moves: seq<CachedMoveInfo<T, M>>, path: seq<nat>)
  {
    forall i :: 0 <= i < |path| ==> path[i] < |moves|
  }

  /** The pattern reached from `start` by taking the steps of `path` in order. */
  ghost function Walk<P, T, M>(puzzle: PackedKPuzzle<P, T, M>, moves: seq<CachedMoveInfo<T, M>>, start: P, path: seq<nat>): P
    requires IsPath(moves, path)
    decreases |path|
  {
    if path == [] then start
    else Neighbour(puzzle, moves, Walk(puzzle, moves, start, path[..|path| - 1]), path[|path| - 1])
  }

  lemma StepUnion<P, T, M>(puzzle: PackedKPuzzle<P, T, M>, moves: seq<CachedMoveInfo<T, M>>, a: set<P>, b: set<P>)
    ensures Step(puzzle, moves, a + b) == Step(puzzle, moves, a) + Step(puzzle, moves, b)
  {
  }

  /** Extending a prefix of a frontier by one pattern adds exactly that pattern's successors. */
  lemma StepSnoc<P, T, M>(puzzle: PackedKPuzzle<P, T, M>, moves: seq<CachedMoveInfo<T, M>>, f: seq<P>, i: nat)
    requires i < |f|
    ensures Step(puzzle, moves, Elems(f[..i + 1])) ==
            Step(puzzle, moves, Elems(f[..i])) + Successors(puzzle, moves, f[i], |moves|)
  {
    assert Elems(f[..i + 1]) == Elems(f[..i]) + {f[i]} by {
      assert f[..i + 1] == f[..i] + [f[i]];
    }
    StepUnion(puzzle, moves, Elems(f[..i]), {f[i]});
  }

  lemma SuccessorsSnoc<P, T, M>(puzzle: PackedKPuzzle<P, T, M>, moves: seq<CachedMoveInfo<T, M>>, p: P, j: nat)
    requires j < |moves|
    ensures Successors(puzzle, moves, p, j + 1) == Successors(puzzle, moves, p, j) + {Neighbour(puzzle, moves, p, j)}
  {
  }

  lemma {:induction false} WithinMono<P, T, M>(puzzle: PackedKPuzzle<P, T, M>, moves: seq<CachedMoveInfo<T, M>>, start: P, k1: nat, k2: nat)
    requires k1 <= k2
    ensures Within(puzzle, moves, start, k1) <= Within(puzzle, moves, start, k2)
    decreases k2
  {
    if k1 < k2 {
      WithinMono(puzzle, moves, start, k1, k2 - 1);
    }
  }

  /**
   The next level is what one step from the current level reaches and is not already
   within the current distance: this is what one BFS expansion computes.
   */
  lemma NextLevel<P, T, M>(puzzle: PackedKPuzzle<P, T, M>, moves: seq<CachedMoveInfo<T, M>>, start: P, k: nat)
    ensures Level(puzzle, moves, start, k + 1) ==
            Step(puzzle, moves, Level(puzzle, moves, start, k)) - Within(puzzle, moves, start, k)
  {
    if k > 0 {
      var prev := Within(puzzle, moves, start, k - 1);
      var cur := Within(puzzle, moves, start, k);
      var lev := Level(puzzle, moves, start, k);
      assert cur == prev + lev;
      StepUnion(puzzle, moves, prev, lev);
      assert Step(puzzle, moves, prev) <= cur;
    }
  }

  /** A pattern has at most one distance. */
  lemma LevelsDisjoint<P, T, M>(puzzle: PackedKPuzzle<P, T, M>, moves: seq<CachedMoveInfo<T, M>>, start: P, d1: nat, d2: nat)
    requires d1 < d2
    ensures Level(puzzle, moves, start, d1) !! Level(puzzle, moves, start, d2)
  {
    WithinMono(puzzle, moves, start, d1, d2 - 1);
  }

  /** A pattern within k steps has a distance of at most k. */
  lemma {:induction false} WithinLevel<P, T, M>(puzzle: PackedKPuzzle<P, T, M>, moves: seq<CachedMoveInfo<T, M>>, start: P, k: nat, q: P)
    requires q in Within(puzzle, moves, start, k)
    ensures exists d: nat :: d <= k && q in Level(puzzle, moves, start, d)
  {
    if k == 0 {
      assert q in Level(puzzle, moves, start, 0);
    } else if q in Within(puzzle, moves, start, k - 1) {
      WithinLevel(puzzle, moves, start, k - 1, q);
    } else {
      assert q in Level(puzzle, moves, start, k);
    }
  }

  /** Every set that holds the start and is closed under the moves holds everything reachable. */
  lemma {:induction false} WithinInClosed<P, T, M>(puzzle: PackedKPuzzle<P, T, M>, moves: seq<CachedMoveInfo<T, M>>, start: P, s: set<P>, k: nat)
    requires start in s && ClosedUnder(puzzle, moves, s)
    ensures Within(puzzle, moves, start, k) <= s
  {
    if k > 0 {
      WithinInClosed(puzzle, moves, start, s, k - 1);
    }
  }

  /** When a level adds nothing, the patterns found so far are closed under every move. */
  lemma NoNewMeansClosed<P, T, M>(puzzle: PackedKPuzzle<P, T, M>, moves: seq<CachedMoveInfo<T, M>>, start: P, n: nat)
    requires Level(puzzle, moves, start, n + 1) == {}
    ensures ClosedUnder(puzzle, moves, Within(puzzle, moves, start, n))
  {
    var w := Within(puzzle, moves, start, n);
    forall p, j | p in w && 0 <= j < |moves|
      ensures Neighbour(puzzle, moves, p, j) in w
    {
      assert Neighbour(puzzle, moves, p, j) in Step(puzzle, moves, w);
      assert Neighbour(puzzle, moves, p, j) in Within(puzzle, moves, start, n + 1);
      assert Neighbour(puzzle, moves, p, j) !in Level(puzzle, moves, start, n + 1);
    }
  }

  /** Every pattern at distance d + 1 is one step from some pattern at distance d. */
  lemma LevelParent<P, T, M>(puzzle: PackedKPuzzle<P, T, M>, moves: seq<CachedMoveInfo<T, M>>, start: P, d: nat, q: P)
    requires q in Level(puzzle, moves, start, d + 1)
    ensures exists p, j :: p in Level(puzzle, moves, start, d) && 0 <= j < |moves| && q == Neighbour(puzzle, moves, p, j)
  {
    NextLevel(puzzle, moves, start, d);
  }

  /** Taking the steps of a path never leaves the patterns within the path's length. */
  lemma {:induction false} PathInWithin<P, T, M>(puzzle: PackedKPuzzle<P, T, M>, moves: seq<CachedMoveInfo<T, M>>, start: P, path: seq<nat>)
    requires IsPath(moves, path)
    ensures Walk(puzzle, moves, start, path) in Within(puzzle, moves, start, |path|)
    decreases |path|
  {
    if path != [] {
      var prefix := path[..|path| - 1];
      PathInWithin(puzzle, moves, start, prefix);
      var w := Within(puzzle, moves, start, |prefix|);
      assert Neighbour(puzzle, moves, Walk(puzzle, moves, start, prefix), path[|path| - 1]) in Step(puzzle, moves, w);
    }
  }

  /** Every pattern within distance k is reached by some path of at most k steps. */
  lemma {:induction false} WithinHasPath<P, T, M>(puzzle: PackedKPuzzle<P, T, M>, moves: seq<CachedMoveInfo<T, M>>, start: P, k: nat, q: P)
    requires q in Within(puzzle, moves, start, k)
    ensures exists path :: IsPath(moves, path) && |path| <= k && Walk(puzzle, moves, start, path) == q
  {
    if k == 0 {
      assert Walk(puzzle, moves, start, []) == q;
    } else {
      var w := Within(puzzle, moves, start, k - 1);
      if q in w {
        WithinHasPath(puzzle, moves, start, k - 1, q);
      } else {
        var p, j :| p in w && 0 <= j < |moves| && q == Neighbour(puzzle, moves, p, j);
        WithinHasPath(puzzle, moves, start, k - 1, p);
        var path: seq<nat> :| IsPath(moves, path) && |path| <= k - 1 && Walk(puzzle, moves, start, path) == p;
        var longer := path + [j];
        assert longer[..|longer| - 1] == path;
        assert Walk(puzzle, moves, start, longer) == q;
      }
    }
  }

  /** A pattern at distance d is reached in d steps and by no shorter path. */
  lemma LevelIsShortest<P, T, M>(puzzle: PackedKPuzzle<P, T, M>, moves: seq<CachedMoveInfo<T, M>>, start: P, d: nat, q: P)
    requires q in Level(puzzle, moves, start, d)
    ensures exists path :: IsPath(moves, path) && |path| == d && Walk(puzzle, moves, start, path) == q
    ensures forall path :: IsPath(moves, path) && Walk(puzzle, moves, start, path) == q ==> d <= |path|
  {
    forall path | IsPath(moves, path) && Walk(puzzle, moves, start, path) == q
      ensures d <= |path|
    {
      PathInWithin(puzzle, moves, start, path);
      if |path| < d {
        WithinMono(puzzle, moves, start, |path|, d - 1);
      }
    }
    WithinHasPath(puzzle, moves, start, d, q);
  }

  /**
   God's-algorithm correctness of a finished table: when its keys are the patterns within
   n steps, that set is closed under every move, and every entry records its pattern's
   level, then every path's end is in the table with a depth no greater than the path's
   length, and every entry's depth is the length of some path to it.
   */
  lemma ShortestPaths<P, T, M>(puzzle: PackedKPuzzle<P, T, M>, moves: seq<CachedMoveInfo<T, M>>, start: P, table: map<P, nat>, n: nat)
    requires table.Keys == Within(puzzle, moves, start, n)
    requires ClosedUnder(puzzle, moves, table.Keys)
    requires forall q :: q in table ==> q in Level(puzzle, moves, start, table[q])
    ensures forall path :: IsPath(moves, path) ==>
              var q := Walk(puzzle, moves, start, path);
              q in table && table[q] <= |path|
    ensures forall q :: q in table ==>
              exists path :: IsPath(moves, path) && |path| == table[q] && Walk(puzzle, moves, start, path) == q
  {
    WithinMono(puzzle, moves, start, 0, n);
    forall path | IsPath(moves, path)
      ensures Walk(puzzle, moves, start, path) in table
      ensures table[Walk(puzzle, moves, start, path)] <= |path|
    {
      var q := Walk(puzzle, moves, start, path);
      PathInWithin(puzzle, moves, start, path);
      WithinInClosed(puzzle, moves, start, table.Keys, |path|);
      LevelIsShortest(puzzle, moves, start, table[q], q);
    }
    forall q | q in table
      ensures exists path :: IsPath(moves, path) && |path| == table[q] && Walk(puzzle, moves, start, path) == q
    {
      LevelIsShortest(puzzle, moves, start, table[q], q);
    }
  }

  /**
   In a finished table no move takes a pattern more than one level further from the
   start: the neighbour of an entry at depth d is an entry at depth at most d + 1.
   */
  lemma NeighbourDepth<P, T, M>(puzzle: PackedKPuzzle<P, T, M>, moves: seq<CachedMoveInfo<T, M>>, start: P, table: map<P, nat>, n: nat, q: P, j: nat)
    requires table.Keys == Within(puzzle, moves, start, n)
    requires ClosedUnder(puzzle, moves, table.Keys)
    requires forall q :: q in table ==> q in Level(puzzle, moves, start, table[q])
    requires q in table && j < |moves|
    ensures Neighbour(puzzle, moves, q, j) in table
    ensures table[Neighbour(puzzle, moves, q, j)] <= table[q] + 1
  {
    ShortestPaths(puzzle, moves, start, table, n);
    var path: seq<nat> :| IsPath(moves, path) && |path| == table[q] && Walk(puzzle, moves, start, path) == q;
    var longer := path + [j];
    assert longer[..|longer| - 1] == path;
    assert IsPath(moves, longer);
    assert Walk(puzzle, moves, start, longer) == Neighbour(puzzle, moves, q, j);
  }
}
