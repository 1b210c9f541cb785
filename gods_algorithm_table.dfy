/**
 The breadth-first "God's algorithm" table builder: a search seeds depth 0 with its start
 pattern and then expands the most recent frontier level by level, recording the depth at
 which every pattern is first found, until a level finds nothing new.
 */
module GodsAlgorithm {
  import opened Wrappers
  import opened KPuzzle
  import opened MoveCache
  import opened Reachability

  /** The depth table: each pattern found, with the depth of its first discovery. */
  class GodsAlgorithmTable<P(==)> {
    var completed: bool
    var patternToDepth: map<P, nat>

    constructor ()
      ensures !completed && patternToDepth == map[]
    {
      completed := false;
      patternToDepth := map[];
    }
  }

  /** Sum of the sizes of a list of frontiers. */
  ghost function TotalSize<P>(frontiers: seq<seq<P>>): nat
  {
    if frontiers == [] then 0
    else TotalSize(frontiers[..|frontiers| - 1]) + |frontiers[|frontiers| - 1]|
  }

  /**
   The state of the search after `|frontiers| - 1` expansions: the table's keys are the
   patterns within that many steps, frontier d lists the patterns of level d, each once,
   and the table records depth d for each of them.
   */
  ghost predicate Explored<P, T, M>(puzzle: PackedKPuzzle<P, T, M>, moves: seq<CachedMoveInfo<T, M>>, start: P,
                                    table: map<P, nat>, frontiers: seq<seq<P>>)
  {
    && |frontiers| > 0
    && table.Keys == Within(puzzle, moves, start, |frontiers| - 1)
    && LevelsListed(puzzle, moves, start, frontiers)
    && FrontierDepths(table, frontiers)
  }

  /** Frontier d lists the patterns of level d, each once. */
  ghost predicate LevelsListed<P, T, M>(puzzle: PackedKPuzzle<P, T, M>, moves: seq<CachedMoveInfo<T, M>>, start: P,
                                        frontiers: seq<seq<P>>)
  {
    forall d :: 0 <= d < |frontiers| ==> NoDup(frontiers[d]) && Lists(frontiers[d], Level(puzzle, moves, start, d))
  }

  /** The table records depth d for each pattern of frontier d. */
  ghost predicate FrontierDepths<P>(table: map<P, nat>, frontiers: seq<seq<P>>)
  {
    forall d, q :: 0 <= d < |frontiers| && q in frontiers[d] ==> q in table && table[q] == d
  }

  /** Seeding: the start pattern at depth 0, alone in frontier 0. */
  lemma ExploredSeed<P, T, M>(puzzle: PackedKPuzzle<P, T, M>, moves: seq<CachedMoveInfo<T, M>>, start: P)
    ensures Explored(puzzle, moves, start, map[start := 0], [[start]])
  {
  }

  /**
   `after` is `before` plus the patterns of `found`, each listed once and recorded at
   `depth`, and `found` lists exactly the patterns of `tried` that `before` lacked.
   */
  ghost predicate Recorded<P>(before: map<P, nat>, after: map<P, nat>, found: seq<P>, tried: set<P>, depth: nat)
  {
    && (forall q :: q in found ==> q in tried && q !in before)
    && (forall q :: q in tried && q !in before ==> q in found)
    && NoDup(found)
    && before.Keys <= after.Keys
    && (forall q :: q in after ==> q in before || q in found)
    && (forall q :: q in found ==> q in after && after[q] == depth)
    && (forall q :: q in before ==> after[q] == before[q])
    && |after| == |before| + |found|
  }

  /**
   Trying one more candidate: one already in the table changes nothing; a new one is
   appended to the frontier and recorded at the depth being filled.
   */
  lemma RecordedStep<P>(before: map<P, nat>, after: map<P, nat>, found: seq<P>, tried: set<P>, depth: nat, x: P)
    requires Recorded(before, after, found, tried, depth)
    ensures x in after ==> Recorded(before, after, found, tried + {x}, depth)
    ensures x !in after ==> Recorded(before, after[x := depth], found + [x], tried + {x}, depth)
  {
  }

  /**
   One expansion keeps the invariant: if the new frontier lists, once each, the one-step
   successors of the last frontier that the table did not hold, and the table gains
   exactly those at the next depth, the state is that of one more expansion.
   */
  lemma ExploredExtend<P, T, M>(puzzle: PackedKPuzzle<P, T, M>, moves: seq<CachedMoveInfo<T, M>>, start: P,
                                table: map<P, nat>, frontiers: seq<seq<P>>, table': map<P, nat>, found: seq<P>)
    requires Explored(puzzle, moves, start, table, frontiers)
    requires Recorded(table, table', found, Step(puzzle, moves, Elems(frontiers[|frontiers| - 1])), |frontiers|)
    ensures Explored(puzzle, moves, start, table', frontiers + [found])
  {
    FoundNextLevel(puzzle, moves, start, table, frontiers, table', found);
    LevelsAfterPush(puzzle, moves, start, frontiers, found);
    DepthsAfterPush(table, table', frontiers, found);
  }

  /** A table that keeps its old entries and records the pushed frontier at its depth keeps the frontier depths. */
  lemma DepthsAfterPush<P>(table: map<P, nat>, table': map<P, nat>, frontiers: seq<seq<P>>, found: seq<P>)
    requires FrontierDepths(table, frontiers)
    requires forall q :: q in table ==> q in table' && table'[q] == table[q]
    requires forall q :: q in found ==> q in table' && table'[q] == |frontiers|
    ensures FrontierDepths(table', frontiers + [found])
  {
    var fs := frontiers + [found];
    forall d, q | 0 <= d < |fs| && q in fs[d]
      ensures q in table' && table'[q] == d
    {
      if d < |frontiers| {
        assert fs[d] == frontiers[d];
      }
    }
  }

  /** Pushing a duplicate-free listing of the next level keeps every frontier a listing of its level. */
  lemma LevelsAfterPush<P, T, M>(puzzle: PackedKPuzzle<P, T, M>, moves: seq<CachedMoveInfo<T, M>>, start: P,
                                 frontiers: seq<seq<P>>, found: seq<P>)
    requires LevelsListed(puzzle, moves, start, frontiers)
    requires NoDup(found) && Lists(found, Level(puzzle, moves, start, |frontiers|))
    ensures LevelsListed(puzzle, moves, start, frontiers + [found])
  {
    var fs := frontiers + [found];
    forall d | 0 <= d < |fs|
      ensures NoDup(fs[d]) && Lists(fs[d], Level(puzzle, moves, start, d))
    {
      if d < |frontiers| {
        assert fs[d] == frontiers[d];
      }
    }
  }

  /** The patterns an expansion finds are the next level, and the table grows to the next radius. */
  lemma FoundNextLevel<P, T, M>(puzzle: PackedKPuzzle<P, T, M>, moves: seq<CachedMoveInfo<T, M>>, start: P,
                                table: map<P, nat>, frontiers: seq<seq<P>>, table': map<P, nat>, found: seq<P>)
    requires Explored(puzzle, moves, start, table, frontiers)
    requires Recorded(table, table', found, Step(puzzle, moves, Elems(frontiers[|frontiers| - 1])), |frontiers|)
    ensures Lists(found, Level(puzzle, moves, start, |frontiers|))
    ensures table'.Keys == Within(puzzle, moves, start, |frontiers|)
  {
    var c := |frontiers| - 1;
    var next := Level(puzzle, moves, start, c + 1);
    FoundIsNextLevel(puzzle, moves, start, c, frontiers[c], table, table', found);
    ListsElems(found, next);
    RecordedKeys(table, table', found, Step(puzzle, moves, Elems(frontiers[c])), c + 1);
    WithinMono(puzzle, moves, start, c, c + 1);
    assert Within(puzzle, moves, start, c + 1) == Within(puzzle, moves, start, c) + next;
  }

  /** Recording adds exactly the listed patterns to the table's keys. */
  lemma RecordedKeys<P>(before: map<P, nat>, after: map<P, nat>, found: seq<P>, tried: set<P>, depth: nat)
    requires Recorded(before, after, found, tried, depth)
    ensures after.Keys == before.Keys + Elems(found)
  {
  }

  /**
   What an expansion of level c finds (the one-step successors of the level that the
   table, holding everything within c steps, lacked) is exactly level c + 1.
   */
  lemma FoundIsNextLevel<P, T, M>(puzzle: PackedKPuzzle<P, T, M>, moves: seq<CachedMoveInfo<T, M>>, start: P, c: nat,
                                  last: seq<P>, table: map<P, nat>, table': map<P, nat>, found: seq<P>)
    requires Lists(last, Level(puzzle, moves, start, c)) && table.Keys == Within(puzzle, moves, start, c)
    requires Recorded(table, table', found, Step(puzzle, moves, Elems(last)), c + 1)
    ensures Lists(found, Level(puzzle, moves, start, c + 1))
  {
    ListsElems(last, Level(puzzle, moves, start, c));
    NextLevel(puzzle, moves, start, c);
  }

  /** In an explored state frontier d holds exactly the table's depth-d entries. */
  lemma ExploredFrontiers<P, T, M>(puzzle: PackedKPuzzle<P, T, M>, moves: seq<CachedMoveInfo<T, M>>, start: P,
                                   table: map<P, nat>, frontiers: seq<seq<P>>)
    requires Explored(puzzle, moves, start, table, frontiers)
    ensures DepthsListed(table, frontiers)
  {
    forall d, q | 0 <= d < |frontiers| && q in table && table[q] == d
      ensures q in frontiers[d]
    {
      EntryLevel(puzzle, moves, start, table, frontiers, q);
    }
  }

  /** Every entry of an explored state sits in the frontier of its depth, at its level. */
  lemma EntryLevel<P, T, M>(puzzle: PackedKPuzzle<P, T, M>, moves: seq<CachedMoveInfo<T, M>>, start: P,
                            table: map<P, nat>, frontiers: seq<seq<P>>, q: P)
    requires Explored(puzzle, moves, start, table, frontiers)
    requires q in table
    ensures table[q] < |frontiers| && q in frontiers[table[q]]
    ensures q in Level(puzzle, moves, start, table[q])
  {
    WithinLevel(puzzle, moves, start, |frontiers| - 1, q);
    var d: nat :| d <= |frontiers| - 1 && q in Level(puzzle, moves, start, d);
    assert q in frontiers[d];
  }

  /** No pattern is in two frontiers of an explored state. */
  lemma FrontiersDisjoint<P, T, M>(puzzle: PackedKPuzzle<P, T, M>, moves: seq<CachedMoveInfo<T, M>>, start: P,
                                   table: map<P, nat>, frontiers: seq<seq<P>>)
    requires Explored(puzzle, moves, start, table, frontiers)
    ensures SeparateFrontiers(frontiers)
  {
    ExploredFrontiers(puzzle, moves, start, table, frontiers);
    forall d1, d2, q | 0 <= d1 < d2 < |frontiers| && q in frontiers[d1]
      ensures q !in frontiers[d2]
    {
      assert table[q] == d1;
    }
  }

  /** `q` is one step from some pattern of frontier d - 1. */
  ghost predicate HasParentIn<P, T, M>(puzzle: PackedKPuzzle<P, T, M>, moves: seq<CachedMoveInfo<T, M>>, q: P,
                                       frontiers: seq<seq<P>>, d: nat)
    requires 0 < d < |frontiers|
  {
    exists p, j :: p in frontiers[d - 1] && 0 <= j < |moves| && q == Neighbour(puzzle, moves, p, j)
  }

  /** Every pattern of frontier d > 0 is one step from a pattern of frontier d - 1. */
  lemma ExploredParents<P, T, M>(puzzle: PackedKPuzzle<P, T, M>, moves: seq<CachedMoveInfo<T, M>>, start: P,
                                 table: map<P, nat>, frontiers: seq<seq<P>>)
    requires Explored(puzzle, moves, start, table, frontiers)
    ensures ParentsIn(puzzle, moves, frontiers)
  {
    forall d, q | 0 < d < |frontiers| && q in frontiers[d]
      ensures HasParentIn(puzzle, moves, q, frontiers, d)
    {
      assert q in Elems(frontiers[d]);
      LevelParent(puzzle, moves, start, d - 1, q);
      var p, j :| p in Level(puzzle, moves, start, d - 1) && 0 <= j < |moves| && q == Neighbour(puzzle, moves, p, j);
      assert p in Elems(frontiers[d - 1]);
    }
  }

  /**
   When the last expansion found nothing, the table holds exactly the patterns within
   n = |frontiers| - 2 steps and that set is closed under every move.
   */
  lemma ExploredCompleted<P, T, M>(puzzle: PackedKPuzzle<P, T, M>, moves: seq<CachedMoveInfo<T, M>>, start: P,
                                   table: map<P, nat>, frontiers: seq<seq<P>>)
    requires Explored(puzzle, moves, start, table, frontiers)
    requires |frontiers| >= 2 && frontiers[|frontiers| - 1] == []
    ensures table.Keys == Within(puzzle, moves, start, |frontiers| - 2)
    ensures ClosedUnder(puzzle, moves, table.Keys)
  {
    var n := |frontiers| - 2;
    assert Elems(frontiers[n + 1]) == {};
    WithinMono(puzzle, moves, start, n, n + 1);
    NoNewMeansClosed(puzzle, moves, start, n);
  }

  /**
   When the last expansion found nothing and the one before it found something, the
   largest depth in the table is n = |frontiers| - 2.
   */
  lemma CompletedMaxDepth<P, T, M>(puzzle: PackedKPuzzle<P, T, M>, moves: seq<CachedMoveInfo<T, M>>, start: P,
                                   table: map<P, nat>, frontiers: seq<seq<P>>)
    requires Explored(puzzle, moves, start, table, frontiers)
    requires |frontiers| >= 2 && frontiers[|frontiers| - 1] == []
    requires frontiers[|frontiers| - 2] != []
    ensures forall q :: q in table ==> table[q] <= |frontiers| - 2
    ensures exists q :: q in table && table[q] == |frontiers| - 2
  {
    var n := |frontiers| - 2;
    forall q | q in table
      ensures table[q] <= n
    {
      EntryLevel(puzzle, moves, start, table, frontiers, q);
    }
    var last := frontiers[n][0];
    assert last in frontiers[n];
  }

  /** A pattern of level d (d < |frontiers|) is in the table at depth d. */
  lemma LevelsAreDepths<P, T, M>(puzzle: PackedKPuzzle<P, T, M>, moves: seq<CachedMoveInfo<T, M>>, start: P,
                                 table: map<P, nat>, frontiers: seq<seq<P>>, d: nat, q: P)
    requires Explored(puzzle, moves, start, table, frontiers)
    requires d < |frontiers| && q in Level(puzzle, moves, start, d)
    ensures q in table && table[q] == d
  {
    assert q in frontiers[d];
  }

  /**
   Frontier d holds exactly the table's depth-d entries, and each pattern of a later
   frontier is one step from a pattern of the frontier before it.
   */
  ghost predicate FrontierHistory<P, T, M>(puzzle: PackedKPuzzle<P, T, M>, moves: seq<CachedMoveInfo<T, M>>,
                                           table: map<P, nat>, frontiers: seq<seq<P>>)
  {
    DepthsListed(table, frontiers) && SeparateFrontiers(frontiers) && ParentsIn(puzzle, moves, frontiers)
  }

  /** Frontier d holds exactly the table's depth-d entries. */
  ghost predicate DepthsListed<P>(table: map<P, nat>, frontiers: seq<seq<P>>)
  {
    && (forall d, q :: 0 <= d < |frontiers| && q in frontiers[d] ==> q in table && table[q] == d)
    && (forall d, q :: 0 <= d < |frontiers| && q in table && table[q] == d ==> q in frontiers[d])
  }

  /** No pattern is in two frontiers. */
  ghost predicate SeparateFrontiers<P>(frontiers: seq<seq<P>>)
  {
    forall d1, d2, q :: 0 <= d1 < d2 < |frontiers| && q in frontiers[d1] ==> q !in frontiers[d2]
  }

  /** Every pattern of frontier d > 0 is one step from a pattern of frontier d - 1. */
  ghost predicate ParentsIn<P, T, M>(puzzle: PackedKPuzzle<P, T, M>, moves: seq<CachedMoveInfo<T, M>>, frontiers: seq<seq<P>>)
  {
    forall d, q :: 0 < d < |frontiers| && q in frontiers[d] ==> HasParentIn(puzzle, moves, q, frontiers, d)
  }

  /**
   A finished God's algorithm table with maximum depth `maxDepth`: it holds the start at
   depth 0 and exactly the patterns within `maxDepth` steps, is closed under every move,
   attains `maxDepth`, and records for each pattern the least number of moves reaching it.
   */
  ghost predicate GodsTable<P, T, M>(puzzle: PackedKPuzzle<P, T, M>, moves: seq<CachedMoveInfo<T, M>>, start: P,
                                     table: map<P, nat>, maxDepth: nat)
  {
    && start in table && table[start] == 0
    && table.Keys == Within(puzzle, moves, start, maxDepth)
    && ClosedUnder(puzzle, moves, table.Keys)
    && (forall q :: q in table ==> table[q] <= maxDepth)
    && (exists q :: q in table && table[q] == maxDepth)
    && (forall path :: IsPath(moves, path) ==>
          var q := Walk(puzzle, moves, start, path);
          q in table && table[q] <= |path|)
    && (forall q :: q in table ==>
          exists path :: IsPath(moves, path) && |path| == table[q] && Walk(puzzle, moves, start, path) == q)
  }

  /** The frontier bookkeeping of an explored state. */
  lemma ExploredHistory<P, T, M>(puzzle: PackedKPuzzle<P, T, M>, moves: seq<CachedMoveInfo<T, M>>, start: P,
                                 table: map<P, nat>, frontiers: seq<seq<P>>)
    requires Explored(puzzle, moves, start, table, frontiers)
    ensures FrontierHistory(puzzle, moves, table, frontiers)
  {
    ExploredFrontiers(puzzle, moves, start, table, frontiers);
    ExploredParents(puzzle, moves, start, table, frontiers);
    FrontiersDisjoint(puzzle, moves, start, table, frontiers);
  }

  /** The table of a completed explored state. */
  lemma CompletedTable<P, T, M>(puzzle: PackedKPuzzle<P, T, M>, moves: seq<CachedMoveInfo<T, M>>, start: P,
                                table: map<P, nat>, frontiers: seq<seq<P>>)
    requires Explored(puzzle, moves, start, table, frontiers)
    requires |frontiers| >= 2 && frontiers[|frontiers| - 1] == []
    requires frontiers[|frontiers| - 2] != []
    ensures GodsTable(puzzle, moves, start, table, |frontiers| - 2)
  {
    var n := |frontiers| - 2;
    ExploredCompleted(puzzle, moves, start, table, frontiers);
    CompletedMaxDepth(puzzle, moves, start, table, frontiers);
    forall q | q in table
      ensures q in Level(puzzle, moves, start, table[q])
    {
      EntryLevel(puzzle, moves, start, table, frontiers, q);
    }
    ShortestPaths(puzzle, moves, start, table, n);
    LevelsAreDepths(puzzle, moves, start, table, frontiers, 0, start);
  }

  /** The search: its parameters, the depth table and one frontier slot per depth. */
  class GodsAlgorithmSearch<P(==), T, M> {
    const puzzle: PackedKPuzzle<P, T, M>
    const startPattern: Option<P>
    const cachedMoveInfoList: seq<CachedMoveInfo<T, M>>
    const table: GodsAlgorithmTable<P>
    var bulkQueues: seq<seq<P>>

    constructor (puzzle: PackedKPuzzle<P, T, M>, startPattern: Option<P>, cachedMoveInfoList: seq<CachedMoveInfo<T, M>>)
      ensures this.puzzle == puzzle && this.startPattern == startPattern
      ensures this.cachedMoveInfoList == cachedMoveInfoList
      ensures fresh(table) && Unfilled()
    {
      this.puzzle := puzzle;
      this.startPattern := startPattern;
      this.cachedMoveInfoList := cachedMoveInfoList;
      table := new GodsAlgorithmTable();
      bulkQueues := [];
    }

    /**
     Builds a search, or fails with the description of the first move that cannot be
     cached; no search exists then.
     */
    static method TryNew(puzzle: PackedKPuzzle<P, T, M>, startPattern: Option<P>, moveList: seq<M>)
      returns (r: Result<GodsAlgorithmSearch<P, T, M>, string>)
      ensures r.Success? <==> TryNewAll(puzzle, moveList).Success?
      ensures r.Failure? ==> r.error == TryNewAll(puzzle, moveList).error.ToString()
      ensures r.Success? ==>
                && fresh(r.value) && fresh(r.value.table)
                && r.value.puzzle == puzzle && r.value.startPattern == startPattern
                && r.value.cachedMoveInfoList == TryNewAll(puzzle, moveList).value
                && r.value.Unfilled()
    {
      match TryNewAll(puzzle, moveList)
      case Failure(e) =>
        r := Failure(e.ToString());
      case Success(moves) =>
        var search := new GodsAlgorithmSearch(puzzle, startPattern, moves);
        r := Success(search);
    }

    /** The start pattern: the explicit one, or the puzzle's default when none is given. */
    function StartPattern(): (r: P)
      ensures startPattern == Some(r) || (startPattern == None && r == puzzle.defaultPattern)
    {
      match startPattern
      case Some(p) => p
      case None => puzzle.defaultPattern
    }

    /** The state a search is built in: an empty, incomplete table and no frontiers. */
    ghost predicate Unfilled()
      reads this, table
    {
      !table.completed && table.patternToDepth == map[] && bulkQueues == []
    }

    /**
     Expands one frontier: tries every move on every pattern, in order, and records each
     result the table does not hold yet at `currentDepth`, appending it to the new
     frontier. Returns the new frontier and the number of (pattern, move) pairs tried.
     */
    method ExpandFrontier(lastDepthPatterns: seq<P>, currentDepth: nat) returns (patternsAtCurrentDepth: seq<P>, numTested: nat)
      modifies table
      ensures table.completed == old(table.completed)
      ensures numTested == |lastDepthPatterns| * |cachedMoveInfoList|
      ensures Recorded(old(table.patternToDepth), table.patternToDepth, patternsAtCurrentDepth,
                       Step(puzzle, cachedMoveInfoList, Elems(lastDepthPatterns)), currentDepth)
    {
      var moves := cachedMoveInfoList;
      var numToTestAtCurrentDepth := |lastDepthPatterns| * |moves|;
      numTested := 0;
      patternsAtCurrentDepth := [];
      ghost var before := table.patternToDepth;
      assert Step(puzzle, moves, Elems(lastDepthPatterns[..0])) == {};
      // The frontier's chunks together yield its patterns once each, in insertion order.
      var i := 0;
      while i < |lastDepthPatterns|
        invariant 0 <= i <= |lastDepthPatterns|
        invariant numTested == i * |moves|
        invariant table.completed == old(table.completed)
        invariant Recorded(before, table.patternToDepth, patternsAtCurrentDepth,
                           Step(puzzle, moves, Elems(lastDepthPatterns[..i])), currentDepth)
      {
        var pattern := lastDepthPatterns[i];
        ghost var done := Step(puzzle, moves, Elems(lastDepthPatterns[..i]));
        MulStep(i, |lastDepthPatterns|, |moves|);
        assert done + Successors(puzzle, moves, pattern, 0) == done;
        var j := 0;
        while j < |moves|
          invariant 0 <= j <= |moves|
          invariant numTested == i * |moves| + j
          invariant table.completed == old(table.completed)
          invariant Recorded(before, table.patternToDepth, patternsAtCurrentDepth,
                             done + Successors(puzzle, moves, pattern, j), currentDepth)
        {
          var moveInfo := moves[j];
          numTested := numTested + 1;
          var newPattern := puzzle.applyTransformation(pattern, moveInfo.inverseTransformation);
          SuccessorsSnoc(puzzle, moves, pattern, j);
          RecordedStep(before, table.patternToDepth, patternsAtCurrentDepth,
                       done + Successors(puzzle, moves, pattern, j), currentDepth, newPattern);
          if newPattern !in table.patternToDepth {
            patternsAtCurrentDepth := patternsAtCurrentDepth + [newPattern];
            table.patternToDepth := table.patternToDepth[newPattern := currentDepth];
            if numTested % 1000 == 0 {
              // The "remaining candidates" figure of the progress message.
              var remainingCandidates: nat := numToTestAtCurrentDepth - numTested;
            }
          }
          j := j + 1;
        }
        StepSnoc(puzzle, moves, lastDepthPatterns, i);
        i := i + 1;
      }
      assert lastDepthPatterns[..i] == lastDepthPatterns;
    }

    /**
     The loop state after `currentDepth` expansions: the frontier slots, the explored
     table, the running total and the bound the universe puts on the table.
     */
    ghost predicate Searching(frontiers: seq<seq<P>>, currentDepth: nat, numPatternsTotal: nat, universe: set<P>)
      reads this, table
    {
      && QueueSlots(bulkQueues, frontiers, currentDepth)
      && frontiers[0] == [StartPattern()]
      && (table.completed <==> frontiers[currentDepth] == [])
      && Explored(puzzle, cachedMoveInfoList, StartPattern(), table.patternToDepth, frontiers)
      && numPatternsTotal == |table.patternToDepth| == TotalSize(frontiers)
      && |table.patternToDepth| <= |universe|
    }

    /**
     One round of the search loop: retires the latest frontier's slot, expands that
     frontier at the next depth, pushes the new frontier, and marks the table completed
     when the new frontier is empty.
     */
    method NextDepth(currentDepth: nat, ghost frontiers: seq<seq<P>>, numPatternsTotal: nat, ghost universe: set<P>)
      returns (patternsAtNextDepth: seq<P>)
      requires Searching(frontiers, currentDepth, numPatternsTotal, universe) && !table.completed
      requires StartPattern() in universe && ClosedUnder(puzzle, cachedMoveInfoList, universe)
      modifies this, table
      ensures Searching(frontiers + [patternsAtNextDepth], currentDepth + 1, numPatternsTotal + |patternsAtNextDepth|, universe)
      ensures |table.patternToDepth| == old(|table.patternToDepth|) + |patternsAtNextDepth|
      ensures table.completed <==> patternsAtNextDepth == []
    {
      ghost var queues := bulkQueues;
      var lastDepthPatterns := bulkQueues[currentDepth];
      bulkQueues := bulkQueues[currentDepth := []];
      ghost var before := table.patternToDepth;
      var numTested;
      patternsAtNextDepth, numTested := ExpandFrontier(lastDepthPatterns, currentDepth + 1);
      ExploredExtend(puzzle, cachedMoveInfoList, StartPattern(), before, frontiers, table.patternToDepth, patternsAtNextDepth);
      QueuesAfterPush(queues, frontiers, currentDepth, patternsAtNextDepth);
      bulkQueues := bulkQueues + [patternsAtNextDepth];
      TableInUniverse(puzzle, cachedMoveInfoList, StartPattern(), universe, table.patternToDepth, frontiers + [patternsAtNextDepth]);
      TotalSizeSnoc(frontiers, patternsAtNextDepth);
      if |patternsAtNextDepth| == 0 {
        table.completed := true;
      }
    }

    /**
     Fills the table by breadth-first search from the start pattern. `universe` is any
     finite set holding the start and closed under every move; it bounds the search.
     Returns the summary figures: the number of patterns found and the maximum depth.
     `frontiers` is each depth's frontier as it was pushed.
     */
    method Fill(ghost universe: set<P>) returns (numPatternsTotal: nat, maxDepth: nat, ghost frontiers: seq<seq<P>>)
      requires Unfilled()
      requires StartPattern() in universe && ClosedUnder(puzzle, cachedMoveInfoList, universe)
      modifies this, table
      ensures table.completed
      ensures StartPattern() in table.patternToDepth && table.patternToDepth[StartPattern()] == 0
      ensures |frontiers| == maxDepth + 2 && frontiers[0] == [StartPattern()] && frontiers[maxDepth + 1] == []
      ensures forall d :: 0 <= d <= maxDepth ==> frontiers[d] != []
      ensures |bulkQueues| == |frontiers| && forall d :: 0 <= d < |bulkQueues| ==> bulkQueues[d] == []
      ensures numPatternsTotal == |table.patternToDepth| == TotalSize(frontiers)
      ensures Explored(puzzle, cachedMoveInfoList, StartPattern(), table.patternToDepth, frontiers)
      ensures FrontierHistory(puzzle, cachedMoveInfoList, table.patternToDepth, frontiers)
      ensures GodsTable(puzzle, cachedMoveInfoList, StartPattern(), table.patternToDepth, maxDepth)
    {
      var start := StartPattern();
      table.patternToDepth := table.patternToDepth[start := 0];
      bulkQueues := bulkQueues + [[start]];
      frontiers := [[start]];
      ExploredSeed(puzzle, cachedMoveInfoList, start);
      var currentDepth := 0;
      numPatternsTotal := 1;
      TotalSizeSnoc([], [start]);

      while !table.completed
        invariant Searching(frontiers, currentDepth, numPatternsTotal, universe)
        decreases |universe| - |table.patternToDepth|, if table.completed then 0 else 1
      {
        var patternsAtCurrentDepth := NextDepth(currentDepth, frontiers, numPatternsTotal, universe);
        currentDepth := currentDepth + 1;
        numPatternsTotal := numPatternsTotal + |patternsAtCurrentDepth|;
        frontiers := frontiers + [patternsAtCurrentDepth];
      }
      maxDepth := currentDepth - 1;
      SearchFinished(puzzle, cachedMoveInfoList, start, bulkQueues, table.patternToDepth, frontiers, currentDepth);
      ExploredHistory(puzzle, cachedMoveInfoList, start, table.patternToDepth, frontiers);
      CompletedTable(puzzle, cachedMoveInfoList, start, table.patternToDepth, frontiers);
    }
  }

  /**
   The end of the search loop: once the latest frontier is empty, at least one
   expansion has run, the one before it found something, and every slot is retired.
   */
  lemma SearchFinished<P, T, M>(puzzle: PackedKPuzzle<P, T, M>, moves: seq<CachedMoveInfo<T, M>>, start: P,
                                queues: seq<seq<P>>, table: map<P, nat>, frontiers: seq<seq<P>>, c: nat)
    requires QueueSlots(queues, frontiers, c) && frontiers[0] == [start] && frontiers[c] == []
    requires Explored(puzzle, moves, start, table, frontiers)
    ensures c >= 1 && frontiers[c - 1] != []
    ensures forall d :: 0 <= d < |queues| ==> queues[d] == []
  {
    assert frontiers[0] != [];
    QueuesDrained(queues, frontiers, c);
  }

  /**
   The frontier slots after c expansions: slot d < c was retired after its frontier, which
   was not empty, had been expanded, and slot c holds the latest frontier.
   */
  ghost predicate QueueSlots<P>(queues: seq<seq<P>>, frontiers: seq<seq<P>>, c: nat)
  {
    && |frontiers| == c + 1 == |queues|
    && (forall d :: 0 <= d < c ==> queues[d] == [] && frontiers[d] != [])
    && queues[c] == frontiers[c]
  }

  /** Retiring the latest non-empty frontier's slot and pushing the next frontier. */
  lemma QueuesAfterPush<P>(queues: seq<seq<P>>, frontiers: seq<seq<P>>, c: nat, found: seq<P>)
    requires QueueSlots(queues, frontiers, c) && frontiers[c] != []
    ensures QueueSlots(queues[c := []] + [found], frontiers + [found], c + 1)
  {
  }

  /** Once the latest frontier is empty, the retired slots and the latest one are all empty. */
  lemma QueuesDrained<P>(queues: seq<seq<P>>, frontiers: seq<seq<P>>, c: nat)
    requires QueueSlots(queues, frontiers, c) && frontiers[c] == []
    ensures forall d :: 0 <= d < |queues| ==> queues[d] == []
  {
  }

  /** Within one depth, the (pattern, move) pairs tried never exceed the number to test. */
  lemma MulStep(i: nat, n: nat, m: nat)
    requires i < n
    ensures i * m + m <= n * m
  {
    assert i * m + m == (i + 1) * m;
  }

  /** The table of an explored state fits in any finite universe holding the start and closed under every move. */
  lemma TableInUniverse<P, T, M>(puzzle: PackedKPuzzle<P, T, M>, moves: seq<CachedMoveInfo<T, M>>, start: P,
                                 universe: set<P>, table: map<P, nat>, frontiers: seq<seq<P>>)
    requires start in universe && ClosedUnder(puzzle, moves, universe)
    requires Explored(puzzle, moves, start, table, frontiers)
    ensures |table| <= |universe|
  {
    WithinInClosed(puzzle, moves, start, universe, |frontiers| - 1);
    assert table.Keys <= universe;
    assert universe == table.Keys + (universe - table.Keys);
    assert table.Keys * (universe - table.Keys) == {};
  }

  /** Appending a frontier adds its size to the total. */
  lemma TotalSizeSnoc<P>(frontiers: seq<seq<P>>, found: seq<P>)
    ensures TotalSize(frontiers + [found]) == TotalSize(frontiers) + |found|
  {
    assert (frontiers + [found])[..|frontiers|] == frontiers;
  }

}
