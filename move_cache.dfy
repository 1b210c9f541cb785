/**
 The per-move cache built once when a search is constructed: every move with its
 transformation and the transformation of its inverse. Construction is all-or-nothing.
 */
module MoveCache {
  import opened Wrappers
  import opened KPuzzle

  datatype CachedMoveInfo<T, M> = CachedMoveInfo(move: M, transformation: T, inverseTransformation: T)

  /**
   Caches one move. It fails exactly when the move or its inverted move cannot be
   converted, and the error is that of the first conversion that fails (the move's own
   conversion is attempted first).
   */
  function TryNew<P, T, M>(puzzle: PackedKPuzzle<P, T, M>, move: M): (r: Result<CachedMoveInfo<T, M>, ConversionError>)
    ensures r.Success? <==>
              puzzle.transformationFromMove(move).Success? &&
              puzzle.transformationFromMove(puzzle.invert(move)).Success?
    ensures r.Success? ==>
              && r.value.move == move
              && puzzle.transformationFromMove(move) == Success(r.value.transformation)
              && puzzle.transformationFromMove(puzzle.invert(move)) == Success(r.value.inverseTransformation)
    ensures r.Failure? ==>
              if puzzle.transformationFromMove(move).Failure?
              then r.error == puzzle.transformationFromMove(move).error
              else puzzle.transformationFromMove(puzzle.invert(move)) == Failure(r.error)
  {
    match puzzle.transformationFromMove(move)
    case Failure(e) => Failure(e)
    case Success(transformation) =>
      match puzzle.transformationFromMove(puzzle.invert(move))
      case Failure(e) => Failure(e)
      case Success(inverseTransformation) => Success(CachedMoveInfo(move, transformation, inverseTransformation))
  }

  /**
   Caches every move of a move list, collecting into a single result: the list of cached
   moves, in the input's order, when every move converts; otherwise the error of the
   first move (in list order) that does not, with nothing cached.
   */
  function TryNewAll<P, T, M>(puzzle: PackedKPuzzle<P, T, M>, moves: seq<M>): (r: Result<seq<CachedMoveInfo<T, M>>, ConversionError>)
    ensures r.Success? <==> forall i :: 0 <= i < |moves| ==> TryNew(puzzle, moves[i]).Success?
    ensures r.Success? ==>
              && |r.value| == |moves|
              && forall i :: 0 <= i < |moves| ==> Success(r.value[i]) == TryNew(puzzle, moves[i])
    ensures r.Failure? ==>
              exists k :: && 0 <= k < |moves|
                          && (forall i :: 0 <= i < k ==> TryNew(puzzle, moves[i]).Success?)
                          && TryNew(puzzle, moves[k]) == Failure(r.error)
  {
    if moves == [] then Success([])
    else
      match TryNew(puzzle, moves[0])
      case Failure(e) => Failure(e)
      case Success(info) =>
        match TryNewAll(puzzle, moves[1..])
        case Failure(e) => Failure(e)
        case Success(rest) => Success([info] + rest)
  }
}
