/**
 The puzzle definition the search consumes as an opaque capability. How a pattern is
 packed, hashed and compared, how a move is parsed and how a transformation acts are
 outside this model; each is a total function carried by a `PackedKPuzzle` value.
 */
module KPuzzle {
  import opened Wrappers

  /** The error a move that cannot be resolved against the puzzle definition produces. */
  datatype ConversionError = ConversionError(description: string)
  {
    /** The descriptive text the search's constructor reports for this error. */
    function ToString(): (r: string)
      ensures r == description
    {
      description
    }
  }

  /**
   `P` is a packed pattern, `T` a packed transformation, `M` a move.
   - `defaultPattern`: the puzzle's canonical pattern, used when no start pattern is given;
   - `transformationFromMove`: resolves a move to a transformation, or fails;
   - `invert`: the inverse of a move (a property of moves, bundled here with the puzzle);
   - `applyTransformation`: the pattern obtained by applying a transformation to a pattern.
   */
  datatype PackedKPuzzle<!P, !T, !M> = PackedKPuzzle(
    defaultPattern: P,
    transformationFromMove: M -> Result<T, ConversionError>,
    invert: M -> M,
    applyTransformation: (P, T) -> P)
}
