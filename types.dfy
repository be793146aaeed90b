/** The value types of the crate's root module: the edit operations, the two
    storage kinds and the cost options. */
module Types {

  /** One entry of an edit script. A transposition of two adjacent characters
      is always emitted as two consecutive `Transpose` entries. */
  datatype EditType = Insert | Delete | Sub | Equal | Transpose

  /** The two storage backends a caller can run the algorithm over. */
  datatype MatrixType = Vec | Grid

  /** Per-operation costs, the predicate that decides when two characters
      match for free, and the flag that enables the optional row shrink
      after the matrix is filled. */
  datatype Options = Options(
    insCost: nat,
    delCost: nat,
    subCost: nat,
    transpCost: nat,
    equals: (char, char) -> bool,
    minCostWhenTargetShorter: bool)

  /** The default match predicate: plain character identity. */
  predicate IdenticalChars(a: char, b: char) {
    a == b
  }

  /** Every cost 1, identity as the match predicate, no shrink. */
  const DefaultOptions: Options := Options(1, 1, 1, 1, IdenticalChars, false)

  /** A second constant with exactly the same settings as DefaultOptions. */
  const DefaultOptionsWithSub: Options := Options(1, 1, 1, 1, IdenticalChars, false)

  /** The settings shared by both default constants. */
  predicate IsDefault(o: Options) {
    && o.insCost == 1 && o.delCost == 1 && o.subCost == 1 && o.transpCost == 1
    && !o.minCostWhenTargetShorter
    && forall a, b :: o.equals(a, b) == (a == b)
  }

  lemma DefaultsAreDefault()
    ensures IsDefault(DefaultOptions) && IsDefault(DefaultOptionsWithSub)
    ensures forall a, b :: DefaultOptions.equals(a, b) == DefaultOptionsWithSub.equals(a, b)
  {
  }
}
