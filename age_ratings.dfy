/**
 * The DVD age-rating classes. The enum and its lookup by minimum age are the
 * same in every snapshot of the article classes, so they are defined once; the
 * discount tier each class earns, although written in each DVD class, is the
 * same table everywhere and lives here too.
 */
module AgeRatings {
  import opened Wrappers

  /** The enum constants, in declaration order. */
  datatype AgeRating =
    | NoAgeRestriction
    | AgesSixAndUp
    | AgesTwelveAndUp
    | AgesSixteenAndUp
    | AgesEighteenAndUp

  /** The position of a constant in the declaration (`ordinal()`). */
  function Ordinal(r: AgeRating): nat
  {
    match r
    case NoAgeRestriction => 0
    case AgesSixAndUp => 1
    case AgesTwelveAndUp => 2
    case AgesSixteenAndUp => 3
    case AgesEighteenAndUp => 4
  }

  /** The constructor argument of each constant (`getMinAge()`). */
  function MinAge(r: AgeRating): (m: nat)
    ensures m in {0, 6, 12, 16, 18}
  {
    match r
    case NoAgeRestriction => 0
    case AgesSixAndUp => 6
    case AgesTwelveAndUp => 12
    case AgesSixteenAndUp => 16
    case AgesEighteenAndUp => 18
  }

  /**
   * `getAgeRatingByMinAge`: the constant whose minimum age is minAge; `None`
   * stands for the IllegalArgumentException "Error: Invalid age rating.".
   */
  function ByMinAge(minAge: int): (r: Option<AgeRating>)
    ensures r.Some? <==> minAge in {0, 6, 12, 16, 18}
    ensures r.Some? ==> MinAge(r.value) == minAge
  {
    match minAge
    case 0 => Some(NoAgeRestriction)
    case 6 => Some(AgesSixAndUp)
    case 12 => Some(AgesTwelveAndUp)
    case 16 => Some(AgesSixteenAndUp)
    case 18 => Some(AgesEighteenAndUp)
    case _ => None
  }

  /** Looking up a constant's own minimum age gives that constant back. */
  lemma ByMinAgeOfMinAge(r: AgeRating)
    ensures ByMinAge(MinAge(r)) == Some(r)
  {}

  /** The minimum ages strictly increase in declaration order. */
  lemma MinAgeIncreasing(r: AgeRating, s: AgeRating)
    ensures Ordinal(r) < Ordinal(s) <==> MinAge(r) < MinAge(s)
  {}

  /** MinAge tells the constants apart. */
  lemma MinAgeInjective(r: AgeRating, s: AgeRating)
    ensures MinAge(r) == MinAge(s) ==> r == s
  {}

  /** The discount tier of a DVD in percent, from the `switch` over its rating. */
  function DiscountPercentage(r: AgeRating): (p: nat)
    ensures p <= 20
    ensures p % 5 == 0
  {
    match r
    case NoAgeRestriction => 20
    case AgesSixAndUp => 15
    case AgesTwelveAndUp => 10
    case AgesSixteenAndUp => 5
    case AgesEighteenAndUp => 0
  }

  /** The tier strictly falls as the minimum age rises. */
  lemma DiscountPercentageDecreasing(r: AgeRating, s: AgeRating)
    ensures MinAge(r) < MinAge(s) <==> DiscountPercentage(r) > DiscountPercentage(s)
  {}
}
