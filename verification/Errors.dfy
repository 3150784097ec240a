/** The failures of password generation. The C# generator throws each of them as
    an `ArgumentException` (or, for a negative batch count, an
    `ArgumentOutOfRangeException`); here they are values. */
module Errors {

  datatype Error =
    | LengthOutOfRange
    | NoClassEnabled
      /** An enabled class has no characters left after exclusions; carries the class name. */
    | EmptyClassSet(className: string)
      /** The concatenated pool is empty (unreachable once validation and the per-class checks pass). */
    | AllSetsEmpty
    | CombinedSetTooSmall
      /** A draw was asked of an empty character set. */
    | EmptyCharacterSet
    | CountOutOfRange
      /** The supplied random values ran out. The C# generator's random source never runs out;
          this failure exists only because the model takes randomness as a finite input. */
    | EntropyExhausted
  {
    /** The exception message the C# generator attaches to each failure. */
    function Message(): string {
      match this
      case LengthOutOfRange => "Password length must be between 8-64 characters"
      case NoClassEnabled => "At least one character set must be enabled"
      case EmptyClassSet(name) => name + " set empty after exclusions"
      case AllSetsEmpty => "All enabled character sets are empty after exclusions"
      case CombinedSetTooSmall => "Combined character set too small after exclusions (min 10)"
      case EmptyCharacterSet => "Character set must not be empty"
      case CountOutOfRange => "Specified argument was out of the range of valid values. (Parameter 'count')"
      case EntropyExhausted => "random source exhausted"
    }
  }
}
