/** The generation options record: one immutable value per call. */
module Options {
  import opened Alphabets

  datatype GenerationOptions = GenerationOptions(
    length: int,
    useUpper: bool,
    useLower: bool,
    useNumbers: bool,
    useSymbols: bool,
    excludeCharacters: string,
    excludeAmbiguous: bool)
  {
    /** Whether a character class is switched on. */
    predicate Uses(cls: CharClass) {
      match cls
      case Lower => useLower
      case Upper => useUpper
      case Numbers => useNumbers
      case Symbols => useSymbols
    }

    /** The validation rule that at least one class must be enabled. */
    predicate AnyClassEnabled() {
      useUpper || useLower || useNumbers || useSymbols
    }

    /** The base alphabet these options select for a class. */
    function Base(cls: CharClass): string {
      BaseAlphabet(cls, excludeAmbiguous)
    }
  }

  /** The property initialisers of the options record: length 16, every class
      on, nothing excluded, ambiguous characters excluded. */
  function Default(): GenerationOptions {
    GenerationOptions(
      length := 16,
      useUpper := true,
      useLower := true,
      useNumbers := true,
      useSymbols := true,
      excludeCharacters := "",
      excludeAmbiguous := true)
  }
}
