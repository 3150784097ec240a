/** The default options and the concrete policies the generator's own tests
    exercise, stated for every random input. */
module Scenarios {
  import opened Wrappers
  import opened Errors
  import opened Alphabets
  import opened Options
  import opened CharacterPools
  import opened Generator

  /** With nothing excluded, every enabled pool is its base alphabet
      unchanged, and no class is emptied. */
  lemma NothingExcluded(o: GenerationOptions)
    requires o.excludeCharacters == ""
    ensures forall cls: CharClass :: ExpectedPool(o, cls) == if o.Uses(cls) then o.Base(cls) else ""
    ensures forall cls: CharClass :: !Emptied(o, cls)
  {
    forall cls: CharClass ensures ExpectedPool(o, cls) == if o.Uses(cls) then o.Base(cls) else "" {
      NoExclusionKeepsBase(o, cls);
    }
    forall cls: CharClass ensures !Emptied(o, cls) {
      NoExclusionNotEmptied(o, cls);
    }
  }

  lemma NoExclusionKeepsBase(o: GenerationOptions, cls: CharClass)
    requires o.excludeCharacters == ""
    ensures ExpectedPool(o, cls) == if o.Uses(cls) then o.Base(cls) else ""
  {
    assert CharSet(o.excludeCharacters) == {};
    WithoutKeepsAll(o.Base(cls), {});
  }

  lemma NoExclusionNotEmptied(o: GenerationOptions, cls: CharClass)
    requires o.excludeCharacters == ""
    ensures !Emptied(o, cls)
  {
    var b := o.Base(cls);
    BaseAlphabetNonEmpty(cls, o.excludeAmbiguous);
    assert b[0] in b && b[0] !in o.excludeCharacters;
  }

  /** With every class on and nothing excluded, every pool is its base
      alphabet unchanged and the combined pool is their concatenation. */
  lemma AllBasesKept(o: GenerationOptions)
    requires o.useLower && o.useUpper && o.useNumbers && o.useSymbols
    requires o.excludeCharacters == ""
    ensures BuildCharacterSet(o) == Success((
      o.Base(Lower) + o.Base(Upper) + o.Base(Numbers) + o.Base(Symbols),
      ClassPools(o.Base(Lower), o.Base(Upper), o.Base(Numbers), o.Base(Symbols))))
  {
    NothingExcluded(o);
    BaseAlphabetSizes();
    BuildCharacterSetReference(o);
  }

  /** With the default options every pool is its curated or symbol base
      alphabet unchanged, and the combined pool has 23 + 23 + 8 + 33 = 87
      characters. */
  lemma DefaultPools(o: GenerationOptions)
    requires o == Default()
    ensures ValidateOptions(o).Success?
    ensures BuildCharacterSet(o) == Success((
      BaseAlphabet(Lower, true) + BaseAlphabet(Upper, true) + BaseAlphabet(Numbers, true) + BaseAlphabet(Symbols, true),
      ClassPools(BaseAlphabet(Lower, true), BaseAlphabet(Upper, true), BaseAlphabet(Numbers, true), BaseAlphabet(Symbols, true))))
    ensures |BuildCharacterSet(o).value.0| == 87
  {
    AllBasesKept(o);
    BaseAlphabetSizes();
    assert o.excludeAmbiguous;
  }

  /** The default options always generate a 16-character password when the
      random input suffices. */
  lemma DefaultOptionsSucceed(o: GenerationOptions, e: Entropy)
    requires o == Default()
    requires |e.draws| >= 16 && AllAccepted(e.draws) && |e.swaps| >= 15
    ensures Generate(o, e).Success?
    ensures |Generate(o, e).value| == 16
  {
    DefaultPools(o);
    GenerationSucceeds(o, e);
  }

  /** Any length outside 8..64 is rejected, whatever the classes and
      exclusions; with the default classes every length inside succeeds
      when the random input suffices. */
  lemma LengthBoundaries(o: GenerationOptions, e: Entropy)
    ensures (o.length < 8 || o.length > 64) ==> Generate(o, e) == Failure(LengthOutOfRange)
    ensures
      (&& o == Default().(length := o.length) && 8 <= o.length <= 64
       && |e.draws| >= o.length && AllAccepted(e.draws) && |e.swaps| >= o.length - 1)
      ==> Generate(o, e).Success?
  {
    if o == Default().(length := o.length) && 8 <= o.length <= 64
      && |e.draws| >= o.length && AllAccepted(e.draws) && |e.swaps| >= o.length - 1
    {
      NothingExcluded(o);
      BaseAlphabetSizes();
      BuildCharacterSetReference(o);
      GenerationSucceeds(o, e);
    }
  }

  /** All four classes disabled: rejected by validation. */
  lemma AllClassesDisabled(o: GenerationOptions, e: Entropy)
    requires !o.useUpper && !o.useLower && !o.useNumbers && !o.useSymbols
    requires 8 <= o.length <= 64
    ensures Generate(o, e) == Failure(NoClassEnabled)
  {
  }

  /** Excluding every uppercase letter empties the upper class; the error
      names it. */
  lemma UppercaseFullyExcluded(o: GenerationOptions, e: Entropy)
    requires o == Default().(excludeCharacters := FullUpper)
    ensures Generate(o, e) == Failure(EmptyClassSet("upper"))
  {
    assert !Emptied(o, Lower) by {
      BaseAlphabetNonEmpty(Lower, true);
      BaseAlphabetFacts(Lower, true);
      BaseAlphabetFacts(Upper, false);
      var a := o.Base(Lower)[0];
      assert InClassRange(Lower, a) && a !in o.excludeCharacters;
    }
    assert Emptied(o, Upper) by {
      CuratedWithinFull(Upper);
    }
    EmptyClassPrecedence(o, Upper);
  }

  /** Excluding every lowercase letter empties the lower class; the error
      names it. */
  lemma LowercaseFullyExcluded(o: GenerationOptions, e: Entropy)
    requires o == Default().(excludeCharacters := FullLower)
    ensures Generate(o, e) == Failure(EmptyClassSet("lower"))
  {
    CuratedWithinFull(Lower);
    assert Emptied(o, Lower);
    EmptyClassPrecedence(o, Lower);
  }

  /** Digits only under `excludeAmbiguous` leave 8 characters, under the
      minimum of 10. */
  lemma CuratedNumbersOnlyTooSmall(o: GenerationOptions, e: Entropy)
    requires o == Default().(useUpper := false, useLower := false, useSymbols := false)
    ensures Generate(o, e) == Failure(CombinedSetTooSmall)
  {
    NothingExcluded(o);
    BuildCharacterSetReference(o);
  }

  /** Twelve characters from the full lowercase alphabet only: generation
      always succeeds when the random input suffices, and every character
      is a lowercase ASCII letter. */
  lemma LowercaseOnly(o: GenerationOptions, e: Entropy)
    requires o == GenerationOptions(12, false, true, false, false, "", false)
    requires |e.draws| >= 12 && AllAccepted(e.draws) && |e.swaps| >= 11
    ensures Generate(o, e).Success?
    ensures |Generate(o, e).value| == 12
    ensures forall c :: c in Generate(o, e).value ==> 'a' <= c <= 'z'
  {
    assert Generate(o, e).Success? by {
      NothingExcluded(o);
      BaseAlphabetSizes();
      BuildCharacterSetReference(o);
      GenerationSucceeds(o, e);
    }
    GeneratedPasswordProperties(o, e);
    var p := Generate(o, e).value;
    forall c | c in p ensures 'a' <= c <= 'z' {
      var cls: CharClass :| o.Uses(cls) && c in o.Base(cls);
      BaseAlphabetFacts(cls, false);
    }
  }

  /** Excluding "aA1!" with every class on: generation always succeeds when
      the random input suffices, and none of the four characters appears. */
  lemma ExcludedCharactersNeverAppear(o: GenerationOptions, e: Entropy)
    requires o == Default().(length := 50, excludeCharacters := "aA1!")
    requires |e.draws| >= 50 && AllAccepted(e.draws) && |e.swaps| >= 49
    ensures Generate(o, e).Success?
    ensures var p := Generate(o, e).value;
      'a' !in p && 'A' !in p && '1' !in p && '!' !in p
  {
    OneExcludedPerClass(o, Lower);
    OneExcludedPerClass(o, Upper);
    OneExcludedPerClass(o, Numbers);
    OneExcludedPerClass(o, Symbols);
    BaseAlphabetSizes();
    BuildCharacterSetReference(o);
    GenerationSucceeds(o, e);
    GeneratedPasswordProperties(o, e);
  }

  /** Under the "aA1!" exclusion each class loses at most its one excluded
      character, so none is emptied. */
  lemma OneExcludedPerClass(o: GenerationOptions, cls: CharClass)
    requires o == Default().(length := 50, excludeCharacters := "aA1!")
    ensures |ExpectedPool(o, cls)| >= |o.Base(cls)| - 1
    ensures !Emptied(o, cls)
  {
    var x := match cls case Lower => 'a' case Upper => 'A' case Numbers => '1' case Symbols => '!';
    assert forall c :: c in o.Base(cls) && c in o.excludeCharacters ==> c == x by {
      BaseAlphabetFacts(cls, true);
      forall c | c in o.Base(cls) && c in o.excludeCharacters ensures c == x {
        assert InClassRange(cls, c);
      }
    }
    BaseAlphabetSizes();
    OnlyOneExcluded(o, cls, x);
  }

  /** An enabled class whose base alphabet shares only `x` with the
      exclusions loses at most that character, and is not emptied when its
      alphabet has two or more characters. */
  lemma OnlyOneExcluded(o: GenerationOptions, cls: CharClass, x: char)
    requires o.Uses(cls)
    requires forall c :: c in o.Base(cls) && c in o.excludeCharacters ==> c == x
    ensures |ExpectedPool(o, cls)| >= |o.Base(cls)| - 1
    ensures |o.Base(cls)| >= 2 ==> !Emptied(o, cls)
  {
    var b := o.Base(cls);
    BaseAlphabetFacts(cls, o.excludeAmbiguous);
    WithoutDropsOne(b, CharSet(o.excludeCharacters), x);
    if |b| >= 2 {
      assert b[0] != b[1];
      assert b[0] in b && b[1] in b;
    }
  }

  /** Letters and digits with ambiguous characters excluded: generation
      always succeeds when the random input suffices, and no ambiguous
      character appears. */
  lemma AmbiguousExcluded(o: GenerationOptions, e: Entropy)
    requires o == Default().(length := 20, useSymbols := false)
    requires |e.draws| >= 20 && AllAccepted(e.draws) && |e.swaps| >= 19
    ensures Generate(o, e).Success?
    ensures forall c :: c in Generate(o, e).value ==> c !in Ambiguous
  {
    NothingExcluded(o);
    BaseAlphabetSizes();
    BuildCharacterSetReference(o);
    GenerationSucceeds(o, e);
    GeneratedPasswordProperties(o, e);
  }

  /** The same policy covers every class it enables: at least one lowercase
      letter, one uppercase letter and one digit. */
  lemma LettersAndDigitsCovered(o: GenerationOptions, e: Entropy)
    requires o == Default().(length := 20, useSymbols := false)
    requires |e.draws| >= 20 && AllAccepted(e.draws) && |e.swaps| >= 19
    ensures Generate(o, e).Success?
    ensures var p := Generate(o, e).value;
      && (exists c :: c in p && 'a' <= c <= 'z')
      && (exists c :: c in p && 'A' <= c <= 'Z')
      && (exists c :: c in p && '0' <= c <= '9')
  {
    AmbiguousExcluded(o, e);
    ClassCovered(o, e, Lower);
    ClassCovered(o, e, Upper);
    ClassCovered(o, e, Numbers);
  }

  /** Ambiguous characters allowed, all classes on, length 50: pool
      building succeeds and every ambiguous character is in the combined
      pool, so a password may contain it. */
  lemma AmbiguousAvailable(o: GenerationOptions)
    requires o == Default().(length := 50, excludeAmbiguous := false)
    ensures BuildCharacterSet(o).Success?
    ensures forall c :: c in Ambiguous ==> c in BuildCharacterSet(o).value.0
  {
    AllBasesKept(o);
    forall c | c in Ambiguous ensures c in BuildCharacterSet(o).value.0 {
      AmbiguousInFullAlphabets(c);
    }
  }

  /** An enabled class contributes a character in its range. */
  lemma ClassCovered(o: GenerationOptions, e: Entropy, cls: CharClass)
    requires o.Uses(cls) && Generate(o, e).Success?
    ensures exists c :: c in Generate(o, e).value && InClassRange(cls, c)
  {
    GeneratedPasswordProperties(o, e);
    BaseAlphabetFacts(cls, o.excludeAmbiguous);
    var c :| c in Generate(o, e).value && c in o.Base(cls);
    assert InClassRange(cls, c);
  }
}
