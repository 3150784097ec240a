/** Building the per-class character pools and the combined pool from the
    generation options (`BuildCharacterSet`, `GetFilteredSet`). */
module CharacterPools {
  import opened Wrappers
  import opened Errors
  import opened Alphabets
  import opened Options

  /** The characters of a string, as a set. */
  function CharSet(s: string): set<char> {
    set c | c in s
  }

  /** Reference definition of exclusion: the characters of `s` that are not
      in `excluded`, in their original order. */
  function Without(s: string, excluded: set<char>): (r: string)
    ensures forall c :: c in r <==> c in s && c !in excluded
    ensures |r| <= |s|
  {
    if |s| == 0 then []
    else if s[0] in excluded then Without(s[1..], excluded)
    else [s[0]] + Without(s[1..], excluded)
  }

  /** `Enumerable.Except` with `seen` as the set built so far: walks `s` in
      order and yields each character that has not been seen, adding it to
      the seen set. */
  function ExceptFrom(s: string, seen: set<char>): (r: string)
    ensures forall c :: c in r <==> c in s && c !in seen
    ensures NoDuplicates(r)
    ensures |r| <= |s|
  {
    if |s| == 0 then []
    else if s[0] in seen then ExceptFrom(s[1..], seen)
    else
      var rest := ExceptFrom(s[1..], seen + {s[0]});
      assert s[0] !in rest;
      [s[0]] + rest
  }

  /** `first.Except(second)`: the distinct characters of `first` that do not
      occur in `second`, in first-occurrence order. */
  function Except(first: string, second: string): string {
    ExceptFrom(first, CharSet(second))
  }

  /** Adding a character that does not occur in `s` to the excluded set
      changes nothing. */
  lemma {:induction false} WithoutIgnoresAbsent(s: string, excluded: set<char>, x: char)
    requires x !in s
    ensures Without(s, excluded + {x}) == Without(s, excluded)
  {
    if |s| > 0 {
      WithoutIgnoresAbsent(s[1..], excluded, x);
    }
  }

  /** Filtering by a set that holds none of the string's characters keeps
      the string unchanged. */
  lemma {:induction false} WithoutKeepsAll(s: string, excluded: set<char>)
    requires forall c :: c in s ==> c !in excluded
    ensures Without(s, excluded) == s
  {
    if |s| > 0 {
      assert forall c :: c in s[1..] ==> c in s;
      WithoutKeepsAll(s[1..], excluded);
      assert s == [s[0]] + s[1..];
    }
  }

  /** A duplicate-free string in which only `x` can be excluded loses at most
      one character to filtering. */
  lemma {:induction false} WithoutDropsOne(s: string, excluded: set<char>, x: char)
    requires NoDuplicates(s)
    requires forall c :: c in s && c in excluded ==> c == x
    ensures |Without(s, excluded)| >= |s| - 1
  {
    if |s| > 0 {
      var rest := s[1..];
      assert forall k :: 0 <= k < |rest| ==> rest[k] == s[k + 1];
      if s[0] in excluded {
        forall c | c in rest ensures c !in excluded {
          var k :| 0 <= k < |rest| && rest[k] == c;
          assert s[0] != s[k + 1];
        }
        WithoutKeepsAll(rest, excluded);
      } else {
        assert forall c :: c in rest ==> c in s;
        WithoutDropsOne(rest, excluded, x);
      }
    }
  }

  /** On a duplicate-free base, set difference is plain order-preserving
      filtering: the pool keeps the base alphabet's order. */
  lemma {:induction false} ExceptFromMatchesWithout(s: string, seen: set<char>)
    requires NoDuplicates(s)
    ensures ExceptFrom(s, seen) == Without(s, seen)
  {
    if |s| > 0 {
      var t := s[1..];
      assert NoDuplicates(t) by {
        forall i, j | 0 <= i < j < |t| ensures t[i] != t[j] {
          assert t[i] == s[i + 1] && t[j] == s[j + 1];
        }
      }
      if s[0] in seen {
        ExceptFromMatchesWithout(t, seen);
      } else {
        assert s[0] !in t by {
          forall j | 0 <= j < |t| ensures t[j] != s[0] {
            assert t[j] == s[j + 1];
          }
        }
        ExceptFromMatchesWithout(t, seen + {s[0]});
        WithoutIgnoresAbsent(t, seen, s[0]);
      }
    }
  }

  lemma ExceptMatchesWithout(first: string, second: string)
    requires NoDuplicates(first)
    ensures Except(first, second) == Without(first, CharSet(second))
  {
    ExceptFromMatchesWithout(first, CharSet(second));
  }

  /** `GetFilteredSet`: a disabled class contributes nothing; an enabled
      class keeps its base characters minus the excluded ones, and fails,
      naming the class, when none are left. */
  function FilteredSet(setName: string, isEnabled: bool, baseSet: string, excludeChars: string): (r: Result<string, Error>)
    ensures !isEnabled ==> r == Success("")
    ensures isEnabled ==> (r.Failure? <==> forall c :: c in baseSet ==> c in excludeChars)
    ensures r.Failure? ==> r.error == EmptyClassSet(setName)
    ensures isEnabled && r.Success? ==>
      && |r.value| > 0
      && NoDuplicates(r.value)
      && forall c :: c in r.value <==> c in baseSet && c !in excludeChars
  {
    if !isEnabled then Success("")
    else
      var filtered := Except(baseSet, excludeChars);
      if |filtered| == 0 then
        assert forall c :: c in baseSet ==> c in excludeChars by {
          forall c | c in baseSet ensures c in excludeChars {
            assert c !in filtered;
          }
        }
        Failure(EmptyClassSet(setName))
      else
        assert filtered[0] in filtered;
        Success(filtered)
  }

  /** The pool request for one class of the given options. */
  function ClassPool(o: GenerationOptions, cls: CharClass): Result<string, Error> {
    FilteredSet(cls.Name(), o.Uses(cls), o.Base(cls), o.excludeCharacters)
  }

  /** The four per-class pools, keyed in the insertion order l, u, n, s. */
  datatype ClassPools = ClassPools(lower: string, upper: string, numbers: string, symbols: string) {

    function Get(cls: CharClass): string {
      match cls
      case Lower => lower
      case Upper => upper
      case Numbers => numbers
      case Symbols => symbols
    }

    /** The pools in enumeration order. */
    function InOrder(): (r: seq<string>)
      ensures |r| == 4
      ensures forall cls: CharClass :: r[cls.Index()] == Get(cls)
    {
      [lower, upper, numbers, symbols]
    }
  }

  /** `BuildCharacterSet`: the four pools are filtered in order lower, upper,
      numbers, symbols (the first failing class wins); the enabled pools are
      concatenated in that order and the result must hold at least 10
      characters. */
  function BuildCharacterSet(o: GenerationOptions): (r: Result<(string, ClassPools), Error>)
    ensures r.Success? ==> 10 <= |r.value.0|
  {
    var lower :- ClassPool(o, Lower);
    var upper :- ClassPool(o, Upper);
    var numbers :- ClassPool(o, Numbers);
    var symbols :- ClassPool(o, Symbols);
    var fullSet :=
      (if o.useLower then lower else "")
      + (if o.useUpper then upper else "")
      + (if o.useNumbers then numbers else "")
      + (if o.useSymbols then symbols else "");
    if |fullSet| == 0 then Failure(AllSetsEmpty)
    else if |fullSet| < 10 then Failure(CombinedSetTooSmall)
    else
      var pools := ClassPools(lower, upper, numbers, symbols);
      Success((fullSet, pools))
  }

  /** An enabled class all of whose base characters are excluded. */
  predicate Emptied(o: GenerationOptions, cls: CharClass) {
    o.Uses(cls) && forall c :: c in o.Base(cls) ==> c in o.excludeCharacters
  }

  /** Reference definition of a class pool: empty when the class is off,
      otherwise the base alphabet filtered by the excluded characters. */
  function ExpectedPool(o: GenerationOptions, cls: CharClass): string {
    if o.Uses(cls) then Without(o.Base(cls), CharSet(o.excludeCharacters)) else ""
  }

  /** Reference definition of the combined pool. */
  function ExpectedCombined(o: GenerationOptions): string {
    ExpectedPool(o, Lower) + ExpectedPool(o, Upper) + ExpectedPool(o, Numbers) + ExpectedPool(o, Symbols)
  }

  /** One class's pool agrees with the reference, and fails exactly when the
      class is emptied. */
  lemma ClassPoolMatchesReference(o: GenerationOptions, cls: CharClass)
    ensures ClassPool(o, cls).Failure? <==> Emptied(o, cls)
    ensures ClassPool(o, cls).Success? ==> ClassPool(o, cls).value == ExpectedPool(o, cls)
    ensures !Emptied(o, cls) ==> (|ExpectedPool(o, cls)| == 0 <==> !o.Uses(cls))
  {
    BaseAlphabetFacts(cls, o.excludeAmbiguous);
    ExceptMatchesWithout(o.Base(cls), o.excludeCharacters);
    if o.Uses(cls) && !Emptied(o, cls) {
      var c :| c in o.Base(cls) && c !in o.excludeCharacters;
      assert c in ExpectedPool(o, cls);
    }
  }

  /** The whole of pool building against the reference definitions: the
      first emptied class in order lower, upper, numbers, symbols is
      reported; then an empty and a too-small combined pool; otherwise the
      pools are the filtered base alphabets and the combined pool is their
      concatenation. */
  lemma BuildCharacterSetReference(o: GenerationOptions)
    ensures BuildCharacterSet(o) ==
      if Emptied(o, Lower) then Failure(EmptyClassSet("lower"))
      else if Emptied(o, Upper) then Failure(EmptyClassSet("upper"))
      else if Emptied(o, Numbers) then Failure(EmptyClassSet("numbers"))
      else if Emptied(o, Symbols) then Failure(EmptyClassSet("symbols"))
      else if |ExpectedCombined(o)| == 0 then Failure(AllSetsEmpty)
      else if |ExpectedCombined(o)| < 10 then Failure(CombinedSetTooSmall)
      else Success((ExpectedCombined(o), ClassPools(
        ExpectedPool(o, Lower), ExpectedPool(o, Upper), ExpectedPool(o, Numbers), ExpectedPool(o, Symbols))))
  {
    ClassPoolMatchesReference(o, Lower);
    ClassPoolMatchesReference(o, Upper);
    ClassPoolMatchesReference(o, Numbers);
    ClassPoolMatchesReference(o, Symbols);
  }

  /** Error precedence: the per-class error names `cls` exactly when `cls`
      is emptied and no earlier class is. */
  lemma EmptyClassPrecedence(o: GenerationOptions, cls: CharClass)
    ensures BuildCharacterSet(o) == Failure(EmptyClassSet(cls.Name())) <==>
      Emptied(o, cls) && forall k: CharClass :: k.Index() < cls.Index() ==> !Emptied(o, k)
  {
    BuildCharacterSetReference(o);
  }

  /** The empty-combined-pool failure happens exactly when no class is
      enabled, so it cannot be reached once validation has passed. */
  lemma AllSetsEmptyOnlyWithoutClasses(o: GenerationOptions)
    ensures BuildCharacterSet(o) == Failure(AllSetsEmpty) <==> !o.AnyClassEnabled()
  {
    BuildCharacterSetReference(o);
    ClassPoolMatchesReference(o, Lower);
    ClassPoolMatchesReference(o, Upper);
    ClassPoolMatchesReference(o, Numbers);
    ClassPoolMatchesReference(o, Symbols);
  }

  lemma {:induction false} ConcatNoDuplicates(a: string, b: string)
    requires NoDuplicates(a) && NoDuplicates(b)
    requires forall c :: c in a ==> c !in b
    ensures NoDuplicates(a + b)
  {
    var s := a + b;
    forall i, j | 0 <= i < j < |s| ensures s[i] != s[j] {
      if j < |a| {
        assert s[i] == a[i] && s[j] == a[j];
      } else if i >= |a| {
        assert s[i] == b[i - |a|] && s[j] == b[j - |a|];
      } else {
        assert s[i] == a[i] && s[j] == b[j - |a|];
        assert s[i] in a && s[j] in b;
      }
    }
  }

  /** Facts about one reference pool: it is duplicate-free, a subset of its
      class's base alphabet and range, and avoids every excluded character. */
  lemma ExpectedPoolFacts(o: GenerationOptions, cls: CharClass)
    ensures NoDuplicates(ExpectedPool(o, cls))
    ensures |ExpectedPool(o, cls)| <= |o.Base(cls)|
    ensures forall c :: c in ExpectedPool(o, cls) ==>
      c in o.Base(cls) && InClassRange(cls, c) && c !in o.excludeCharacters
      && (o.excludeAmbiguous ==> c !in Ambiguous)
  {
    BaseAlphabetFacts(cls, o.excludeAmbiguous);
    ExceptMatchesWithout(o.Base(cls), o.excludeCharacters);
  }

  /** The combined pool of a successful build has no repeated character
      (so its length is its number of distinct characters), holds at most
      95 characters, and contains no excluded and, under
      `excludeAmbiguous`, no ambiguous character. */
  lemma CombinedPoolFacts(o: GenerationOptions)
    requires BuildCharacterSet(o).Success?
    ensures NoDuplicates(BuildCharacterSet(o).value.0)
    ensures 10 <= |BuildCharacterSet(o).value.0| <= 95
    ensures forall c :: c in BuildCharacterSet(o).value.0 ==>
      c !in o.excludeCharacters && (o.excludeAmbiguous ==> c !in Ambiguous)
  {
    BuildCharacterSetReference(o);
    var l, u, n, s := ExpectedPool(o, Lower), ExpectedPool(o, Upper), ExpectedPool(o, Numbers), ExpectedPool(o, Symbols);
    ExpectedPoolFacts(o, Lower);
    ExpectedPoolFacts(o, Upper);
    ExpectedPoolFacts(o, Numbers);
    ExpectedPoolFacts(o, Symbols);
    BaseAlphabetSizes();
    forall c | c in l ensures c !in u {
      if c in u { ClassRangesDisjoint(Lower, Upper, c); }
    }
    ConcatNoDuplicates(l, u);
    forall c | c in l + u ensures c !in n {
      if c in n {
        if c in l { ClassRangesDisjoint(Lower, Numbers, c); } else { ClassRangesDisjoint(Upper, Numbers, c); }
      }
    }
    ConcatNoDuplicates(l + u, n);
    forall c | c in l + u + n ensures c !in s {
      if c in s {
        if c in l { ClassRangesDisjoint(Lower, Symbols, c); }
        else if c in u { ClassRangesDisjoint(Upper, Symbols, c); }
        else { ClassRangesDisjoint(Numbers, Symbols, c); }
      }
    }
    ConcatNoDuplicates(l + u + n, s);
  }
}
