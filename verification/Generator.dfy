/** The generation pipeline: validate the options, build the pools, seed one
    character per non-empty class pool, fill from the combined pool up to the
    requested length, and shuffle (`Generate`, `GenerateMultiple`,
    `ValidateOptions`, `GenerateSecurePassword`). */
module Generator {
  import opened Wrappers
  import opened Errors
  import opened Alphabets
  import opened Options
  import opened CharacterPools
  import opened RandomDraw
  import opened Shuffling

  /** The randomness one `Generate` call consumes: 32-bit values for the
      character draws and choice values for the final shuffle. */
  datatype Entropy = Entropy(draws: seq<uint32>, swaps: seq<nat>)

  const MinLength: int := 8
  const MaxLength: int := 64

  /** `ValidateOptions`: the length check comes before the class check. */
  function ValidateOptions(o: GenerationOptions): (r: Result<(), Error>)
    ensures r.Success? <==> MinLength <= o.length <= MaxLength && o.AnyClassEnabled()
    ensures r.Failure? ==> (r.error == LengthOutOfRange <==> !(MinLength <= o.length <= MaxLength))
    ensures r.Failure? ==> r.error == LengthOutOfRange || r.error == NoClassEnabled
  {
    if o.length < MinLength || o.length > MaxLength then Failure(LengthOutOfRange)
    else if !o.AnyClassEnabled() then Failure(NoClassEnabled)
    else Success(())
  }

  /** The non-empty pools, in order. */
  function NonEmpty(pools: seq<string>): (r: seq<string>)
    ensures |r| <= |pools|
    ensures forall p :: p in r <==> p in pools && |p| > 0
  {
    if |pools| == 0 then []
    else if |pools[0]| == 0 then NonEmpty(pools[1..])
    else [pools[0]] + NonEmpty(pools[1..])
  }

  predicate DrawablePools(pools: seq<string>) {
    forall p :: p in pools ==> |p| <= UIntMax
  }

  /** The seeding loop of `GenerateSecurePassword`: one character drawn from
      each non-empty pool, in pool order. */
  function SeedRequired(pools: seq<string>, draws: seq<uint32>): (r: Result<(string, seq<uint32>), Error>)
    requires DrawablePools(pools)
    ensures r.Success? ==>
      && |r.value.0| == |NonEmpty(pools)|
      && (forall k :: 0 <= k < |r.value.0| ==> r.value.0[k] in NonEmpty(pools)[k])
      && |r.value.1| <= |draws|
    ensures r.Failure? ==> r.error == EntropyExhausted
    decreases |pools|
  {
    if |pools| == 0 then Success(([], draws))
    else if |pools[0]| == 0 then SeedRequired(pools[1..], draws)
    else
      var first :- Draw(pools[0], draws);
      var rest :- SeedRequired(pools[1..], first.1);
      Success(([first.0] + rest.0, rest.1))
  }

  /** The fill loop of `GenerateSecurePassword`: while the buffer is shorter
      than `length`, append a character drawn from the combined pool. */
  function Fill(buffer: string, fullSet: string, length: int, draws: seq<uint32>): (r: Result<(string, seq<uint32>), Error>)
    requires |fullSet| <= UIntMax
    ensures r.Success? ==>
      && |r.value.0| == (if |buffer| >= length then |buffer| else length)
      && r.value.0[..|buffer|] == buffer
      && (forall k :: |buffer| <= k < |r.value.0| ==> r.value.0[k] in fullSet)
      && |r.value.1| <= |draws|
    ensures r.Failure? ==> r.error == EntropyExhausted || (r.error == EmptyCharacterSet && |fullSet| == 0)
    decreases length - |buffer|
  {
    if |buffer| >= length then Success((buffer, draws))
    else
      var next :- Draw(fullSet, draws);
      Fill(buffer + [next.0], fullSet, length, next.1)
  }

  /** `GenerateSecurePassword`: seed, fill, shuffle. */
  function GenerateSecurePassword(length: int, fullSet: string, pools: ClassPools, e: Entropy): (r: Result<string, Error>)
    requires |fullSet| <= UIntMax && DrawablePools(pools.InOrder())
    ensures r.Success? ==> |r.value| == (if |NonEmpty(pools.InOrder())| >= length then |NonEmpty(pools.InOrder())| else length)
    ensures r.Failure? ==> r.error == EntropyExhausted || (r.error == EmptyCharacterSet && |fullSet| == 0)
  {
    var seeded :- SeedRequired(pools.InOrder(), e.draws);
    var filled :- Fill(seeded.0, fullSet, length, seeded.1);
    match Shuffle(filled.0, e.swaps)
    case None => Failure(EntropyExhausted)
    case Some(password) => Success(password)
  }

  /** The assembled password holds only pool characters and at least one
      character of every non-empty pool: the seeds cover the pools, the fill
      draws from the combined set, and the shuffle keeps every character. */
  lemma SecurePasswordContents(length: int, fullSet: string, pools: ClassPools, e: Entropy)
    requires |fullSet| <= UIntMax && DrawablePools(pools.InOrder())
    requires GenerateSecurePassword(length, fullSet, pools, e).Success?
    ensures var password := GenerateSecurePassword(length, fullSet, pools, e).value;
      forall c :: c in password ==> c in fullSet || exists cls: CharClass :: c in pools.Get(cls)
    ensures var password := GenerateSecurePassword(length, fullSet, pools, e).value;
      forall cls: CharClass :: |pools.Get(cls)| > 0 ==> exists c :: c in password && c in pools.Get(cls)
  {
    var seeded := SeedRequired(pools.InOrder(), e.draws).value;
    var filled := Fill(seeded.0, fullSet, length, seeded.1).value;
    var password := GenerateSecurePassword(length, fullSet, pools, e).value;
    assert Shuffle(filled.0, e.swaps) == Some(password);
    PermutationKeepsMembers(filled.0, password);
    SeedsCoverPools(pools, seeded.0, filled.0);
    BufferFromPools(pools, seeded.0, filled.0, fullSet);
  }

  /** Every character of the buffer is a seed, drawn from its pool, or a
      fill character, drawn from the combined set. */
  lemma BufferFromPools(pools: ClassPools, seeds: string, buffer: string, fullSet: string)
    requires |seeds| == |NonEmpty(pools.InOrder())|
    requires forall k :: 0 <= k < |seeds| ==> seeds[k] in NonEmpty(pools.InOrder())[k]
    requires |seeds| <= |buffer| && buffer[..|seeds|] == seeds
    requires forall k :: |seeds| <= k < |buffer| ==> buffer[k] in fullSet
    ensures forall c :: c in buffer ==> c in fullSet || exists cls: CharClass :: c in pools.Get(cls)
  {
    forall c | c in buffer ensures c in fullSet || exists cls: CharClass :: c in pools.Get(cls) {
      var k :| 0 <= k < |buffer| && buffer[k] == c;
      if k < |seeds| {
        assert buffer[k] == seeds[k];
        var p := NonEmpty(pools.InOrder())[k];
        assert p in pools.InOrder();
        var i :| 0 <= i < 4 && pools.InOrder()[i] == p;
        var cls: CharClass := if i == 0 then Lower else if i == 1 then Upper else if i == 2 then Numbers else Symbols;
        assert pools.Get(cls) == p;
      }
    }
  }

  /** The seed characters, kept as the prefix of the buffer, put one
      character of every non-empty pool into it, and every buffer character
      comes from a pool or the combined set. */
  lemma SeedsCoverPools(pools: ClassPools, seeds: string, buffer: string)
    requires |seeds| == |NonEmpty(pools.InOrder())|
    requires forall k :: 0 <= k < |seeds| ==> seeds[k] in NonEmpty(pools.InOrder())[k]
    requires |seeds| <= |buffer| && buffer[..|seeds|] == seeds
    ensures forall cls: CharClass :: |pools.Get(cls)| > 0 ==> exists c :: c in buffer && c in pools.Get(cls)
  {
    forall cls: CharClass | |pools.Get(cls)| > 0 ensures exists c :: c in buffer && c in pools.Get(cls) {
      var p := pools.Get(cls);
      assert p == pools.InOrder()[cls.Index()];
      assert p in NonEmpty(pools.InOrder());
      var k :| 0 <= k < |NonEmpty(pools.InOrder())| && NonEmpty(pools.InOrder())[k] == p;
      assert buffer[k] == seeds[k];
    }
  }

  /** The pools of a successful build fit the 32-bit draw. */
  lemma BuiltPoolsDrawable(o: GenerationOptions)
    requires BuildCharacterSet(o).Success?
    ensures |BuildCharacterSet(o).value.0| <= UIntMax
    ensures DrawablePools(BuildCharacterSet(o).value.1.InOrder())
  {
    CombinedPoolFacts(o);
    var built := BuildCharacterSet(o).value;
    assert built.0 == built.1.lower + built.1.upper + built.1.numbers + built.1.symbols by {
      BuildCharacterSetReference(o);
    }
    PartsDrawable(built.0, built.1);
  }

  /** No pool is longer than the combined pool it is a part of. */
  lemma PartsDrawable(full: string, pools: ClassPools)
    requires full == pools.lower + pools.upper + pools.numbers + pools.symbols
    ensures forall p :: p in pools.InOrder() ==> |p| <= |full|
  {
  }

  /** `Generate`: validation, then pool building, then assembly. Policy
      errors are raised before any random value is used. */
  function Generate(o: GenerationOptions, e: Entropy): (r: Result<string, Error>)
    ensures r.Success? ==> |r.value| == o.length
  {
    var _ :- ValidateOptions(o);
    var built :- BuildCharacterSet(o);
    BuiltPoolsDrawable(o);
    GenerateSecurePassword(o.length, built.0, built.1, e)
  }

  /** A successful build yields the reference pools, and an enabled class's
      pool is non-empty. */
  lemma BuiltPoolsAreReference(o: GenerationOptions)
    requires BuildCharacterSet(o).Success?
    ensures BuildCharacterSet(o).value.0 == ExpectedCombined(o)
    ensures forall cls: CharClass :: BuildCharacterSet(o).value.1.Get(cls) == ExpectedPool(o, cls)
    ensures forall cls: CharClass :: o.Uses(cls) <==> |ExpectedPool(o, cls)| > 0
  {
    BuildCharacterSetReference(o);
    assert !Emptied(o, Lower) && !Emptied(o, Upper) && !Emptied(o, Numbers) && !Emptied(o, Symbols);
    var expected := ClassPools(ExpectedPool(o, Lower), ExpectedPool(o, Upper), ExpectedPool(o, Numbers), ExpectedPool(o, Symbols));
    assert BuildCharacterSet(o).value == (ExpectedCombined(o), expected);
    forall cls: CharClass ensures BuildCharacterSet(o).value.1.Get(cls) == ExpectedPool(o, cls) {
      assert expected.Get(cls) == ExpectedPool(o, cls) by {
        match cls
        case Lower =>
        case Upper =>
        case Numbers =>
        case Symbols =>
      }
    }
    forall cls: CharClass ensures o.Uses(cls) <==> |ExpectedPool(o, cls)| > 0 {
      ClassPoolMatchesReference(o, cls);
    }
  }

  lemma ConcatMembership(a: string, b: string, c: string, d: string, x: char)
    ensures x in a + b + c + d <==> x in a || x in b || x in c || x in d
  {
  }

  /** The combined pool is exactly the union of the class pools. */
  lemma CombinedIsUnionOfPools(o: GenerationOptions, c: char)
    ensures c in ExpectedCombined(o) <==> exists cls: CharClass :: c in ExpectedPool(o, cls)
  {
    var l, u, n, s := ExpectedPool(o, Lower), ExpectedPool(o, Upper), ExpectedPool(o, Numbers), ExpectedPool(o, Symbols);
    ConcatMembership(l, u, n, s, c);
    assert ExpectedCombined(o) == l + u + n + s;
    if c in l || c in u || c in n || c in s {
      var cls: CharClass := if c in l then Lower else if c in u then Upper else if c in n then Numbers else Symbols;
      assert c in ExpectedPool(o, cls);
    }
    if cls: CharClass :| c in ExpectedPool(o, cls) {
      match cls
      case Lower => assert c in l;
      case Upper => assert c in u;
      case Numbers => assert c in n;
      case Symbols => assert c in s;
    }
  }

  /** What every successfully generated password satisfies: the requested
      length; only characters of the combined pool, hence of an enabled
      class's base alphabet and never an excluded or (under
      `excludeAmbiguous`) an ambiguous character; and at least one character
      of every enabled class. */
  lemma GeneratedPasswordProperties(o: GenerationOptions, e: Entropy)
    requires Generate(o, e).Success?
    ensures ValidateOptions(o).Success? && BuildCharacterSet(o).Success?
    ensures var p := Generate(o, e).value;
      && |p| == o.length
      && (forall c :: c in p ==> c in BuildCharacterSet(o).value.0)
      && (forall c :: c in p ==> exists cls: CharClass :: o.Uses(cls) && c in o.Base(cls))
      && (forall c :: c in p ==> c !in o.excludeCharacters)
      && (o.excludeAmbiguous ==> forall c :: c in p ==> c !in Ambiguous)
    ensures var p := Generate(o, e).value;
      forall cls: CharClass :: o.Uses(cls) ==> exists c :: c in p && c in o.Base(cls) && c !in o.excludeCharacters
  {
    var built := BuildCharacterSet(o).value;
    var p := Generate(o, e).value;
    BuiltPoolsDrawable(o);
    BuiltPoolsAreReference(o);
    CombinedPoolFacts(o);
    assert GenerateSecurePassword(o.length, built.0, built.1, e) == Success(p);
    SecurePasswordContents(o.length, built.0, built.1, e);
    forall c | c in p
      ensures c in built.0
      ensures exists cls: CharClass :: o.Uses(cls) && c in o.Base(cls)
    {
      CombinedIsUnionOfPools(o, c);
      var cls: CharClass :| c in ExpectedPool(o, cls);
      ExpectedPoolFacts(o, cls);
    }
    forall cls: CharClass | o.Uses(cls)
      ensures exists c :: c in p && c in o.Base(cls) && c !in o.excludeCharacters
    {
      var c :| c in p && c in ExpectedPool(o, cls);
      ExpectedPoolFacts(o, cls);
    }
  }

  /** Policy errors come first and do not depend on the randomness: a
      validation error beats a pool error, and any failure other than running
      out of supplied random values is the same for every random input. */
  lemma PolicyErrorsPrecedeRandomness(o: GenerationOptions, e1: Entropy, e2: Entropy)
    ensures ValidateOptions(o).Failure? ==> Generate(o, e1) == Failure(ValidateOptions(o).error)
    ensures ValidateOptions(o).Success? && BuildCharacterSet(o).Failure? ==>
      Generate(o, e1) == Failure(BuildCharacterSet(o).error)
    ensures Generate(o, e1).Failure? && Generate(o, e1).error != EntropyExhausted ==>
      Generate(o, e2) == Generate(o, e1)
  {
    if ValidateOptions(o).Success? && BuildCharacterSet(o).Success? {
      var built := BuildCharacterSet(o).value;
      BuiltPoolsDrawable(o);
      assert Generate(o, e1) == GenerateSecurePassword(o.length, built.0, built.1, e1);
      assert |built.0| >= 10;
    }
  }

  /** Below 2^31 a draw is accepted by the threshold of any set of fewer
      than 2^31 characters. */
  const AlwaysAccepted: int := 0x8000_0000

  predicate AllAccepted(draws: seq<uint32>) {
    forall i :: 0 <= i < |draws| ==> draws[i] < AlwaysAccepted
  }

  lemma DrawAcceptsFirst(characterSet: string, draws: seq<uint32>)
    requires 0 < |characterSet| < AlwaysAccepted
    requires |draws| > 0 && AllAccepted(draws)
    ensures Draw(characterSet, draws) == Success((characterSet[draws[0] % |characterSet|], draws[1..]))
    ensures AllAccepted(draws[1..])
  {
    assert FirstAcceptedAt(draws, Threshold(|characterSet|), 0);
    DrawTakesFirstAccepted(characterSet, draws, 0);
  }

  lemma {:induction false} SeedSucceeds(pools: seq<string>, draws: seq<uint32>)
    requires forall p :: p in pools ==> |p| < AlwaysAccepted
    requires |draws| >= |NonEmpty(pools)| && AllAccepted(draws)
    ensures DrawablePools(pools)
    ensures SeedRequired(pools, draws).Success?
    ensures SeedRequired(pools, draws).value.1 == draws[|NonEmpty(pools)|..]
    decreases |pools|
  {
    if |pools| > 0 {
      var tail := pools[1..];
      assert forall p :: p in tail ==> p in pools;
      if |pools[0]| == 0 {
        assert NonEmpty(pools) == NonEmpty(tail);
        SeedSucceeds(tail, draws);
      } else {
        assert NonEmpty(pools) == [pools[0]] + NonEmpty(tail);
        DrawAcceptsFirst(pools[0], draws);
        var first := Draw(pools[0], draws).value;
        SeedSucceeds(tail, draws[1..]);
        var rest := SeedRequired(tail, first.1).value;
        assert SeedRequired(pools, draws) == Success(([first.0] + rest.0, rest.1));
        assert draws[1..][|NonEmpty(tail)|..] == draws[|NonEmpty(pools)|..];
      }
    }
  }

  lemma {:induction false} FillSucceeds(buffer: string, fullSet: string, length: int, draws: seq<uint32>)
    requires 0 < |fullSet| < AlwaysAccepted
    requires |draws| >= length - |buffer| && AllAccepted(draws)
    ensures Fill(buffer, fullSet, length, draws).Success?
    decreases length - |buffer|
  {
    if |buffer| < length {
      DrawAcceptsFirst(fullSet, draws);
      var next := Draw(fullSet, draws).value;
      FillSucceeds(buffer + [next.0], fullSet, length, next.1);
    }
  }

  lemma SecurePasswordSucceeds(length: int, fullSet: string, pools: ClassPools, e: Entropy)
    requires 0 < |fullSet| < AlwaysAccepted
    requires forall p :: p in pools.InOrder() ==> |p| < AlwaysAccepted
    requires 4 <= length <= |e.draws| && AllAccepted(e.draws)
    requires |e.swaps| >= length - 1
    ensures DrawablePools(pools.InOrder())
    ensures GenerateSecurePassword(length, fullSet, pools, e).Success?
  {
    SeedSucceeds(pools.InOrder(), e.draws);
    var seeded := SeedRequired(pools.InOrder(), e.draws).value;
    assert AllAccepted(seeded.1);
    FillSucceeds(seeded.0, fullSet, length, seeded.1);
    var filled := Fill(seeded.0, fullSet, length, seeded.1).value;
    assert |filled.0| == length;
  }

  /** Generation succeeds whenever the options pass validation and pool
      building and the random input supplies `length` draws below 2^31 and
      `length - 1` shuffle choices: the seeds and the fill then consume
      exactly `length` draws. */
  lemma GenerationSucceeds(o: GenerationOptions, e: Entropy)
    requires ValidateOptions(o).Success? && BuildCharacterSet(o).Success?
    requires |e.draws| >= o.length && AllAccepted(e.draws)
    requires |e.swaps| >= o.length - 1
    ensures Generate(o, e).Success?
  {
    var built := BuildCharacterSet(o).value;
    BuiltPoolsDrawable(o);
    CombinedPoolFacts(o);
    assert built.0 == built.1.lower + built.1.upper + built.1.numbers + built.1.symbols by {
      BuildCharacterSetReference(o);
    }
    PartsDrawable(built.0, built.1);
    SecurePasswordSucceeds(o.length, built.0, built.1, e);
    assert Generate(o, e) == GenerateSecurePassword(o.length, built.0, built.1, e);
  }

  /** Call `i` of a batch is the first to fail, with `error`. */
  predicate FirstFailureAt(o: GenerationOptions, sources: seq<Entropy>, i: nat, error: Error) {
    && (forall j :: 0 <= j < i ==> j < |sources| && Generate(o, sources[j]).Success?)
    && (if i < |sources| then Generate(o, sources[i]) == Failure(error) else error == EntropyExhausted)
  }

  /** The first `n` calls of a batch, call `i` using random input `sources[i]`;
      the earliest failing call decides the error. */
  function GenerateEach(o: GenerationOptions, n: nat, sources: seq<Entropy>): (r: Result<seq<string>, Error>)
    ensures r.Success? ==>
      && |r.value| == n
      && forall i :: 0 <= i < n ==> i < |sources| && Generate(o, sources[i]) == Success(r.value[i])
    ensures r.Failure? ==> exists i: nat :: i < n && FirstFailureAt(o, sources, i, r.error)
    decreases n
  {
    if n == 0 then Success([])
    else
      match GenerateEach(o, n - 1, sources)
      case Failure(error) => Failure(error)
      case Success(earlier) =>
        assert forall j :: 0 <= j < n - 1 ==> j < |sources| && Generate(o, sources[j]).Success?;
        if n - 1 >= |sources| then
          assert FirstFailureAt(o, sources, n - 1, EntropyExhausted);
          Failure(EntropyExhausted)
        else
          match Generate(o, sources[n - 1])
          case Failure(error) =>
            assert FirstFailureAt(o, sources, n - 1, error);
            Failure(error)
          case Success(password) => Success(earlier + [password])
  }

  /** `GenerateMultiple`: `count` independent generations. A negative count is
      rejected by the range it enumerates; a count of zero produces no
      password and so performs no validation. */
  function GenerateMultiple(o: GenerationOptions, count: int, sources: seq<Entropy>): (r: Result<seq<string>, Error>)
    ensures count < 0 ==> r == Failure(CountOutOfRange)
    ensures r.Success? ==> |r.value| == count
    ensures r.Success? ==> forall i :: 0 <= i < count ==> i < |sources| && Generate(o, sources[i]) == Success(r.value[i])
    ensures r.Failure? && count >= 0 ==> exists i: nat :: i < count && FirstFailureAt(o, sources, i, r.error)
  {
    if count < 0 then Failure(CountOutOfRange)
    else GenerateEach(o, count, sources)
  }

  /** Every password of a successful batch has all the properties of a
      single generation. */
  lemma BatchPasswordProperties(o: GenerationOptions, count: int, sources: seq<Entropy>, i: int)
    requires GenerateMultiple(o, count, sources).Success?
    requires 0 <= i < count
    ensures var p := GenerateMultiple(o, count, sources).value[i];
      && |p| == o.length
      && BuildCharacterSet(o).Success?
      && (forall c :: c in p ==> c in BuildCharacterSet(o).value.0)
      && (forall c :: c in p ==> c !in o.excludeCharacters)
      && (o.excludeAmbiguous ==> forall c :: c in p ==> c !in Ambiguous)
      && (forall cls: CharClass :: o.Uses(cls) ==> exists c :: c in p && c in o.Base(cls) && c !in o.excludeCharacters)
  {
    GeneratedPasswordProperties(o, sources[i]);
  }
}
