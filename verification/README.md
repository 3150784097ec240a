# Password generator pipeline in Dafny

This project models the generation core of a C# password generator. That
core is the `PasswordGenerator` class and the `PasswordGenerationOptions`
record it consumes. A call to `Generate(options)` goes through four stages:

1. **Validation.** The length must be 8..64, and at least one of the four
   character classes must be enabled.
2. **Pool building.** Each enabled class takes its base alphabet:
   - lower, upper and numbers use the curated, ambiguity-free alphabets
     under `ExcludeAmbiguous`, and the full a-z, A-Z, 0-9 otherwise;
   - symbols always use the 33 printable ASCII characters that are not
     letters or digits, space included.

   Every excluded character is removed from each alphabet. An emptied
   enabled class is an error that names the class; classes are checked in
   the order lower, upper, numbers, symbols. The enabled pools are then
   concatenated, and the combined pool must hold at least 10 characters.
3. **Unbiased draw.** Rejection sampling over 32-bit values against the
   threshold `(2^32 - 1) - ((2^32 - 1) mod N)`, then `value mod N`.
4. **Assembly.** One character is drawn from each non-empty class pool, the
   rest is filled from the combined pool up to the requested length, and the
   result is shuffled.

`GenerateMultiple(options, count)` performs `count` such generations.

Randomness is an explicit input. An `Entropy` value carries the 32-bit draws
and the shuffle's choice values. With that input fixed, every operation is a
pure function. The fallible ones return `Result<_, Error>`, except the
shuffle, which returns an `Option`. Each exception the C# code throws on
non-null options becomes an `Error` value.

Modules, in dependency order:

| file | module | contents |
|---|---|---|
| `Wrappers.dfy` | `Wrappers` | `Option`, `Result` |
| `Errors.dfy` | `Errors` | the failures and their messages |
| `Alphabets.dfy` | `Alphabets` | character classes, alphabet constants, the computed symbol alphabet |
| `Options.dfy` | `Options` | the options record and its defaults |
| `CharacterPools.dfy` | `CharacterPools` | `Except`, `GetFilteredSet`, `BuildCharacterSet`, and reference definitions of them |
| `RandomDraw.dfy` | `RandomDraw` | `GetRandomCharacter`, the rejection threshold, and the no-bias counting argument |
| `Shuffling.dfy` | `Shuffling` | the final permutation |
| `Generator.dfy` | `Generator` | `ValidateOptions`, `GenerateSecurePassword`, `Generate`, `GenerateMultiple` |
| `Scenarios.dfy` | `Scenarios` | the default options and the concrete policies of the generator's tests |

Three details of the code that the model keeps:
- The symbol alphabet is built from codes 32..126, so it includes space and
  has 33 characters.
- The rejection threshold is computed from 2^32 - 1. It is therefore N
  lower than floor(2^32 / N) * N when N divides 2^32, and equal to it
  otherwise (`RandomDraw.ThresholdAgainstFullRange`).
- The minimum-10 check counts the length of the concatenated pool. That
  length equals the number of distinct characters, because the pool has no
  repeats (`CharacterPools.CombinedPoolFacts`).

## Model

| member | source | states |
|---|---|---|
| Alphabets.SymbolsFrom | PasswordGenerator.Core/Generation/PasswordGenerator.cs:17-22 | the filtered code range holds exactly the characters with codes from..126 that are not ASCII letters or digits |
| Alphabets.AsciiSymbolsValue | PasswordGenerator.Core/Generation/PasswordGenerator.cs:12-23 | the 33-character symbol literal, space first, equals the code range 32..126 with letters and digits removed |
| Alphabets.BaseAlphabetFacts | PasswordGenerator.Core/Generation/PasswordGenerator.cs:51-65 | every base alphabet is duplicate-free and stays in its class's range; under `excludeAmbiguous` none holds a character of `iI1lLoO0` |
| Alphabets.BaseAlphabetSizes | PasswordGenerator.Core/Generation/PasswordGenerator.cs:9-11 | base alphabet sizes are 23/23/8 curated, 26/26/10 full, and 33 symbols either way |
| Alphabets.CuratedWithinFull | PasswordGenerator.Core/Generation/PasswordGenerator.cs:51-61 | each curated alphabet holds exactly the full alphabet's characters that are not ambiguous |
| Alphabets.AmbiguousInFullAlphabets | PasswordGenerator.Core/Generation/PasswordGenerator.cs:52-60 | each ambiguous character is in the full lower, upper or digit alphabet |
| Alphabets.ClassRangesDisjoint | PasswordGenerator.Core/Generation/PasswordGenerator.cs:51-65 | no character lies in the ranges of two different classes |
| CharacterPools.ExceptFrom | PasswordGenerator.Core/Generation/PasswordGenerator.cs:93 | set difference yields exactly the characters of the base that are neither excluded nor already yielded, with no repeats |
| CharacterPools.ExceptMatchesWithout | PasswordGenerator.Core/Generation/PasswordGenerator.cs:93 | on a duplicate-free base, set difference equals order-preserving filtering, so a pool keeps its alphabet's order |
| CharacterPools.FilteredSet | PasswordGenerator.Core/Generation/PasswordGenerator.cs:89-98 | a disabled class gives ""; an enabled one fails, naming the class, iff every base character is excluded; otherwise it is non-empty, repeat-free, and holds exactly the non-excluded base characters |
| CharacterPools.ClassPoolMatchesReference | PasswordGenerator.Core/Generation/PasswordGenerator.cs:51-65 | a class's pool fails iff the class is enabled and emptied, and otherwise is the reference pool, which is empty iff the class is off |
| CharacterPools.BuildCharacterSet | PasswordGenerator.Core/Generation/PasswordGenerator.cs:77-78 | a successful build has a combined pool of at least 10 characters |
| CharacterPools.BuildCharacterSetReference | PasswordGenerator.Core/Generation/PasswordGenerator.cs:45-87 | the outcome for any options: first emptied class, else empty, else too small, else the reference pools and their concatenation |
| CharacterPools.EmptyClassPrecedence | PasswordGenerator.Core/Generation/PasswordGenerator.cs:51-65 | the error names `cls` iff `cls` is emptied and no earlier class in lower, upper, numbers, symbols order is |
| CharacterPools.AllSetsEmptyOnlyWithoutClasses | PasswordGenerator.Core/Generation/PasswordGenerator.cs:73-75 | the empty-combined-pool error happens iff no class is enabled, so it is unreachable after validation |
| CharacterPools.CombinedPoolFacts | PasswordGenerator.Core/Generation/PasswordGenerator.cs:68-78 | a built combined pool is repeat-free, has 10..95 characters, and holds no excluded character and, under `excludeAmbiguous`, no ambiguous one |
| RandomDraw.Threshold | PasswordGenerator.Core/Generation/PasswordGenerator.cs:133 | the threshold is a positive multiple of N within 32 bits, and at most N of the 2^32 values lie at or above it (exactly N when N divides 2^32) |
| RandomDraw.Draw | PasswordGenerator.Core/Generation/PasswordGenerator.cs:126-144 | an empty set fails with the empty-set error; other failures mean the values ran out; a result is a member of the set and consumes at least one value |
| RandomDraw.DrawTakesFirstAccepted | PasswordGenerator.Core/Generation/PasswordGenerator.cs:137-143 | the result is the character at (first value below the threshold) mod N, and all values up to that one are consumed |
| RandomDraw.DrawExhaustedIffAllRejected | PasswordGenerator.Core/Generation/PasswordGenerator.cs:137-141 | the draw runs out iff every supplied value is rejected |
| RandomDraw.NoModuloBias | PasswordGenerator.Core/Generation/PasswordGenerator.cs:132-143 | each index below N is hit by exactly threshold / N accepted values, and that count is positive |
| RandomDraw.ThresholdAgainstFullRange | PasswordGenerator.Core/Generation/PasswordGenerator.cs:133 | the threshold equals floor(2^32 / N) * N unless N divides 2^32, where it is N lower |
| Shuffling.ShuffleFrom | PasswordGenerator.Core/Generation/PasswordGenerator.cs:146-151 | the Fisher-Yates steps return a permutation (same multiset and length), and succeed iff enough choice values remain |
| Shuffling.Shuffle | PasswordGenerator.Core/Generation/PasswordGenerator.cs:146-151 | the shuffled password is a permutation of the assembled one |
| Shuffling.PermutationKeepsMembers | PasswordGenerator.Core/Generation/PasswordGenerator.cs:146-151 | a permutation has exactly the same members |
| Generator.ValidateOptions | PasswordGenerator.Core/Generation/PasswordGenerator.cs:35-43 | validation passes iff the length is 8..64 and some class is on; the length error is reported iff the length is out of range |
| Generator.NonEmpty | PasswordGenerator.Core/Generation/PasswordGenerator.cs:109-115 | the seeded pools are exactly the non-empty ones |
| Generator.SeedRequired | PasswordGenerator.Core/Generation/PasswordGenerator.cs:108-115 | one seed per non-empty pool, the k-th drawn from the k-th such pool; the only failure is running out of values |
| Generator.Fill | PasswordGenerator.Core/Generation/PasswordGenerator.cs:117-121 | the fill reaches max(buffer length, length), keeps the buffer as a prefix, and appends only combined-pool characters |
| Generator.GenerateSecurePassword | PasswordGenerator.Core/Generation/PasswordGenerator.cs:100-124 | the assembled password has max(number of non-empty pools, length) characters; it fails only by running out of values or on an empty combined pool |
| Generator.SecurePasswordContents | PasswordGenerator.Core/Generation/PasswordGenerator.cs:108-123 | every character is from the combined pool or a class pool, and every non-empty pool contributes a character |
| Generator.SeedsCoverPools | PasswordGenerator.Core/Generation/PasswordGenerator.cs:108-115 | the seed prefix contains a character of every non-empty pool |
| Generator.BufferFromPools | PasswordGenerator.Core/Generation/PasswordGenerator.cs:108-121 | every buffer character is a seed from its pool or a fill character from the combined pool |
| Generator.Generate | PasswordGenerator.Core/Generation/PasswordGenerator.cs:25-30 | a generated password has exactly the requested length |
| Generator.BuiltPoolsAreReference | PasswordGenerator.Core/Generation/PasswordGenerator.cs:80-86 | a successful build returns the reference pools, and a pool is non-empty iff its class is on |
| Generator.CombinedIsUnionOfPools | PasswordGenerator.Core/Generation/PasswordGenerator.cs:68-71 | a character is in the combined pool iff it is in some class pool |
| Generator.GeneratedPasswordProperties | PasswordGenerator.Core/Generation/PasswordGenerator.cs:25-30 | a generated password has the requested length, draws only from enabled base alphabets, has no excluded or (under `excludeAmbiguous`) ambiguous character, and covers every enabled class |
| Generator.PolicyErrorsPrecedeRandomness | PasswordGenerator.Core/Generation/PasswordGenerator.cs:27-28 | validation errors beat pool errors, and every error other than running out of values is the same for all random inputs |
| Generator.GenerationSucceeds | PasswordGenerator.Core/Generation/PasswordGenerator.cs:100-124 | with valid options and buildable pools, `length` draws below 2^31 and `length - 1` shuffle choices always produce a password |
| Generator.GenerateEach | PasswordGenerator.Core/Generation/PasswordGenerator.cs:33 | n successful calls give n passwords, the i-th produced from the i-th random input; a failure is the first failing call's |
| Generator.GenerateMultiple | PasswordGenerator.Core/Generation/PasswordGenerator.cs:32-33 | a negative count is rejected; otherwise the result is `count` independent generations, or the first one's failure |
| Generator.BatchPasswordProperties | PasswordGenerator.Core/Generation/PasswordGenerator.cs:32-33 | every password of a batch has the requested length, draws only from the built combined pool, has no excluded or ambiguous character, and covers every enabled class |
| Scenarios.NothingExcluded | PasswordGenerator.Core/Generation/PasswordGenerationOptions.cs:10 | with nothing excluded, each enabled pool is its base alphabet unchanged and no class is emptied |
| Scenarios.AllBasesKept | PasswordGenerator.Core/Generation/PasswordGenerator.cs:45-87 | with all classes on and nothing excluded, the pools are the base alphabets and the combined pool is their concatenation |
| Scenarios.DefaultPools | PasswordGenerator.Core/Generation/PasswordGenerationOptions.cs:5-11 | default options validate, and their pools are the curated alphabets and the symbols, 87 characters combined |
| Scenarios.DefaultOptionsSucceed | PasswordGenerator.Core/Generation/PasswordGenerationOptions.cs:5-11 | the defaults always give a 16-character password when enough random values are supplied |
| Scenarios.LengthBoundaries | PasswordGenerator.Core/Generation/PasswordGenerator.cs:37-38 | any length outside 8..64 is rejected whatever the other options; with the default classes every length inside succeeds (the length-12 test among them) |
| Scenarios.AllClassesDisabled | PasswordGenerator.Tests/PasswordGeneratorTests.cs:67-79 | with every class off, a valid length gives the no-class error |
| Scenarios.UppercaseFullyExcluded | PasswordGenerator.Tests/PasswordGeneratorTests.cs:81-92 | excluding A-Z with the defaults gives the error naming "upper" |
| Scenarios.LowercaseFullyExcluded | PasswordGenerator.Tests/PasswordGeneratorTests.cs:108-119 | excluding a-z with the defaults gives the error naming "lower" |
| Scenarios.CuratedNumbersOnlyTooSmall | PasswordGenerator.Core/Generation/PasswordGenerator.cs:77-78 | curated digits alone (8 characters) always give the too-small error |
| Scenarios.LowercaseOnly | PasswordGenerator.Core/Generation/PasswordGenerator.cs:51-53 | full lowercase only, length 12: with enough accepted random values generation always succeeds, and the password is 12 lowercase ASCII letters |
| Scenarios.ExcludedCharactersNeverAppear | PasswordGenerator.Tests/PasswordGeneratorTests.cs:22-44 | excluding "aA1!" with every class on: with enough accepted random values generation always succeeds, and none of the four characters appears |
| Scenarios.AmbiguousExcluded | PasswordGenerator.Tests/AmbiguousCharacterTests.cs:11-36 | letters and digits with ambiguity excluded: with enough accepted random values generation always succeeds, and no ambiguous character appears |
| Scenarios.LettersAndDigitsCovered | PasswordGenerator.Tests/AmbiguousCharacterTests.cs:30-34 | the same policy always succeeds with enough accepted random values, and yields at least one lowercase letter, one uppercase letter and one digit |
| Scenarios.AmbiguousAvailable | PasswordGenerator.Tests/AmbiguousCharacterTests.cs:38-55 | with ambiguity allowed, every ambiguous character is in the combined pool |

## Left out

- The command-line front end (`PasswordGenerator.Cli/Program.cs`) is not modelled. It is option parsing and console output. Its `--no-ambiguous` flag defaults to false, unlike the library default.
- `IPasswordGenerator` is not modelled. It is an interface with no logic.
- The platform random source (`RandomNumberGenerator.Create`, `GetBytes`, `BitConverter.ToUInt32`) is replaced by the `draws` sequence of `Entropy`.
  - The rejection loop terminates only with probability 1. The model draws from a finite sequence instead, and reports `EntropyExhausted` when it runs out. The C# code has no such error.
  - Each `Generate` call takes its own `Entropy`, as the C# code creates a fresh random source per call.
- `RandomNumberGenerator.Shuffle` is a platform call. The model uses a forward Fisher-Yates shuffle driven by the `swaps` choice values, and proves only that the result is a permutation. That the shuffle is uniform is not stated.
- Statistical properties are not modelled: uniform characters across draws, distinct passwords in a batch, and the test that ambiguous characters do appear in 100 samples. `Scenarios.AmbiguousAvailable` states only that they are available.
- `RandomDraw.Draw` requires the set size to fit in 32 bits. This mirrors the `(uint)characterSet.Length` cast, and it excludes nothing: a .NET string length is an `int` of at most 2^31 - 1, so the cast never wraps. The largest combined pool has 95 characters in any case (`CharacterPools.CombinedPoolFacts`).
- `Generator.GenerateMultiple`: the C# code returns a lazy sequence, while the model returns all passwords, or the first failure, eagerly. The two agree: every failure of the C# code depends only on the options, so a failing batch fails on its first call, before any password is yielded. A count of zero produces no password and performs no validation.
- The pool dictionary's enumeration order is taken to be its insertion order: lower, upper, numbers, symbols. This is .NET `Dictionary` behaviour, not a documented guarantee. The order only affects which seed comes first, and the shuffle follows.
- `char.IsLetterOrDigit` is modelled on ASCII only, where it holds exactly for Latin letters and decimal digits. Nothing else reaches it: the symbol alphabet is built from codes 32..126.
- Null inputs are not modelled: the options record and its `excludeCharacters` string are never null. In C#, a null options object throws `NullReferenceException` in validation. A null `ExcludeCharacters` makes `Except` throw `ArgumentNullException` as soon as an enabled class is filtered. The command-line front end always passes a non-null exclusion string.
- Exception messages are kept in `Errors.Message`. No lemma is stated about the text of a message, only about which error is raised.
