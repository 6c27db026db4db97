# Who's this Pokémon — round engine

A Dafny model of the round engine of a terminal trivia game (`src/main.rs`).
Each round draws a random national-Pokédex id for the chosen generation. It
fetches that species and shows its Pokédex flavor text for the chosen
language and game version, with line breaks turned into spaces. It then reads
the player's guess. A guess is right when the input, lowercased and trimmed,
equals the species name. After the configured number of rounds the game
reports its hits.

Modules, one per component:

- `Base`: `Option` and `Result`.
- `Text`: the flavor-text sanitizer, ASCII lowercasing, Unicode-whitespace trimming and the answer check.
- `Species`: the decoded species payload and `to_pokemon`, the first-match lookup of the flavor text.
- `Generations`: the generation boundary table and the id draw.
- `Config`: the settings, the defaults and the command-line overlay.
- `Score`: the hit counter, both the program's `i32` counter and the corrected count.
- `Session`: one round, the game as a sequence of rounds, and the round loop.

What the program gets from outside is passed in as a `World`:

- one arbitrary `entropy` value per round, in place of the random generator;
- the species endpoint, as a function from id to a decoded species or a fetch error;
- the player's input lines, as a sequence.

Behaviour modelled as the code has it, where the intended design differs:

- Only the player's input is lowercased and trimmed; the species name is compared as it comes (`Text.UnnormalisedNameNeverMatches`).
- Ids are drawn from 1 up to, but not including, the generation's own boundary. So the last id of a generation is never drawn, and the draws of different generations overlap (`Generations.DrawsOfEarlierGenerationsOverlap`, `Generations.DrawableVersusOwnedIds`).
- A species with no text for the requested language and version makes the program panic. Here that is a `Failure(MissingDescription(...))`, which ends the game like any other error.
- Any error ends the game at once. Rounds already completed keep their outcomes in the model's `Progress`; the program itself prints no tally in that case.
- A generation outside 1 to 9 fails only when the first round reads the table. A game of zero rounds never does (`Session.InvalidGenerationEndsFirstRound`).
- At end of input `read_line` reads nothing into the fresh buffer, so the round compares the empty string.

## Model

| member | source | states |
|---|---|---|
| Text.ReplaceChar | src/main.rs:156 | replacing one character keeps the length; each position holds the replacement if it held the replaced character, and is unchanged otherwise |
| Text.Sanitize | src/main.rs:155-157 | the sanitizer keeps the length, puts one space where each newline or form feed was and leaves every other character in place; its output holds no newline and no form feed |
| Text.SanitizeFixesSanitized | src/main.rs:156 | text without newline or form feed is unchanged by the sanitizer |
| Text.SanitizeIdempotent | src/main.rs:156 | sanitizing twice gives the same text as sanitizing once |
| Text.SanitizeFixedPoints | src/main.rs:156 | a text is its own sanitization exactly when it holds no newline and no form feed |
| Text.LowerChar | src/main.rs:141 | lowercasing a character gives no ASCII capital; a capital moves to its lowercase letter, anything else is kept |
| Text.ToLowercase | src/main.rs:141 | lowercasing the input keeps its length; each character is kept or is a capital moved to its lowercase letter; no ASCII capital is left |
| Text.LowercaseFixesLower | src/main.rs:141 | a string without ASCII capitals is unchanged by lowercasing |
| Text.LowercaseIdempotent | src/main.rs:141 | lowercasing twice gives the same string as lowercasing once |
| Text.LeadingWhitespace | src/main.rs:141 | the leading run counted by trim is all whitespace and is followed by a non-whitespace character or the end |
| Text.TrailingWhitespace | src/main.rs:141 | the trailing run counted by trim is all whitespace and is preceded by a non-whitespace character or the start |
| Text.Trim | src/main.rs:141 | trim returns a contiguous slice of its input that neither starts nor ends with whitespace, and everything cut from either side is whitespace |
| Text.TrimFixesTrimmed | src/main.rs:141 | a string that neither starts nor ends with whitespace is unchanged by trim |
| Text.TrimIdempotent | src/main.rs:141 | trimming twice gives the same string as trimming once |
| Text.LeadingOfPadded | src/main.rs:141 | whitespace put in front of a string that starts with non-whitespace is exactly what trim removes at the front |
| Text.TrailingOfPadded | src/main.rs:141 | whitespace put behind a string that ends with non-whitespace is exactly what trim removes at the back |
| Text.TrimRemovesPadding | src/main.rs:141 | trim of a trimmed string padded with whitespace on both sides gives back that string |
| Text.LowercaseDistributes | src/main.rs:141 | lowercasing a concatenation is the concatenation of the lowercased parts |
| Text.BlankIsLower | src/main.rs:141 | whitespace is unchanged by lowercasing |
| Text.GuessIgnoresCaseAndPadding | src/main.rs:137-141 | an input made of any capitalisation of the name with whitespace on either side is a correct guess |
| Text.LineOfWord | src/main.rs:139-141 | a line read by `read_line` (a word and its newline) is correct when the word lowercases to the name |
| Text.UnnormalisedNameNeverMatches | src/main.rs:141 | a name holding an ASCII capital, or starting or ending with whitespace, is never guessed, since only the input is normalised |
| Text.IsCorrectGuess | src/main.rs:141 | a guess can only be correct for a name without ASCII capitals that neither starts nor ends with whitespace and is no longer than the input |
| Text.TrimKeepsLowercase | src/main.rs:141 | trimming a lowercased input keeps it free of capitals and makes it no longer |
| Text.ShoutedPaddedGuessMatches | src/main.rs:141 | the input " PIKACHU " with its newline is a correct guess for "pikachu" |
| Species.Matches | src/main.rs:72 | the search predicate of `find`: an entry is chosen when both its language name and its version name equal the request |
| Species.FindFrom | src/main.rs:69-72 | the search from a position returns the first matching index at or after it, with no match before it; or no index when nothing from there on matches |
| Species.FindEntry | src/main.rs:69-72 | the lookup finds an index exactly when some entry has both the language and the version; the index found matches and no earlier entry does |
| Species.ToPokemon | src/main.rs:68-82 | it fails, with the species name, version and language, exactly when no entry has both the language and the version; on success the name is unchanged and the description is the sanitized text of the first such entry |
| Species.FirstMatchWins | src/main.rs:72 | a matching entry put in front of any entries is the one whose text is shown |
| Species.NonMatchingEntryIsSkipped | src/main.rs:72 | a non-matching entry put in front changes neither success nor the description |
| Species.FindFromShift | src/main.rs:72 | searching behind one extra leading entry finds the same entry one place later, or nothing in both cases |
| Species.DescriptionIsSanitized | src/main.rs:80 | a description produced by the lookup never holds a newline or a form feed |
| Species.ResolverExamples | src/main.rs:68-82 | with two entries for the same language and version the first text wins; a species whose only text is French for version "y" fails for English and version "x" |
| Generations.Boundary | src/main.rs:93 | the boundary read for a generation lies between 151 and 1008 and is above the boundary of every earlier generation |
| Generations.BoundariesStrictlyIncrease | src/main.rs:93 | the boundary table is strictly increasing |
| Generations.DrawId | src/main.rs:129 | the draw gives an id exactly when the generation is 1 to 9 (otherwise the indexing fails); that id is at least 1 and below the generation's boundary, so never the boundary itself |
| Generations.DrawIdReachesEveryDrawable | src/main.rs:129 | every id from 1 to below the boundary comes out of some draw, so those are exactly the ids that can be drawn |
| Generations.DrawsOfEarlierGenerationsOverlap | src/main.rs:129 | any id drawable for a generation is drawable for every later generation |
| Generations.GenerationsPartitionIds | src/main.rs:93 | every id from 1 to 1008 lies in exactly one generation's range, from above the previous boundary up to its own |
| Generations.DrawableVersusOwnedIds | src/main.rs:129 | the ids drawable for a generation are those of it and all earlier generations, except its own last id |
| Config.Overlay | src/main.rs:98-109 | a given command-line option replaces exactly its own field (language, version, generation or rounds) and an absent one leaves that field as loaded |
| Config.OverlayWithoutOptionsKeepsConfig | src/main.rs:98-109 | with no option given the loaded settings are used unchanged |
| Config.OverlayWithAllOptionsIgnoresConfig | src/main.rs:98-109 | with all four options given the loaded settings do not affect the result |
| Config.OverlayIdempotent | src/main.rs:98-109 | applying the same command line twice gives the same settings as applying it once |
| Config.Effective | src/main.rs:33-42 | each field comes from the command line if given, else from the stored file if there is one, else from the defaults x, en, 4 and 10 |
| Score.Hits | src/main.rs:141-143 | the hit count is at most the number of rounds, and equals the round count exactly when every round was correct |
| Score.HitsCountTrueOutcomes | src/main.rs:141-143 | the hit count is the number of correct outcomes, whatever their order |
| Score.HitsAppend | src/main.rs:141-146 | one more round adds one hit when it was correct and none otherwise |
| Score.HitsI32 | src/main.rs:125 | the program's counter, an `i32` with an overflow check, stays between 0 and the largest `i32` whenever it has not overflowed |
| Score.HitsI32AgreesWhileItFits | src/main.rs:125-143 | the `i32` counter equals the true hit count while that count fits in an `i32`, and has overflowed once it does not |
| Score.AllCorrectLongGameOverflows | src/main.rs:125-143 | a game of 2^31 rounds, which a `u32` round count allows, with every guess right overflows the `i32` counter |
| Score.CorrectRoundsAppend | src/main.rs:141-146 | one more correct round adds its own index to the correct rounds; a wrong one adds nothing |
| Score.HitsCountCorrectRounds | src/main.rs:141-146 | the hit count is the number of round indices whose guess was right |
| Session.PlayRound | src/main.rs:127-129 | a round fails with the invalid-generation error exactly when the generation is outside 1 to 9 |
| Session.RoundOutcomeIsGuess | src/main.rs:127-141 | a round that succeeds drew an id the generation allows from its own entropy, fetched that species, found its description, and reports whether the round's line is a correct guess for its name |
| Session.FetchFailureEndsRound | src/main.rs:131-133 | a round whose drawn id cannot be fetched or decoded fails with that cause |
| Session.MissingDescriptionEndsRound | src/main.rs:72-76 | a round whose fetched species has no entry in the language for the version fails with the lookup error naming the species, the version and the language |
| Session.Play | src/main.rs:126-148 | after n rounds are attempted the game holds at most n outcomes; without an error it holds all n; with one, the round after the last recorded one failed with it; every recorded outcome is that round's result |
| Session.AbortedGameStaysAborted | src/main.rs:131-133 | once a round has failed, attempting further rounds changes nothing |
| Session.PlayStep | src/main.rs:126-146 | a round that succeeds appends its outcome and the game goes on |
| Session.PlayAborts | src/main.rs:131-134 | a failing round ends the game with its error and the outcomes recorded before it, however many rounds were asked for |
| Session.PlayOfSucceededRounds | src/main.rs:126-146 | when the first rounds all succeed, the game records exactly their outcomes and no error |
| Session.SucceededRoundsExtend | src/main.rs:126-146 | one more succeeded round extends the record of succeeded rounds by its outcome |
| Session.RunRounds | src/main.rs:125-148 | the loop returns hits at most the rounds played, and rounds played at most the rounds asked for; all of them when there is no error, otherwise the round that failed; and exactly the rounds, hits and error of the game |
| Session.RunGame | src/main.rs:125-150 | the loop over `cfg.rounds` rounds of the game, with the corrected hit count, gives the same bounds, the round that failed if any, and exactly the rounds, hits and error of the game |
| Session.InvalidGenerationEndsFirstRound | src/main.rs:126-129 | a generation outside 1 to 9 ends a game of at least one round in its first round, before any fetch; a game of zero rounds finishes without error |
| Session.PlayThreeRounds | src/main.rs:126-148 | three succeeding rounds are recorded in order |
| Session.PlayFailsInThirdRound | src/main.rs:126-148 | two succeeding rounds followed by a failing one end the game after two recorded outcomes |
| Session.RoundWithSpecies | src/main.rs:127-141 | a round whose draw, fetch and lookup all succeed is decided by its input line against the name alone |
| Session.OneTextSpeciesResolves | src/main.rs:68-82 | a species with one English text for version "x" resolves, with the default settings, to its name and the sanitized text |
| Session.ThreeRoundExampleRound | src/main.rs:127-141 | every round of the three-round example is decided by its own line |
| Session.ThreeRoundExampleFirst | src/main.rs:139-143 | answering the plain name is a hit |
| Session.ThreeRoundExampleSecond | src/main.rs:139-146 | answering another name is a miss |
| Session.ThreeRoundExampleThird | src/main.rs:139-143 | answering the name in capitals is a hit |
| Session.ThreeRoundExample | src/main.rs:125-148 | three rounds fetching the same species, answered with its name, another name and its name in capitals (bulbasaur, charmander, BULBASAUR), give outcomes hit, miss, hit |
| Session.FlakyWorldFirstRound | src/main.rs:127-141 | in the failure example the first round draws id 1 and the empty input misses |
| Session.FlakyWorldSecondRound | src/main.rs:127-141 | in the failure example the second round draws id 2 and misses too |
| Session.FlakyWorldThirdRound | src/main.rs:127-131 | in the failure example the third round draws id 3, whose fetch fails |
| Session.FetchFailureInThirdRoundExample | src/main.rs:125-134 | a five-round game whose third fetch fails stops with that error after two recorded rounds |

## Left out

- The HTTP request and the JSON decoding of the species (`reqwest`, serde, the `tokio` runtime). The endpoint is a parameter returning a decoded species or a `FetchError`.
- The endpoint is keyed by id, so within one game the same id always gives the same response. Transient failures that differ between two fetches of the same id are not modelled.
- Loading and storing the configuration file (`confy`), `--save` and the `--no-play` early exit: file I/O. `Config.Effective` takes the stored settings as an `Option`; using the defaults when there is no file is `confy`'s behaviour, and its load errors are not modelled.
- Command-line parsing (`clap`): `Args` is the already-parsed record.
- The random generator: each draw is fed an arbitrary `entropy` value, mapped onto the requested range. Only which ids can come out is stated; uniformity is not.
- All printing: the welcome lines, the description, "Correct!", the wrong-answer line with the name in capitals, and the final tally.
- `read_line` errors (its `unwrap` panics on an I/O error or invalid UTF-8). Input lines are taken as given text.
- Text.ToLowercase: maps only ASCII A–Z. Rust's `to_lowercase` also lowercases non-ASCII letters, and can change the length of the string.
- Text.LowerChar: the same ASCII-only restriction as `Text.ToLowercase`.
- Session.RunGame: counts hits in an unbounded `nat`, which is the corrected counter of the finding below. It agrees with the program's `i32` counter exactly while the count fits in an `i32` (`Score.HitsI32AgreesWhileItFits`).
- Session.RunRounds: the same corrected counter as `Session.RunGame`.
- The difference between debug and release builds. A generation of 0 underflows `usize` (a debug panic) or wraps to a huge index (a release index panic); both are the invalid-generation error. The `i32` hit counter panics in debug and wraps in release; `Score.HitsI32` models the debug panic.

## Findings

| source | as written | input that shows it | evidently intended | confidence | as-written member | corrected member |
|---|---|---|---|---|---|---|
| src/main.rs:125 | `let mut hits = 0;` takes Rust's fallback integer type `i32`, while `rounds` is a `u32` | `--rounds 2147483648` with every guess right: the 2147483648th hit overflows the counter (a panic in a debug build, a negative tally in a release build) | the counter holds any count up to `rounds`, for instance as a `u32` like `rounds` | not executed; needs 2^31 rounds | Score.AllCorrectLongGameOverflows | Score.Hits, Session.RunRounds, Session.RunGame |
