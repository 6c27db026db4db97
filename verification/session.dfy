/**
 * The round loop of a game. Everything outside the program is a parameter:
 * the random draws, the species endpoint, and the lines the player types.
 */
module Session {
  import opened Base
  import opened Text
  import opened Species
  import opened Generations
  import opened Config
  import opened Score

  /** Why fetching a species failed: the HTTP request, or decoding its body as a species. */
  datatype FetchError = RequestFailed | BodyNotSpecies

  /** What ends a game early. */
  datatype GameError =
    | InvalidGeneration(generation: int)
    | Fetch(cause: FetchError)
    | NoDescription(missing: MissingDescription)

  /**
   * The world a game runs in: the raw random value of each round's draw,
   * the species endpoint keyed by id, and the player's input lines in order.
   */
  datatype World = World(
    entropy: nat -> nat,
    repository: nat -> Result<SpeciesResponse, FetchError>,
    inputs: seq<string>)

  /**
   * The line read in round `round`. Past the end of the input `read_line`
   * reads nothing and the buffer, fresh each round, stays empty.
   */
  function InputLine(inputs: seq<string>, round: nat): string {
    if round < |inputs| then inputs[round] else ""
  }

  /**
   * One round, numbered from 0: draw an id, fetch that species, pick its
   * description, read a line and compare. `Success(b)` says whether the
   * guess was right.
   */
  function PlayRound(cfg: MyConfig, world: World, round: nat): (r: Result<bool, GameError>)
    ensures r == Failure(InvalidGeneration(cfg.generation)) <==> !IsGeneration(cfg.generation)
  {
    match DrawId(cfg.generation, world.entropy(round))
    case None => Failure(InvalidGeneration(cfg.generation))
    case Some(id) =>
      match world.repository(id)
      case Failure(e) => Failure(Fetch(e))
      case Success(species) =>
        match ToPokemon(species, cfg.language, cfg.version)
        case Failure(m) => Failure(NoDescription(m))
        case Success(pokemon) => Success(IsCorrectGuess(InputLine(world.inputs, round), pokemon.name))
  }

  /**
   * A round succeeds only by drawing an id the generation allows, fetching
   * that species, finding its description, and comparing the round's line
   * with its name; the outcome is that comparison.
   */
  lemma RoundOutcomeIsGuess(cfg: MyConfig, world: World, round: nat)
    requires PlayRound(cfg, world, round).Success?
    ensures exists id ::
              && DrawId(cfg.generation, world.entropy(round)) == Some(id)
              && Drawable(cfg.generation, id)
              && world.repository(id).Success?
              && var pokemon := ToPokemon(world.repository(id).value, cfg.language, cfg.version);
                 && pokemon.Success?
                 && (PlayRound(cfg, world, round).value <==> IsCorrectGuess(InputLine(world.inputs, round), pokemon.value.name))
  {
  }

  /** A round whose drawn id cannot be fetched, or whose body is not a species, fails with that cause. */
  lemma FetchFailureEndsRound(cfg: MyConfig, world: World, round: nat, id: nat, cause: FetchError)
    requires DrawId(cfg.generation, world.entropy(round)) == Some(id)
    requires world.repository(id) == Failure(cause)
    ensures PlayRound(cfg, world, round) == Failure(Fetch(cause))
  {
  }

  /**
   * A round whose fetched species has no text in the language for the
   * version fails with the lookup's error, which names the species, the
   * version and the language.
   */
  lemma MissingDescriptionEndsRound(cfg: MyConfig, world: World, round: nat, id: nat, species: SpeciesResponse)
    requires DrawId(cfg.generation, world.entropy(round)) == Some(id)
    requires world.repository(id) == Success(species)
    requires forall j :: 0 <= j < |species.flavorTextEntries| ==> !Matches(species.flavorTextEntries[j], cfg.language, cfg.version)
    ensures PlayRound(cfg, world, round)
         == Failure(NoDescription(MissingDescription(species.name, cfg.version, cfg.language)))
  {
  }

  /**
   * The state of a game: the outcome of every completed round, in order,
   * and the error that ended it early, if any.
   */
  datatype Progress = Progress(outcomes: seq<bool>, error: Option<GameError>)

  /**
   * A game of `n` rounds attempted in order, where `round(i)` is the result
   * of round `i`. The first failing round ends the game: it counts neither
   * as played nor as a hit, and no later round runs.
   */
  function Play(round: nat -> Result<bool, GameError>, n: nat): (p: Progress)
    ensures |p.outcomes| <= n
    ensures p.error.None? ==> |p.outcomes| == n
    ensures p.error.Some? ==> |p.outcomes| < n && round(|p.outcomes|) == Failure(p.error.value)
    ensures forall i :: 0 <= i < |p.outcomes| ==> round(i) == Success(p.outcomes[i])
  {
    if n == 0 then Progress([], None)
    else
      var before := Play(round, n - 1);
      if before.error.Some? then before
      else
        var last := round(n - 1);
        if last.Failure? then Progress(before.outcomes, Some(last.error))
        else
          var outcomes := before.outcomes + [last.value];
          assert forall i :: 0 <= i < |before.outcomes| ==> outcomes[i] == before.outcomes[i];
          Progress(outcomes, None)
  }

  /** The rounds of a game played with `cfg` in `world`. */
  function Rounds(cfg: MyConfig, world: World): nat -> Result<bool, GameError> {
    (i: nat) => PlayRound(cfg, world, i)
  }

  /** Once a game has stopped on an error, attempting more rounds changes nothing. */
  lemma {:induction false} AbortedGameStaysAborted(round: nat -> Result<bool, GameError>, m: nat, n: nat)
    requires m <= n
    requires Play(round, m).error.Some?
    ensures Play(round, n) == Play(round, m)
    decreases n - m
  {
    if m < n {
      AbortedGameStaysAborted(round, m, n - 1);
    }
  }

  /** A game that survives round `k` with outcome `correct` records that outcome and goes on. */
  lemma PlayStep(round: nat -> Result<bool, GameError>, k: nat, correct: bool)
    requires Play(round, k).error.None?
    requires round(k) == Success(correct)
    ensures Play(round, k + 1) == Progress(Play(round, k).outcomes + [correct], None)
  {
  }

  /** A game whose round `k` fails ends there, however many rounds were asked for. */
  lemma PlayAborts(round: nat -> Result<bool, GameError>, k: nat, n: nat)
    requires k < n
    requires Play(round, k).error.None?
    requires round(k).Failure?
    ensures Play(round, n) == Progress(Play(round, k).outcomes, Some(round(k).error))
  {
    AbortedGameStaysAborted(round, k + 1, n);
  }

  /** A prefix of rounds that all succeeded is exactly what the game records for them. */
  lemma {:induction false} PlayOfSucceededRounds(round: nat -> Result<bool, GameError>, outcomes: seq<bool>)
    requires forall i :: 0 <= i < |outcomes| ==> round(i) == Success(outcomes[i])
    ensures Play(round, |outcomes|) == Progress(outcomes, None)
  {
    if outcomes != [] {
      var k := |outcomes| - 1;
      PlayOfSucceededRounds(round, outcomes[..k]);
      PlayStep(round, k, outcomes[k]);
      assert outcomes[..k] + [outcomes[k]] == outcomes;
    }
  }

  /** One more succeeded round extends the record of succeeded rounds by its outcome. */
  lemma SucceededRoundsExtend(round: nat -> Result<bool, GameError>, outcomes: seq<bool>, correct: bool)
    requires forall i :: 0 <= i < |outcomes| ==> round(i) == Success(outcomes[i])
    requires round(|outcomes|) == Success(correct)
    ensures forall i :: 0 <= i < |outcomes| + 1 ==> round(i) == Success((outcomes + [correct])[i])
  {
    var longer := outcomes + [correct];
    assert forall i :: 0 <= i < |outcomes| ==> longer[i] == outcomes[i];
  }

  /**
   * The round loop for any round function: `n` rounds, each adding one to
   * `hits` exactly when it returns a correct guess, stopping at the first error.
   */
  method RunRounds(round: nat -> Result<bool, GameError>, n: nat) returns (hits: nat, played: nat, error: Option<GameError>)
    ensures hits <= played <= n
    ensures error.None? ==> played == n
    ensures error.Some? ==> played < n && round(played) == Failure(error.value)
    ensures played == |Play(round, n).outcomes|
    ensures hits == Hits(Play(round, n).outcomes)
    ensures error == Play(round, n).error
  {
    hits, played, error := 0, 0, None;
    ghost var outcomes: seq<bool> := [];
    while played < n
      invariant played <= n
      invariant |outcomes| == played
      invariant forall i :: 0 <= i < played ==> round(i) == Success(outcomes[i])
      invariant hits == Hits(outcomes)
    {
      var result := round(played);
      if result.Failure? {
        error := Some(result.error);
        PlayOfSucceededRounds(round, outcomes);
        PlayAborts(round, played, n);
        return;
      }
      HitsAppend(outcomes, result.value);
      if result.value {
        hits := hits + 1;
      }
      SucceededRoundsExtend(round, outcomes, result.value);
      outcomes := outcomes + [result.value];
      played := played + 1;
    }
    PlayOfSucceededRounds(round, outcomes);
  }

  /**
   * The round loop of the program: `cfg.rounds` rounds of `PlayRound`, each
   * adding one to `hits` exactly when the guess is right, stopping at the
   * first error.
   */
  method RunGame(cfg: MyConfig, world: World) returns (hits: nat, played: nat, error: Option<GameError>)
    ensures hits <= played <= cfg.rounds
    ensures error.None? ==> played == cfg.rounds
    ensures error.Some? ==> PlayRound(cfg, world, played) == Failure(error.value)
    ensures played == |Play(Rounds(cfg, world), cfg.rounds).outcomes|
    ensures hits == Hits(Play(Rounds(cfg, world), cfg.rounds).outcomes)
    ensures error == Play(Rounds(cfg, world), cfg.rounds).error
  {
    hits, played, error := RunRounds(Rounds(cfg, world), cfg.rounds);
  }

  /**
   * A generation outside 1 to 9 ends the game in its first round, before any
   * species is fetched; a game of no rounds never reads the table and so
   * finishes without error whatever the generation.
   */
  lemma InvalidGenerationEndsFirstRound(cfg: MyConfig, world: World)
    requires !IsGeneration(cfg.generation)
    ensures cfg.rounds == 0 ==> Play(Rounds(cfg, world), cfg.rounds) == Progress([], None)
    ensures cfg.rounds > 0 ==>
              Play(Rounds(cfg, world), cfg.rounds) == Progress([], Some(InvalidGeneration(cfg.generation)))
  {
    if cfg.rounds > 0 {
      PlayAborts(Rounds(cfg, world), 0, cfg.rounds);
    }
  }

  /** A game whose first three rounds give `a`, `b` and `c` records exactly those three outcomes. */
  lemma PlayThreeRounds(round: nat -> Result<bool, GameError>, a: bool, b: bool, c: bool)
    requires round(0) == Success(a) && round(1) == Success(b) && round(2) == Success(c)
    ensures Play(round, 3) == Progress([a, b, c], None)
  {
    PlayStep(round, 0, a);
    assert [] + [a] == [a];
    PlayStep(round, 1, b);
    assert [a] + [b] == [a, b];
    PlayStep(round, 2, c);
    assert [a, b] + [c] == [a, b, c];
  }

  /** A game whose first two rounds give `a` and `b` and whose third fails stops there. */
  lemma PlayFailsInThirdRound(round: nat -> Result<bool, GameError>, a: bool, b: bool, n: nat)
    requires 3 <= n
    requires round(0) == Success(a) && round(1) == Success(b) && round(2).Failure?
    ensures Play(round, n) == Progress([a, b], Some(round(2).error))
  {
    PlayStep(round, 0, a);
    assert [] + [a] == [a];
    PlayStep(round, 1, b);
    assert [a] + [b] == [a, b];
    PlayAborts(round, 2, n);
  }

  /**
   * A round whose draw gives `id`, whose fetch of `id` gives `species` and
   * whose lookup gives `pokemon` is decided by the guess alone.
   */
  lemma RoundWithSpecies(cfg: MyConfig, world: World, round: nat, id: nat, species: SpeciesResponse, pokemon: Pokemon)
    requires DrawId(cfg.generation, world.entropy(round)) == Some(id)
    requires world.repository(id) == Success(species)
    requires ToPokemon(species, cfg.language, cfg.version) == Success(pokemon)
    ensures PlayRound(cfg, world, round) == Success(IsCorrectGuess(InputLine(world.inputs, round), pokemon.name))
  {
  }

  /** A species with one English text for version "x". */
  function OneTextSpecies(name: string, text: string): SpeciesResponse {
    SpeciesResponse(name, [FlavorTextEntry(text, "en", "x")])
  }

  /** The default language and version find the one entry of `OneTextSpecies`. */
  lemma OneTextSpeciesResolves(name: string, text: string)
    ensures ToPokemon(OneTextSpecies(name, text), "en", "x") == Success(Pokemon(name, Sanitize(text)))
  {
    assert Matches(OneTextSpecies(name, text).flavorTextEntries[0], "en", "x");
  }

  /** A species name as the endpoint gives it: lowercase, with no surrounding whitespace. */
  predicate IsPlainName(name: string) {
    ToLowercase(name) == name && IsTrimmed(name)
  }

  /**
   * The world of the three-round example: every draw fetches the same
   * species, and the player answers its name, another plain name, and the
   * name in some other capitalisation, each line ending in a newline.
   */
  function ThreeRoundWorld(name: string, text: string, other: string, shouted: string): World {
    World((i: nat) => 0, (id: nat) => Success(OneTextSpecies(name, text)), [name + "\n", other + "\n", shouted + "\n"])
  }

  /** The settings of the three-round example: the defaults, with three rounds. */
  const ThreeRoundConfig: MyConfig := DefaultConfig.(rounds := 3)

  /** Round `round` of the three-round example is decided by its line alone. */
  lemma ThreeRoundExampleRound(name: string, text: string, other: string, shouted: string, round: nat)
    ensures Rounds(ThreeRoundConfig, ThreeRoundWorld(name, text, other, shouted))(round)
         == Success(IsCorrectGuess(InputLine(ThreeRoundWorld(name, text, other, shouted).inputs, round), name))
  {
    OneTextSpeciesResolves(name, text);
    assert DrawId(4, 0) == Some(1);
    RoundWithSpecies(ThreeRoundConfig, ThreeRoundWorld(name, text, other, shouted), round, 1,
                     OneTextSpecies(name, text), Pokemon(name, Sanitize(text)));
  }

  /** The first round of the three-round example, answered with the name, is won. */
  lemma ThreeRoundExampleFirst(name: string, text: string, other: string, shouted: string)
    requires IsPlainName(name)
    ensures Rounds(ThreeRoundConfig, ThreeRoundWorld(name, text, other, shouted))(0) == Success(true)
  {
    ThreeRoundExampleRound(name, text, other, shouted, 0);
    LineOfWord(name, name);
  }

  /** The second round of the three-round example, answered with another name, is lost. */
  lemma ThreeRoundExampleSecond(name: string, text: string, other: string, shouted: string)
    requires IsPlainName(other) && other != name
    ensures Rounds(ThreeRoundConfig, ThreeRoundWorld(name, text, other, shouted))(1) == Success(false)
  {
    ThreeRoundExampleRound(name, text, other, shouted, 1);
    LineOfWord(other, other);
  }

  /** The third round of the three-round example, answered with the name shouted, is won. */
  lemma ThreeRoundExampleThird(name: string, text: string, other: string, shouted: string)
    requires IsPlainName(name) && ToLowercase(shouted) == name
    ensures Rounds(ThreeRoundConfig, ThreeRoundWorld(name, text, other, shouted))(2) == Success(true)
  {
    ThreeRoundExampleRound(name, text, other, shouted, 2);
    LineOfWord(shouted, name);
  }

  /**
   * Three rounds that always fetch the same species, answered with its name,
   * with another name and with its name shouted (as "bulbasaur",
   * "charmander", "BULBASAUR"), score two hits.
   */
  lemma ThreeRoundExample(name: string, text: string, other: string, shouted: string)
    requires IsPlainName(name) && IsPlainName(other) && other != name
    requires ToLowercase(shouted) == name
    ensures Play(Rounds(ThreeRoundConfig, ThreeRoundWorld(name, text, other, shouted)), 3)
         == Progress([true, false, true], None)
  {
    ThreeRoundExampleFirst(name, text, other, shouted);
    ThreeRoundExampleSecond(name, text, other, shouted);
    ThreeRoundExampleThird(name, text, other, shouted);
    PlayThreeRounds(Rounds(ThreeRoundConfig, ThreeRoundWorld(name, text, other, shouted)), true, false, true);
  }

  /**
   * The world of the failure example: the draws give ids 1, 2, 3, ..., id 3
   * cannot be fetched, and the player types nothing.
   */
  function FlakyWorld(name: string, text: string): World {
    World((i: nat) => i, (id: nat) => if id == 3 then Failure(RequestFailed) else Success(OneTextSpecies(name, text)), [])
  }

  /** The settings of the failure example: the defaults, with five rounds. */
  const FiveRoundConfig: MyConfig := DefaultConfig.(rounds := 5)

  /** In the failure example the first round draws id 1 and is lost, as the input is empty. */
  lemma FlakyWorldFirstRound(name: string, text: string)
    requires name != ""
    ensures Rounds(FiveRoundConfig, FlakyWorld(name, text))(0) == Success(false)
  {
    OneTextSpeciesResolves(name, text);
    assert DrawId(4, 0) == Some(1);
    assert !IsCorrectGuess("", name);
    RoundWithSpecies(FiveRoundConfig, FlakyWorld(name, text), 0, 1, OneTextSpecies(name, text), Pokemon(name, Sanitize(text)));
  }

  /** In the failure example the second round draws id 2 and is lost too. */
  lemma FlakyWorldSecondRound(name: string, text: string)
    requires name != ""
    ensures Rounds(FiveRoundConfig, FlakyWorld(name, text))(1) == Success(false)
  {
    OneTextSpeciesResolves(name, text);
    assert DrawId(4, 1) == Some(2);
    assert !IsCorrectGuess("", name);
    RoundWithSpecies(FiveRoundConfig, FlakyWorld(name, text), 1, 2, OneTextSpecies(name, text), Pokemon(name, Sanitize(text)));
  }

  /** In the failure example the third round draws id 3, which cannot be fetched. */
  lemma FlakyWorldThirdRound(name: string, text: string)
    ensures Rounds(FiveRoundConfig, FlakyWorld(name, text))(2) == Failure(Fetch(RequestFailed))
  {
    assert DrawId(4, 2) == Some(3);
  }

  /**
   * Five rounds whose third draw hits an id the endpoint fails on: the game
   * stops with that error after two completed rounds.
   */
  lemma FetchFailureInThirdRoundExample(name: string, text: string)
    requires name != ""
    ensures Play(Rounds(FiveRoundConfig, FlakyWorld(name, text)), 5)
         == Progress([false, false], Some(Fetch(RequestFailed)))
  {
    var round := Rounds(FiveRoundConfig, FlakyWorld(name, text));
    FlakyWorldFirstRound(name, text);
    FlakyWorldSecondRound(name, text);
    FlakyWorldThirdRound(name, text);
    PlayFailsInThirdRound(round, false, false, 5);
  }
}
