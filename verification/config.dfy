/**
 * The game settings and the command-line overlay: each option given on the
 * command line replaces the one loaded from the configuration file.
 */
module Config {
  import opened Base

  /** Rust's `u32`, the type of the round count. */
  type U32 = x: int | 0 <= x < 0x1_0000_0000

  /** Rust's `usize` on a 64-bit target, the type of the generation. */
  type USize = x: int | 0 <= x < 0x1_0000_0000_0000_0000

  /** The persisted settings of one game. */
  datatype MyConfig = MyConfig(version: string, language: string, generation: USize, rounds: U32)

  /** The parsed command line; an absent option is `None`. */
  datatype Args = Args(
    language: Option<string>,
    version: Option<string>,
    generation: Option<USize>,
    rounds: Option<U32>,
    save: bool,
    noPlay: bool)

  /** The settings used when no configuration file exists. */
  const DefaultConfig: MyConfig := MyConfig("x", "en", 4, 10)

  /**
   * The overlay of `args` on `cfg`: a given option replaces exactly its own
   * field, an absent one leaves it as loaded.
   */
  function Overlay(cfg: MyConfig, args: Args): (r: MyConfig)
    ensures args.language.Some? ==> r.language == args.language.value
    ensures args.language.None? ==> r.language == cfg.language
    ensures args.version.Some? ==> r.version == args.version.value
    ensures args.version.None? ==> r.version == cfg.version
    ensures args.generation.Some? ==> r.generation == args.generation.value
    ensures args.generation.None? ==> r.generation == cfg.generation
    ensures args.rounds.Some? ==> r.rounds == args.rounds.value
    ensures args.rounds.None? ==> r.rounds == cfg.rounds
  {
    var c0 := cfg;
    var c1 := if args.language.Some? then c0.(language := args.language.value) else c0;
    var c2 := if args.version.Some? then c1.(version := args.version.value) else c1;
    var c3 := if args.generation.Some? then c2.(generation := args.generation.value) else c2;
    if args.rounds.Some? then c3.(rounds := args.rounds.value) else c3
  }

  /** With no option on the command line the loaded settings are used unchanged. */
  lemma OverlayWithoutOptionsKeepsConfig(cfg: MyConfig, save: bool, noPlay: bool)
    ensures Overlay(cfg, Args(None, None, None, None, save, noPlay)) == cfg
  {
  }

  /** With every option given, the loaded settings do not matter. */
  lemma OverlayWithAllOptionsIgnoresConfig(cfg1: MyConfig, cfg2: MyConfig, args: Args)
    requires args.language.Some? && args.version.Some? && args.generation.Some? && args.rounds.Some?
    ensures Overlay(cfg1, args) == Overlay(cfg2, args)
  {
  }

  /** Applying the same command line twice is applying it once. */
  lemma OverlayIdempotent(cfg: MyConfig, args: Args)
    ensures Overlay(Overlay(cfg, args), args) == Overlay(cfg, args)
  {
  }

  /**
   * The settings a game runs with: the stored file, or the defaults when
   * there is none, under the command-line overlay. An option beats the file
   * and the file beats the default, field by field.
   */
  function Effective(stored: Option<MyConfig>, args: Args): (r: MyConfig)
    ensures args.rounds.Some? ==> r.rounds == args.rounds.value
    ensures args.rounds.None? && stored.Some? ==> r.rounds == stored.value.rounds
    ensures args.rounds.None? && stored.None? ==> r.rounds == 10
    ensures args.generation.Some? ==> r.generation == args.generation.value
    ensures args.generation.None? && stored.Some? ==> r.generation == stored.value.generation
    ensures args.generation.None? && stored.None? ==> r.generation == 4
    ensures args.language.Some? ==> r.language == args.language.value
    ensures args.language.None? && stored.Some? ==> r.language == stored.value.language
    ensures args.language.None? && stored.None? ==> r.language == "en"
    ensures args.version.Some? ==> r.version == args.version.value
    ensures args.version.None? && stored.Some? ==> r.version == stored.value.version
    ensures args.version.None? && stored.None? ==> r.version == "x"
  {
    Overlay(stored.GetOr(DefaultConfig), args)
  }
}
