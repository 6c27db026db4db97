/**
 * The species payload as decoded from the species endpoint, and its
 * conversion into the round's `Pokemon`: pick the flavor text for the
 * requested language and game version, then sanitize it.
 */
module Species {
  import opened Base
  import opened Text

  /** One localised Pokédex text; the language and version are kept as their names. */
  datatype FlavorTextEntry = FlavorTextEntry(flavorText: string, language: string, version: string)

  /** The decoded species: its name and every flavor-text entry, in payload order. */
  datatype SpeciesResponse = SpeciesResponse(name: string, flavorTextEntries: seq<FlavorTextEntry>)

  /** What one round shows and checks: the species name and its display text. */
  datatype Pokemon = Pokemon(name: string, description: string)

  /**
   * The failure of the lookup: the species has no text for the version in
   * the language. It carries what the program's panic message reports.
   */
  datatype MissingDescription = MissingDescription(name: string, version: string, language: string)

  /** The search predicate: both the language name and the version name are equal to the request. */
  predicate Matches(entry: FlavorTextEntry, language: string, version: string) {
    entry.language == language && entry.version == version
  }

  /** Index of the first entry at or after `from` that matches, scanning in order. */
  function FindFrom(entries: seq<FlavorTextEntry>, language: string, version: string, from: nat): (r: Option<nat>)
    requires from <= |entries|
    ensures r.Some? ==> from <= r.value < |entries| && Matches(entries[r.value], language, version)
    ensures r.Some? ==> forall j :: from <= j < r.value ==> !Matches(entries[j], language, version)
    ensures r.None? ==> forall j :: from <= j < |entries| ==> !Matches(entries[j], language, version)
    decreases |entries| - from
  {
    if from == |entries| then None
    else if Matches(entries[from], language, version) then Some(from)
    else FindFrom(entries, language, version, from + 1)
  }

  /** Index of the first matching entry (Rust's `Iterator::find`), or `None`. */
  function FindEntry(entries: seq<FlavorTextEntry>, language: string, version: string): (r: Option<nat>)
    ensures r.Some? <==> exists j :: 0 <= j < |entries| && Matches(entries[j], language, version)
    ensures r.Some? ==> r.value < |entries| && Matches(entries[r.value], language, version)
    ensures r.Some? ==> forall j :: 0 <= j < r.value ==> !Matches(entries[j], language, version)
  {
    FindFrom(entries, language, version, 0)
  }

  /**
   * `to_pokemon`: the name is kept; the description is the sanitized text of
   * the first entry in the requested language and version. When there is no
   * such entry the program panics; here that is a `Failure` naming the
   * species, the version and the language.
   */
  function ToPokemon(species: SpeciesResponse, language: string, version: string): (r: Result<Pokemon, MissingDescription>)
    ensures r.Failure? <==> forall j :: 0 <= j < |species.flavorTextEntries| ==> !Matches(species.flavorTextEntries[j], language, version)
    ensures r.Failure? ==> r.error == MissingDescription(species.name, version, language)
    ensures r.Success? ==> r.value.name == species.name
    ensures r.Success? ==> exists k ::
              && 0 <= k < |species.flavorTextEntries|
              && Matches(species.flavorTextEntries[k], language, version)
              && (forall j :: 0 <= j < k ==> !Matches(species.flavorTextEntries[j], language, version))
              && r.value.description == Sanitize(species.flavorTextEntries[k].flavorText)
  {
    match FindEntry(species.flavorTextEntries, language, version)
    case None => Failure(MissingDescription(species.name, version, language))
    case Some(k) => Success(Pokemon(species.name, Sanitize(species.flavorTextEntries[k].flavorText)))
  }

  /**
   * An entry placed in front of a species' entries wins whenever it matches:
   * later duplicates of the same language and version are never consulted.
   */
  lemma {:induction false} FirstMatchWins(species: SpeciesResponse, entry: FlavorTextEntry, language: string, version: string)
    requires Matches(entry, language, version)
    ensures ToPokemon(SpeciesResponse(species.name, [entry] + species.flavorTextEntries), language, version)
         == Success(Pokemon(species.name, Sanitize(entry.flavorText)))
  {
    var entries := [entry] + species.flavorTextEntries;
    assert entries[0] == entry;
    assert FindFrom(entries, language, version, 0) == Some(0);
  }

  /** An entry that does not match can be put in front without changing the result. */
  lemma {:induction false} NonMatchingEntryIsSkipped(species: SpeciesResponse, entry: FlavorTextEntry, language: string, version: string)
    requires !Matches(entry, language, version)
    ensures ToPokemon(SpeciesResponse(species.name, [entry] + species.flavorTextEntries), language, version)
         == ToPokemon(species, language, version)
  {
    var entries := [entry] + species.flavorTextEntries;
    assert entries[0] == entry;
    assert FindFrom(entries, language, version, 0) == FindFrom(entries, language, version, 1);
    FindFromShift(species.flavorTextEntries, entry, language, version, 0);
    match FindFrom(species.flavorTextEntries, language, version, 0)
    case None =>
    case Some(k) =>
      assert entries[k + 1] == species.flavorTextEntries[k];
  }

  /** Searching behind one extra leading entry finds the same entry one place later. */
  lemma {:induction false} FindFromShift(entries: seq<FlavorTextEntry>, entry: FlavorTextEntry, language: string, version: string, from: nat)
    requires from <= |entries|
    ensures var shifted := FindFrom([entry] + entries, language, version, from + 1);
            var plain := FindFrom(entries, language, version, from);
            (plain.None? && shifted.None?) || (plain.Some? && shifted == Some(plain.value + 1))
    decreases |entries| - from
  {
    var e := [entry] + entries;
    if from < |entries| {
      assert e[from + 1] == entries[from];
      FindFromShift(entries, entry, language, version, from + 1);
    }
  }

  /** The description on success never contains a newline or a form feed. */
  lemma DescriptionIsSanitized(species: SpeciesResponse, language: string, version: string)
    requires ToPokemon(species, language, version).Success?
    ensures IsSanitized(ToPokemon(species, language, version).value.description)
  {
  }

  /**
   * Two entries for the same language and version: the first one's text is
   * shown. A species with only a French text for version "y" has no English
   * text for version "x".
   */
  lemma ResolverExamples()
    ensures ToPokemon(SpeciesResponse("bulbasaur", [FlavorTextEntry("A", "en", "x"), FlavorTextEntry("B", "en", "x")]), "en", "x")
         == Success(Pokemon("bulbasaur", "A"))
    ensures ToPokemon(SpeciesResponse("bulbasaur", [FlavorTextEntry("A", "fr", "y")]), "en", "x")
         == Failure(MissingDescription("bulbasaur", "x", "en"))
  {
    FirstMatchWins(SpeciesResponse("bulbasaur", [FlavorTextEntry("B", "en", "x")]), FlavorTextEntry("A", "en", "x"), "en", "x");
    assert [FlavorTextEntry("A", "en", "x")] + [FlavorTextEntry("B", "en", "x")]
        == [FlavorTextEntry("A", "en", "x"), FlavorTextEntry("B", "en", "x")];
    assert Sanitize("A") == "A";
    var fr := [FlavorTextEntry("A", "fr", "y")];
    assert !Matches(fr[0], "en", "x");
  }
}
