/**
 Language settings: folding every language's `base` chain into it, and taking
 inherited values out again to show only what was set.
 */
module ConfigInheritance {
  import opened BaseChain
  import opened Wrappers

  datatype QueryKind = Highlights | Locals | Injections
  datatype QueryItem = QueryItem(path: string, kind: Option<QueryKind>)

  /** The settings that are inherited whole: the more specific value wins. */
  datatype LanguageSettings = LanguageSettings(
    base: Option<string>,
    parser: Option<string>,
    queries: Option<seq<QueryItem>>,
    aliases: Option<seq<string>>,
    autoInstall: Option<bool>)

  const DEFAULTS := LanguageSettings(None, None, None, None, None)

  type Languages = map<string, LanguageSettings>

  // ---------------------------------------------------------------- resolving

  function Or<V>(a: Option<V>, b: Option<V>): Option<V> {
    if a.Some? then a else b
  }

  function Merge(base: LanguageSettings, overlay: LanguageSettings): LanguageSettings {
    LanguageSettings(
      Or(overlay.base, base.base),
      Or(overlay.parser, base.parser),
      Or(overlay.queries, base.queries),
      Or(overlay.aliases, base.aliases),
      Or(overlay.autoInstall, base.autoInstall))
  }

  function Get(languages: Languages, name: string): LanguageSettings {
    if name in languages then languages[name] else DEFAULTS
  }

  /** Fold a chain from its root to its most specific end. */
  function Fold(languages: Languages, chain: seq<string>): LanguageSettings
    requires chain != []
  {
    if |chain| == 1 then Get(languages, chain[0])
    else Merge(Fold(languages, chain[1..]), Get(languages, chain[0]))
  }

  function ShapeOf(languages: Languages): Shape {
    map n | n in languages :: languages[n].base
  }

  /** `resolve_base_configs`. */
  function ResolveBases(languages: Languages): (resolved: Languages)
    ensures ShapeOf(resolved) == ShapeOf(languages)
  {
    map n | n in languages :: Fold(languages, Chain(ShapeOf(languages), n)).(base := languages[n].base)
  }

  // ---------------------------------------------------------------- stripping

  /** A value, unless it is what would be inherited. */
  function Differing<V(==)>(inherited: Option<V>, current: Option<V>): Option<V> {
    if current != inherited then current else None
  }

  /** `strip_inherited_language_settings`. */
  function StripSettings(inherited: LanguageSettings, current: LanguageSettings): LanguageSettings {
    LanguageSettings(
      current.base,
      Differing(inherited.parser, current.parser),
      Differing(inherited.queries, current.queries),
      Differing(inherited.aliases, current.aliases),
      Differing(inherited.autoInstall, current.autoInstall))
  }

  /** `strip_inherited_languages`. */
  function StripLanguages(languages: Languages): (stripped: Languages)
    ensures ShapeOf(stripped) == ShapeOf(languages)
  {
    map n | n in languages ::
      match Parent(ShapeOf(languages), n)
      case Some(base) => StripSettings(languages[base], languages[n])
      case None => languages[n]
  }

  // ---------------------------------------------------------------- one setting at a time

  function Parsers(languages: Languages): map<string, Option<string>> {
    map n | n in languages :: languages[n].parser
  }

  function Queries(languages: Languages): map<string, Option<seq<QueryItem>>> {
    map n | n in languages :: languages[n].queries
  }

  function Aliases(languages: Languages): map<string, Option<seq<string>>> {
    map n | n in languages :: languages[n].aliases
  }

  function AutoInstalls(languages: Languages): map<string, Option<bool>> {
    map n | n in languages :: languages[n].autoInstall
  }

  /** The fold gives every setting its most specific explicit value. */
  lemma {:induction false} FoldIsMostSpecific(languages: Languages, chain: seq<string>)
    requires chain != []
    ensures var s := Fold(languages, chain);
            && s.parser == First(Parsers(languages), chain)
            && s.queries == First(Queries(languages), chain)
            && s.aliases == First(Aliases(languages), chain)
            && s.autoInstall == First(AutoInstalls(languages), chain)
  {
    if |chain| == 1 {
      assert chain[1..] == [];
    } else {
      FoldIsMostSpecific(languages, chain[1..]);
    }
  }

  lemma ResolvedAt(languages: Languages, n: string)
    requires n in languages
    ensures var shape, r := ShapeOf(languages), ResolveBases(languages)[n];
            && r.parser == Value(shape, Parsers(languages), n)
            && r.queries == Value(shape, Queries(languages), n)
            && r.aliases == Value(shape, Aliases(languages), n)
            && r.autoInstall == Value(shape, AutoInstalls(languages), n)
  {
    FoldIsMostSpecific(languages, Chain(ShapeOf(languages), n));
  }

  lemma ResolvedFiles(languages: Languages)
    ensures Parsers(ResolveBases(languages)) == Resolved(ShapeOf(languages), Parsers(languages))
    ensures Queries(ResolveBases(languages)) == Resolved(ShapeOf(languages), Queries(languages))
  {
    forall n | n in languages
      ensures ResolveBases(languages)[n].parser == Resolved(ShapeOf(languages), Parsers(languages))[n]
      ensures ResolveBases(languages)[n].queries == Resolved(ShapeOf(languages), Queries(languages))[n]
    {
      ResolvedAt(languages, n);
    }
  }

  lemma ResolvedChoices(languages: Languages)
    ensures Aliases(ResolveBases(languages)) == Resolved(ShapeOf(languages), Aliases(languages))
    ensures AutoInstalls(ResolveBases(languages)) == Resolved(ShapeOf(languages), AutoInstalls(languages))
  {
    forall n | n in languages
      ensures ResolveBases(languages)[n].aliases == Resolved(ShapeOf(languages), Aliases(languages))[n]
      ensures ResolveBases(languages)[n].autoInstall == Resolved(ShapeOf(languages), AutoInstalls(languages))[n]
    {
      ResolvedAt(languages, n);
    }
  }

  lemma ResolvedBySetting(languages: Languages)
    ensures var shape, r := ShapeOf(languages), ResolveBases(languages);
            && Parsers(r) == Resolved(shape, Parsers(languages))
            && Queries(r) == Resolved(shape, Queries(languages))
            && Aliases(r) == Resolved(shape, Aliases(languages))
            && AutoInstalls(r) == Resolved(shape, AutoInstalls(languages))
  {
    ResolvedFiles(languages);
    ResolvedChoices(languages);
  }

  lemma StrippedAt(languages: Languages, n: string)
    requires n in languages
    ensures var shape, s := ShapeOf(languages), StripLanguages(languages);
            && s[n].parser == Stripped(shape, Parsers(languages))[n]
            && s[n].queries == Stripped(shape, Queries(languages))[n]
            && s[n].aliases == Stripped(shape, Aliases(languages))[n]
            && s[n].autoInstall == Stripped(shape, AutoInstalls(languages))[n]
  {
  }

  lemma StrippedFiles(languages: Languages)
    ensures Parsers(StripLanguages(languages)) == Stripped(ShapeOf(languages), Parsers(languages))
    ensures Queries(StripLanguages(languages)) == Stripped(ShapeOf(languages), Queries(languages))
  {
    forall n | n in languages
      ensures StripLanguages(languages)[n].parser == Stripped(ShapeOf(languages), Parsers(languages))[n]
      ensures StripLanguages(languages)[n].queries == Stripped(ShapeOf(languages), Queries(languages))[n]
    {
      StrippedAt(languages, n);
    }
  }

  lemma StrippedChoices(languages: Languages)
    ensures Aliases(StripLanguages(languages)) == Stripped(ShapeOf(languages), Aliases(languages))
    ensures AutoInstalls(StripLanguages(languages)) == Stripped(ShapeOf(languages), AutoInstalls(languages))
  {
    forall n | n in languages
      ensures StripLanguages(languages)[n].aliases == Stripped(ShapeOf(languages), Aliases(languages))[n]
      ensures StripLanguages(languages)[n].autoInstall == Stripped(ShapeOf(languages), AutoInstalls(languages))[n]
    {
      StrippedAt(languages, n);
    }
  }

  lemma StrippedBySetting(languages: Languages)
    ensures var shape, r := ShapeOf(languages), StripLanguages(languages);
            && Parsers(r) == Stripped(shape, Parsers(languages))
            && Queries(r) == Stripped(shape, Queries(languages))
            && Aliases(r) == Stripped(shape, Aliases(languages))
            && AutoInstalls(r) == Stripped(shape, AutoInstalls(languages))
  {
    StrippedFiles(languages);
    StrippedChoices(languages);
  }

  // ---------------------------------------------------------------- the round trip

  /** Some setting of `name` is lost in a loop of bases. */
  ghost predicate LosesSetting(languages: Languages, name: string) {
    var shape := ShapeOf(languages);
    || Lost(shape, Parsers(languages), name)
    || Lost(shape, Queries(languages), name)
    || Lost(shape, Aliases(languages), name)
    || Lost(shape, AutoInstalls(languages), name)
  }

  /** Resolve, strip, resolve again: a language comes back as it was exactly when
      none of its settings is lost in a loop of bases. */
  lemma StrippingIsUndoneUnlessLost(languages: Languages, name: string)
    requires name in languages
    ensures var resolved := ResolveBases(languages);
            ResolveBases(StripLanguages(resolved))[name] == resolved[name] <==> !LosesSetting(languages, name)
  {
    var shape, resolved := ShapeOf(languages), ResolveBases(languages);
    var stripped := StripLanguages(resolved);
    var again := ResolveBases(stripped);
    ResolvedBySetting(languages);
    StrippedBySetting(resolved);
    ResolvedBySetting(stripped);
    RestoredUnlessLost(shape, Parsers(languages), name);
    RestoredUnlessLost(shape, Queries(languages), name);
    RestoredUnlessLost(shape, Aliases(languages), name);
    RestoredUnlessLost(shape, AutoInstalls(languages), name);
    assert again[name].parser == Parsers(again)[name] && resolved[name].parser == Parsers(resolved)[name];
    assert again[name].queries == Queries(again)[name] && resolved[name].queries == Queries(resolved)[name];
    assert again[name].aliases == Aliases(again)[name] && resolved[name].aliases == Aliases(resolved)[name];
    assert again[name].autoInstall == AutoInstalls(again)[name]
           && resolved[name].autoInstall == AutoInstalls(resolved)[name];
    assert again[name].base == ShapeOf(again)[name] && resolved[name].base == ShapeOf(resolved)[name];
  }

  ghost predicate Acyclic(languages: Languages) {
    forall n :: n in languages ==> Terminates(ShapeOf(languages), n)
  }

  /** Without a circular chain nothing is lost, whatever self-references, missing
      bases and wildcard the configuration has. */
  lemma StrippingIsUndone(languages: Languages)
    requires Acyclic(languages)
    ensures var resolved := ResolveBases(languages);
            ResolveBases(StripLanguages(resolved)) == resolved
  {
    var shape, resolved := ShapeOf(languages), ResolveBases(languages);
    var again := ResolveBases(StripLanguages(resolved));
    assert again.Keys == ShapeOf(again).Keys == shape.Keys == ShapeOf(resolved).Keys == resolved.Keys;
    forall n | n in languages
      ensures again[n] == resolved[n]
    {
      TerminatingIsNotLost(shape, Parsers(languages), n);
      TerminatingIsNotLost(shape, Queries(languages), n);
      TerminatingIsNotLost(shape, Aliases(languages), n);
      TerminatingIsNotLost(shape, AutoInstalls(languages), n);
      StrippingIsUndoneUnlessLost(languages, n);
    }
  }

  /** Two languages based on each other, one of which sets a parser: the parser is gone. */
  lemma LoopLosesItsOnlyValue()
    ensures var languages: Languages := map[
              "a" := DEFAULTS.(base := Some("b"), parser := Some("/p.so")),
              "b" := DEFAULTS.(base := Some("a"))];
            var resolved := ResolveBases(languages);
            && resolved["a"].parser == Some("/p.so")
            && ResolveBases(StripLanguages(resolved))["a"].parser == None
  {
    var languages: Languages := map[
      "a" := DEFAULTS.(base := Some("b"), parser := Some("/p.so")),
      "b" := DEFAULTS.(base := Some("a"))];
    var shape := ShapeOf(languages);
    assert "a" != "b" by { assert "a"[0] != "b"[0]; }
    assert Next(shape, "a") == Some("b") && Next(shape, "b") == Some("a");
    assert ChainFrom(shape, "b", {"a"} + {"b"}) == ["b"];
    assert Chain(shape, "a") == ["a", "b"];
    assert ChainFrom(shape, "a", {"b"} + {"a"}) == ["a"];
    assert Chain(shape, "b") == ["b", "a"];
    assert Value(shape, Parsers(languages), "b") == Some("/p.so") by {
      assert ["b", "a"][1..] == ["a"] && Own(Parsers(languages), "a") == Some("/p.so");
      assert First(Parsers(languages), ["a"]) == Some("/p.so");
    }
    assert Lost(shape, Parsers(languages), "a");
    RestoredUnlessLost(shape, Parsers(languages), "a");
    ResolvedBySetting(languages);
    var resolved := ResolveBases(languages);
    StrippedBySetting(resolved);
    ResolvedBySetting(StripLanguages(resolved));
    assert resolved["a"].parser == Parsers(resolved)["a"];
    var again := ResolveBases(StripLanguages(resolved));
    assert again["a"].parser == Parsers(again)["a"];
  }

  // ---------------------------------------------------------------- automatic installs

  datatype Source = FromLanguage | FromWildcard | FromTopLevel

  /** `auto_install_decision`: which level answers, and what it says. */
  function AutoInstallDecision(resolved: Languages, topLevel: bool, name: string): (Source, bool) {
    var answer :=
      if name in resolved then
        match resolved[name].autoInstall
        case Some(enabled) => Some((FromLanguage, enabled))
        case None => None
      else if WILDCARD in resolved then
        match resolved[WILDCARD].autoInstall
        case Some(enabled) => Some((FromWildcard, enabled))
        case None => None
      else None;
    match answer
    case Some(decision) => decision
    case None => (FromTopLevel, topLevel)
  }

  /** For every language, configured or not, the answer is the most specific value
      along its chain, and the top-level one when the chain has none. */
  lemma DecisionIsMostSpecific(languages: Languages, topLevel: bool, name: string)
    ensures var value := Value(ShapeOf(languages), AutoInstalls(languages), name);
            var decision := AutoInstallDecision(ResolveBases(languages), topLevel, name);
            && decision.1 == (if value.Some? then value.value else topLevel)
            && (decision.0 == FromTopLevel <==> value.None?)
  {
    var shape, resolved := ShapeOf(languages), ResolveBases(languages);
    ResolvedBySetting(languages);
    assert resolved.Keys == ShapeOf(resolved).Keys;
    if name in languages {
      assert resolved[name].autoInstall == AutoInstalls(resolved)[name];
    } else {
      ValueStep(shape, AutoInstalls(languages), name);
      ValueStep(shape, AutoInstalls(languages), WILDCARD);
      if WILDCARD in languages {
        assert resolved[WILDCARD].autoInstall == AutoInstalls(resolved)[WILDCARD];
      }
    }
  }

  /** The answer is the same before and after stripping and resolving again. */
  lemma DecisionSurvivesStripping(languages: Languages, topLevel: bool, name: string)
    requires Acyclic(languages)
    ensures var resolved := ResolveBases(languages);
            AutoInstallDecision(ResolveBases(StripLanguages(resolved)), topLevel, name) ==
            AutoInstallDecision(resolved, topLevel, name)
  {
    StrippingIsUndone(languages);
  }
}
