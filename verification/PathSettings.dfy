/**
 The path fields of one configuration layer, anchored in place under the
 directory the layer came from.
 */
module PathSettings {
  import opened PathAnchoring
  import opened AnchoringLaws
  import opened Wrappers

  datatype LanguagePaths = LanguagePaths(parser: Option<string>, queries: Option<seq<string>>)

  /** Every path of a list, each where it belongs. */
  function AnchorAll(base: string, paths: seq<string>): (anchored: seq<string>)
    requires IsAbsolute(base)
    ensures |anchored| == |paths|
  {
    seq(|paths|, k requires 0 <= k < |paths| => Anchor(base, paths[k]))
  }

  function AnchorList(base: string, paths: Option<seq<string>>): Option<seq<string>>
    requires IsAbsolute(base)
  {
    match paths
    case None => None
    case Some(list) => Some(AnchorAll(base, list))
  }

  function AnchorLanguage(base: string, language: LanguagePaths): LanguagePaths
    requires IsAbsolute(base)
  {
    LanguagePaths(
      match language.parser
      case None => None
      case Some(path) => Some(Anchor(base, path)),
      AnchorList(base, language.queries))
  }

  function AnchorLanguages(base: string, languages: map<string, LanguagePaths>): map<string, LanguagePaths>
    requires IsAbsolute(base)
  {
    map name | name in languages :: AnchorLanguage(base, languages[name])
  }

  /** `RawWorkspaceSettings`, as far as it holds paths. */
  class RawSettings {
    var searchPaths: Option<seq<string>>
    var languages: map<string, LanguagePaths>

    constructor (searchPaths: Option<seq<string>>, languages: map<string, LanguagePaths>)
      ensures this.searchPaths == searchPaths && this.languages == languages
    {
      this.searchPaths := searchPaths;
      this.languages := languages;
    }

    /** Rewrite every path field; a layer without a source directory keeps its own. */
    method AnchorSettingsPaths(base: Option<string>) returns (unanchorable: seq<string>)
      requires base.Some? ==> IsAbsolute(base.value)
      modifies this
      ensures unanchorable == []
      ensures base.None? ==> searchPaths == old(searchPaths) && languages == old(languages)
      ensures base.Some? ==> searchPaths == AnchorList(base.value, old(searchPaths))
      ensures base.Some? ==> languages == AnchorLanguages(base.value, old(languages))
    {
      unanchorable := [];
      if base.None? {
        return;
      }
      if searchPaths.Some? {
        var list := AnchorPaths(base.value, searchPaths.value);
        searchPaths := Some(list);
      }
      var left := languages.Keys;
      while left != {}
        invariant left <= old(languages).Keys && languages.Keys == old(languages).Keys
        invariant searchPaths == AnchorList(base.value, old(searchPaths))
        invariant forall name :: name in left ==> languages[name] == old(languages)[name]
        invariant forall name :: name in languages && name !in left ==>
                    languages[name] == AnchorLanguage(base.value, old(languages)[name])
        decreases left
      {
        var name :| name in left;
        var language := languages[name];
        var parser := language.parser;
        if parser.Some? && !CarriesItsOwnBase(parser.value) {
          parser := Some(Anchor(base.value, parser.value));
        }
        var queries := language.queries;
        if queries.Some? {
          var list := AnchorPaths(base.value, queries.value);
          queries := Some(list);
        }
        languages := languages[name := LanguagePaths(parser, queries)];
        left := left - {name};
      }
    }
  }

  method AnchorPaths(base: string, paths: seq<string>) returns (anchored: seq<string>)
    requires IsAbsolute(base)
    ensures anchored == AnchorAll(base, paths)
  {
    anchored := paths;
    var k := 0;
    while k < |paths|
      invariant 0 <= k <= |paths| == |anchored|
      invariant forall j | 0 <= j < k :: anchored[j] == Anchor(base, paths[j])
      invariant forall j | k <= j < |paths| :: anchored[j] == paths[j]
    {
      if !CarriesItsOwnBase(anchored[k]) {
        anchored := anchored[k := Anchor(base, anchored[k])];
      }
      k := k + 1;
    }
  }

  lemma ListAnchoredOnce(base: string, other: string, paths: seq<string>)
    requires IsAbsolute(base) && IsAbsolute(other)
    ensures AnchorAll(other, AnchorAll(base, paths)) == AnchorAll(base, paths)
  {
    forall k | 0 <= k < |paths|
      ensures Anchor(other, AnchorAll(base, paths)[k]) == AnchorAll(base, paths)[k]
    {
      AnchoringIsIdempotent(base, other, paths[k]);
    }
  }

  /** A layer that was anchored once is left alone by every later anchoring. */
  lemma LayerAnchoredOnce(base: string, other: string, languages: map<string, LanguagePaths>)
    requires IsAbsolute(base) && IsAbsolute(other)
    ensures AnchorLanguages(other, AnchorLanguages(base, languages)) == AnchorLanguages(base, languages)
  {
    forall name | name in languages
      ensures AnchorLanguage(other, AnchorLanguage(base, languages[name])) == AnchorLanguage(base, languages[name])
    {
      var language := languages[name];
      if language.parser.Some? {
        AnchoringIsIdempotent(base, other, language.parser.value);
      }
      if language.queries.Some? {
        ListAnchoredOnce(base, other, language.queries.value);
      }
    }
  }
}
