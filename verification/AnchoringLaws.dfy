/**
 Anchoring and expansion: what the expansion pass makes of an anchored value.
 */
module AnchoringLaws {
  import opened PathText
  import opened Expansion
  import opened PathAnchoring
  import opened AnchoredExpansion
  import opened Wrappers

  // ---------------------------------------------------------------- the anchored value, token by token

  lemma {:induction false} CharacterInPiece(s: string, c: char)
    requires c in s && c != '/'
    ensures exists k :: 0 <= k < |Split('/', s)| && c in Split('/', s)[k]
  {
    var rest := Split('/', s[1..]);
    assert s == [s[0]] + s[1..];
    if s[0] == c {
      assert c in Split('/', s)[0];
    } else {
      CharacterInPiece(s[1..], c);
      var k :| 0 <= k < |rest| && c in rest[k];
      assert c in Split('/', s)[if s[0] == '/' then k + 1 else k];
    }
  }

  lemma DollarIsKept(path: string)
    requires '$' in path
    ensures Components(path) != []
  {
    CharacterInPiece(path, '$');
    var k :| 0 <= k < |Split('/', path)| && '$' in Split('/', path)[k];
    var piece := Split('/', path)[k];
    KeptOfKept('.', Split('/', path));
    assert piece in Split('/', path) && IsKept('.', piece);
    assert piece in Components(path);
  }

  lemma {:induction false} HeadIsPrefix(s: string)
    ensures Split('/', s)[0] <= s
  {
    if s != "" && s[0] != '/' {
      HeadIsPrefix(s[1..]);
      assert s == [s[0]] + s[1..];
    }
  }

  lemma {:induction false} NoDotsNoUps(path: string)
    requires !HasDots(path)
    ensures ".." !in Split('/', path)
  {
    if path != "" {
      NoDotsNoUps(path[1..]);
      HeadIsPrefix(path);
      var rest := Split('/', path[1..]);
      if path[0] != '/' {
        assert [path[0]] + rest[0] == Split('/', path)[0];
        assert rest[0] <= path[1..] by { HeadIsPrefix(path[1..]); }
      }
    }
  }

  /** A value without references ends up, escaped, where it lies under the base. */
  lemma AnchorOfPlain(base: string, path: string)
    requires IsAbsolute(base) && !CarriesItsOwnBase(path) && '$' !in path
    ensures Anchor(base, path) == Escape(Clean(base + "/" + path))
  {
    var all := Components(base) + Components(path);
    EscapeKeepsEnds(base);
    JoinedComponents(Escape(base), path);
    ComponentsEscaped(base);
    EscapeWithoutDollar(path);
    ComponentsEscaped(path);
    EscapeEachAppend(Components(base), Components(path));
    ComponentsAt(base, path);
    FoldEscaped([], all);
    EachEscaped(Fold('.', [], all));
    assert Escape("/") == "/";
  }

  /** The base in front of a value with references: folded unless the value has a `..`. */
  function AnchoredBase(base: string, path: string): seq<string> {
    if HasDots(path) then Components(base) else Fold('.', [], Components(base))
  }

  lemma FoldKeepsValue(base: string, path: string)
    requires !HasDots(path)
    ensures Fold('.', [], EscapeEach(Components(base)) + Components(path)) ==
            EscapeEach(Fold('.', [], Components(base))) + Components(path)
  {
    NoDotsNoUps(path);
    KeptOfKept('.', Split('/', path));
    FoldAppend('.', [], EscapeEach(Components(base)), Components(path));
    FoldEscaped([], Components(base));
    FoldWithoutUps('.', EscapeEach(Fold('.', [], Components(base))), Components(path));
  }

  lemma AnchorOfReferring(base: string, path: string)
    requires IsAbsolute(base) && !CarriesItsOwnBase(path) && '$' in path
    ensures Anchor(base, path) == Escape(Each('/', AnchoredBase(base, path))) + Raw(Tidy(path))
  {
    EscapeKeepsEnds(base);
    JoinedComponents(Escape(base), path);
    ComponentsEscaped(base);
    DollarIsKept(path);
    if !HasDots(path) {
      FoldKeepsValue(base, path);
    }
    var front := AnchoredBase(base, path);
    EachAppend('/', EscapeEach(front), Components(path));
    EachEscaped(front);
    ComponentsOfValue(path);
  }

  /** What the expansion pass reads in an anchored value. */
  function AnchoredTokens(base: string, path: string): seq<Token> {
    if '$' in path then EscapeTokens(Each('/', AnchoredBase(base, path))) + Tidy(path)
    else EscapeTokens(Clean(base + "/" + path))
  }

  lemma AnchorIsRead(base: string, path: string)
    requires IsAbsolute(base) && !CarriesItsOwnBase(path)
    ensures Parse(Anchor(base, path)) == AnchoredTokens(base, path)
  {
    if '$' in path {
      AnchorOfReferring(base, path);
      TidyIsWellFormed(path);
      EscapedReadsAsItself(Each('/', AnchoredBase(base, path)), Tidy(path));
    } else {
      AnchorOfPlain(base, path);
      var place := Clean(base + "/" + path);
      EscapedReadsAsItself(place, []);
      assert EscapeTokens(place) + [] == EscapeTokens(place) && Escape(place) + "" == Escape(place);
    }
    PrintIsFaithful(AnchoredTokens(base, path));
  }

  // ---------------------------------------------------------------- references

  lemma {:induction false} ReferencesOfKept(pieces: seq<seq<Token>>)
    ensures References(Each(SLASH, Kept(DOT, pieces))) == References(Each(SLASH, pieces))
  {
    if pieces != [] {
      ReferencesOfKept(pieces[1..]);
      var q, rest := [SLASH] + pieces[0], Each(SLASH, pieces[1..]);
      ReferencesAppend(q, rest);
      if IsKept(DOT, pieces[0]) {
        assert ([pieces[0]] + Kept(DOT, pieces[1..]))[1..] == Kept(DOT, pieces[1..]);
        ReferencesAppend(q, Each(SLASH, Kept(DOT, pieces[1..])));
      } else {
        assert Kept(DOT, pieces) == Kept(DOT, pieces[1..]);
        assert References(q) == [] by {
          assert q[1..] == pieces[0];
          assert [DOT][1..] == [];
        }
      }
    }
  }

  lemma {:induction false} ReferencesSqueezed(ts: seq<Token>)
    requires WellFormed(ts)
    ensures References(SqueezeAll(ts)) == SqueezeNames(References(ts))
  {
    if ts != [] {
      ReferencesSqueezed(ts[1..]);
      assert SqueezeAll(ts)[1..] == SqueezeAll(ts[1..]);
      if ts[0].IsReference() {
        assert References(ts)[1..] == References(ts[1..]);
        if ts[0].Bare? {
          assert '/' !in ts[0].name;
          SplitWhole('/', ts[0].name);
        }
      } else {
        assert References(ts) == References(ts[1..]);
        assert References(SqueezeAll(ts)) == References(SqueezeAll(ts[1..]));
      }
    }
  }

  lemma ReferencesOfTidy(path: string)
    ensures References(Tidy(path)) == SqueezeNames(References(Parse(path)))
  {
    var ts := SqueezeAll(Parse(path));
    ReferencesOfKept(Split(SLASH, ts));
    EachSplit(SLASH, ts);
    assert ([SLASH] + ts)[1..] == ts;
    assert References([SLASH] + ts) == References(ts);
    ParseIsFaithful(path);
    ReferencesSqueezed(Parse(path));
  }

  function Literally(s: string): seq<Token> {
    if s == "" then [] else [Lit(s[0])] + Literally(s[1..])
  }

  lemma {:induction false} PlainIsLiteral(path: string)
    requires '$' !in path
    ensures Parse(path) == Literally(path)
  {
    if path != "" {
      assert path[0] in path;
      PlainIsLiteral(path[1..]);
    }
  }

  lemma {:induction false} LiteralText(s: string, env: Env)
    ensures References(Literally(s)) == [] && Text(Literally(s), env) == s
  {
    if s != "" {
      LiteralText(s[1..], env);
      ReferencesCons(Lit(s[0]), Literally(s[1..]));
      TextCons(Lit(s[0]), Literally(s[1..]), env);
      assert s == [s[0]] + s[1..];
    }
  }

  lemma PlainHasNoReferences(path: string, env: Env)
    requires '$' !in path
    ensures References(Parse(path)) == [] && Text(Parse(path), env) == path
  {
    PlainIsLiteral(path);
    LiteralText(path, env);
  }

  /** Anchoring adds no reference and folds none away: the names are those of the
      value, in order, with what a path cleans away taken out of braced ones. */
  lemma ReferencesOfAnchored(base: string, path: string)
    requires IsAbsolute(base) && !CarriesItsOwnBase(path)
    ensures References(Parse(Anchor(base, path))) == SqueezeNames(References(Parse(path)))
  {
    var env: Env := name => None;
    AnchorIsRead(base, path);
    if '$' in path {
      EscapedExpandsToItself(Each('/', AnchoredBase(base, path)), env);
      ReferencesAppend(EscapeTokens(Each('/', AnchoredBase(base, path))), Tidy(path));
      ReferencesOfTidy(path);
    } else {
      EscapedExpandsToItself(Clean(base + "/" + path), env);
      PlainHasNoReferences(path, env);
    }
  }

  /** No name the value refers to has a `//` or a `/./` in it. */
  predicate HasTightNames(path: string) {
    forall name :: name in References(Parse(path)) ==> IsTight(name)
  }

  lemma {:induction false} SqueezeNamesIffTight(names: seq<string>)
    ensures SqueezeNames(names) == names <==> forall name :: name in names ==> IsTight(name)
  {
    if names != [] {
      SqueezeNamesIffTight(names[1..]);
      SqueezeIffTight(names[0]);
      assert names == [names[0]] + names[1..];
      assert SqueezeNames(names)[1..] == SqueezeNames(names[1..]);
    }
  }

  /** The references survive anchoring exactly when cleaning leaves their names alone. */
  lemma ReferencesSurviveIffTight(base: string, path: string)
    requires IsAbsolute(base)
    ensures References(Parse(Anchor(base, path))) == References(Parse(path)) <==>
            CarriesItsOwnBase(path) || HasTightNames(path)
  {
    if !CarriesItsOwnBase(path) {
      ReferencesOfAnchored(base, path);
      SqueezeNamesIffTight(References(Parse(path)));
    }
  }

  lemma ExamplePieces()
    ensures "a" + "/" + "/b" == "a//b" && "" + "/" + "b" == "/b"
  {
  }

  lemma SqueezedExample()
    ensures Squeeze("a//b") == "a/b"
  {
    SplitAt('/', "a", "/b");
    SplitAt('/', "", "b");
    SplitWhole('/', "a");
    SplitWhole('/', "b");
    ExamplePieces();
    var ps := Split('/', "a//b");
    assert ps == ["a", "", "b"] && ps[1..2] == [""];
    assert Kept('.', [""]) == Kept('.', []) == [];
  }

  lemma ExampleText()
    ensures "x" + ("${" + "a//b" + "}" + "") == "x${a//b}"
  {
  }

  lemma ParsedExample()
    ensures Parse("x${a//b}") == [Lit('x')] + ([Braced("a//b")] + [])
  {
    var braced := Braced("a//b").Raw() + "";
    ParseToken(Lit('x'), braced);
    ParseToken(Braced("a//b"), "");
    ExampleText();
    assert Parse("x" + braced) == [Lit('x')] + Parse(braced);
  }

  /** Cleaning reaches into braces: `x${a//b}` comes to refer to `a/b`. */
  lemma BracedNameIsChanged()
    ensures References(Parse("x${a//b}")) == ["a//b"]
    ensures References(Parse(Anchor("/w", "x${a//b}"))) == ["a/b"]
  {
    ParsedExample();
    ReferencesOfExample();
    ReferencesOfAnchored("/w", "x${a//b}");
    SqueezedExample();
    assert SqueezeNames(["a//b"]) == [Squeeze("a//b")] + SqueezeNames([]);
  }

  lemma ReferencesOfExample()
    ensures References([Lit('x')] + ([Braced("a//b")] + [])) == ["a//b"]
  {
    ReferencesCons(Lit('x'), [Braced("a//b")] + []);
    ReferencesCons(Braced("a//b"), []);
  }

  // ---------------------------------------------------------------- expansion

  lemma ReferencesOfRest(ts: seq<Token>)
    requires ts != []
    ensures forall name :: name in References(ts[1..]) ==> name in References(ts)
    ensures ts[0].Braced? ==> ts[0].name in References(ts)
  {
  }

  lemma {:induction false} TightIsUnsqueezed(ts: seq<Token>)
    requires forall name :: name in References(ts) ==> IsTight(name)
    ensures SqueezeAll(ts) == ts
  {
    if ts != [] {
      ReferencesOfRest(ts);
      TightIsUnsqueezed(ts[1..]);
      assert ts == [ts[0]] + ts[1..];
      if ts[0].Braced? {
        SqueezeIffTight(ts[0].name);
      }
    }
  }

  lemma TextOfDropped(p: seq<Token>, env: Env)
    requires !IsKept(DOT, p)
    ensures Components(Text(p, env)) == []
  {
    SplitWholeDot();
    if p == [DOT] {
      assert [DOT][1..] == [] && Text([DOT], env) == ".";
    }
  }

  lemma TextBehindSlash(a: string, p: seq<Token>, rest: seq<Token>, env: Env)
    ensures Components(a + Text([SLASH] + p + rest, env)) == Components(a) + Components(Text(p + rest, env))
  {
    assert ([SLASH] + p + rest)[1..] == p + rest;
    assert a + Text([SLASH] + p + rest, env) == a + "/" + Text(p + rest, env);
    ComponentsAt(a, Text(p + rest, env));
  }

  /** Behind any text, the pieces a path drops expand to nothing a path keeps. */
  lemma {:induction false} ExpandedKept(a: string, pieces: seq<seq<Token>>, env: Env)
    ensures Components(a + Text(Each(SLASH, Kept(DOT, pieces)), env)) == Components(a + Text(Each(SLASH, pieces), env))
    decreases |pieces|
  {
    if pieces != [] {
      var p, rest := pieces[0], pieces[1..];
      var here := a + "/" + Text(p, env);
      TextOfFirst(a, p, Each(SLASH, rest), env);
      if IsKept(DOT, p) {
        ExpandedKept(here, rest, env);
        assert ([p] + Kept(DOT, rest))[1..] == Kept(DOT, rest);
        TextOfFirst(a, p, Each(SLASH, Kept(DOT, rest)), env);
      } else {
        assert Kept(DOT, pieces) == Kept(DOT, rest);
        ExpandedKept(a, rest, env);
        DroppedInFront(a, p, rest, env);
      }
    }
  }

  lemma TextOfFirst(a: string, p: seq<Token>, rest: seq<Token>, env: Env)
    ensures a + Text([SLASH] + p + rest, env) == a + "/" + Text(p, env) + Text(rest, env)
  {
    assert ([SLASH] + p + rest)[1..] == p + rest;
    TextAppend(p, rest, env);
    assert Text([SLASH] + p + rest, env) == "/" + (Text(p, env) + Text(rest, env));
  }

  lemma DroppedInFront(a: string, p: seq<Token>, pieces: seq<seq<Token>>, env: Env)
    requires !IsKept(DOT, p)
    ensures Components(a + "/" + Text(p, env) + Text(Each(SLASH, pieces), env)) ==
            Components(a + Text(Each(SLASH, pieces), env))
  {
    TextOfDropped(p, env);
    var before, text := a + "/" + Text(p, env), Text(Each(SLASH, pieces), env);
    ComponentsAt(a, Text(p, env));
    assert Components(before) == Components(a);
    if pieces == [] {
      assert text == "" && before + text == before && a + text == a;
    } else {
      var rest := Each(SLASH, pieces[1..]);
      TextBehindSlash(before, pieces[0], rest, env);
      TextBehindSlash(a, pieces[0], rest, env);
    }
  }

  /** A value's tokens as cleaning leaves their names. */
  function Squeezed(path: string): seq<Token> {
    SqueezeAll(Parse(path))
  }

  /** Expanding the tidied value under some base gives, up to cleaning, that base
      with the expanded value behind it. */
  lemma ExpandedTidy(front: string, path: string, env: Env)
    ensures Components(front + Text(Tidy(path), env)) == Components(front) + Components(Text(Squeezed(path), env))
  {
    var ts := Squeezed(path);
    ExpandedKept(front, Split(SLASH, ts), env);
    EachSplit(SLASH, ts);
    TextBehindSlash(front, ts, [], env);
    assert [SLASH] + ts + [] == [SLASH] + ts && ts + [] == ts;
  }

  lemma {:induction false} ComponentsOfEach(pieces: seq<string>)
    requires forall k | 0 <= k < |pieces| :: '/' !in pieces[k] && IsKept('.', pieces[k])
    ensures Components(Each('/', pieces)) == pieces
  {
    SplitWholeDot();
    if pieces != [] {
      var n := |pieces| - 1;
      var front, last := pieces[..n], pieces[n];
      assert pieces == front + [last];
      ComponentsOfEach(front);
      EachAppend('/', front, [last]);
      assert Each('/', [last]) == "/" + last;
      assert Each('/', pieces) == Each('/', front) + "/" + last;
      ComponentsAt(Each('/', front), last);
      SplitWhole('/', last);
      assert Kept('.', [last]) == [last];
    }
  }

  predicate AreComponents(pieces: seq<string>) {
    forall k | 0 <= k < |pieces| :: '/' !in pieces[k] && IsKept('.', pieces[k])
  }

  lemma ComponentsAreComponents(s: string)
    ensures AreComponents(Components(s)) && AreComponents(Fold('.', [], Components(s)))
  {
    PiecesHaveNoSeparator('/', s);
    KeptOfKept('.', Split('/', s));
    FoldLeavesNoUps('.', [], Components(s));
    forall p | p in Components(s)
      ensures '/' !in p && IsKept('.', p)
    {
    }
    forall k | 0 <= k < |Components(s)|
      ensures '/' !in Components(s)[k] && IsKept('.', Components(s)[k])
    {
      assert Components(s)[k] in Components(s);
    }
    var folded := Fold('.', [], Components(s));
    forall k | 0 <= k < |folded|
      ensures '/' !in folded[k] && IsKept('.', folded[k])
    {
      assert folded[k] in folded;
    }
  }

  lemma CleanIsClean(s: string)
    ensures Clean(Clean(s)) == Clean(s)
  {
    var folded := Fold('.', [], Components(s));
    ComponentsAreComponents(s);
    ComponentsOfRendered(folded);
    FoldLeavesNoUps('.', [], Components(s));
    FoldWithoutUps('.', [], folded);
    assert [] + folded == folded;
  }

  lemma ComponentsOfRendered(pieces: seq<string>)
    requires AreComponents(pieces)
    ensures Components(Render('/', pieces)) == pieces
  {
    ComponentsOfEach(pieces);
    if pieces == [] {
      ComponentsAt("", "");
      SplitWholeDot();
      assert "" + "/" + "" == "/";
    }
  }

  lemma CleanOfReferring(base: string, path: string, env: Env)
    ensures Clean(Each('/', AnchoredBase(base, path)) + Text(Tidy(path), env)) ==
            Clean(base + "/" + Text(Squeezed(path), env))
  {
    var front := AnchoredBase(base, path);
    var text := Text(Squeezed(path), env);
    ComponentsAreComponents(base);
    ComponentsOfEach(front);
    ExpandedTidy(Each('/', front), path, env);
    ComponentsAt(base, text);
    FoldPrefix('.', Components(base), Components(text));
  }

  /** `anchored` is `value` found under the base's literal name, dollars and all;
      or both fail, on the same name. */
  predicate FoundUnder(base: string, value: Expanded, anchored: Expanded) {
    match value
    case UndefinedVar(_) => anchored == value
    case Ok(text) => anchored.Ok? && Clean(anchored.text) == Clean(base + "/" + text)
  }

  lemma SqueezedOfPlain(path: string, env: Env)
    requires '$' !in path
    ensures ExpandTokens(Squeezed(path), env) == Ok(path)
  {
    PlainHasNoReferences(path, env);
    TightIsUnsqueezed(Parse(path));
    ExpandedByReferences(Parse(path), env);
  }

  /** For every value: expanding the anchored value finds, under the base, what the
      value expands to once cleaning has been through the names in its braces. */
  lemma ExpansionOfSqueezed(base: string, path: string, env: Env)
    requires IsAbsolute(base) && !CarriesItsOwnBase(path)
    ensures FoundUnder(base, ExpandTokens(Squeezed(path), env), Expand(Anchor(base, path), env))
  {
    var tokens := AnchoredTokens(base, path);
    AnchorIsRead(base, path);
    ExpandedByReferences(tokens, env);
    if '$' in path {
      var front := Each('/', AnchoredBase(base, path));
      ReferencesOfAnchored(base, path);
      ParseIsFaithful(path);
      ReferencesSqueezed(Parse(path));
      ExpandedByReferences(Squeezed(path), env);
      TextAppend(EscapeTokens(front), Tidy(path), env);
      EscapedExpandsToItself(front, env);
      CleanOfReferring(base, path, env);
    } else {
      SqueezedOfPlain(path, env);
      EscapedExpandsToItself(Clean(base + "/" + path), env);
      CleanIsClean(base + "/" + path);
    }
  }

  // ---------------------------------------------------------------- when that is what the value itself expands to

  lemma SqueezeIsTight(name: string)
    ensures IsTight(Squeeze(name))
  {
    var ps := Split('/', name);
    if |ps| > 1 {
      var middle := ps[1..|ps| - 1];
      PiecesHaveNoSeparator('/', name);
      KeptOfKept('.', middle);
      assert '/' !in ps[|ps| - 1];
      assert forall k | 0 <= k < |middle| :: middle[k] == ps[k + 1] && '/' !in middle[k];
      var kept := Kept('.', middle);
      forall k | 0 <= k < |kept|
        ensures '/' !in kept[k] && IsKept('.', kept[k])
      {
        assert kept[k] in kept;
      }
      SplitAround(ps[0], kept, ps[|ps| - 1]);
      SplitWhole('/', ps[|ps| - 1]);
      assert Split('/', Squeeze(name)) == [ps[0]] + kept + [ps[|ps| - 1]];
    }
  }

  lemma {:induction false} SqueezeNamesAreTight(names: seq<string>)
    ensures forall name :: name in SqueezeNames(names) ==> IsTight(name)
  {
    if names != [] {
      SqueezeNamesAreTight(names[1..]);
      SqueezeIsTight(names[0]);
      assert SqueezeNames(names) == [Squeeze(names[0])] + SqueezeNames(names[1..]);
    }
  }

  /** An environment that knows every name but one. */
  function AllBut(name: string): Env {
    other => if other == name then None else Some("")
  }

  lemma {:induction false} FirstMissing(names: seq<string>, name: string)
    ensures FirstUndefined(names, AllBut(name)) == if name in names then Some(name) else None
  {
    if names != [] {
      FirstMissing(names[1..], name);
      assert names == [names[0]] + names[1..];
    }
  }

  /** A name that cleaning changes tells the two apart: without it the value cannot
      be expanded, while the anchored value does not ask for it. */
  lemma UntightIsMissed(base: string, path: string, name: string)
    requires IsAbsolute(base) && !CarriesItsOwnBase(path)
    requires name in References(Parse(path)) && !IsTight(name)
    ensures !FoundUnder(base, Expand(path, AllBut(name)), Expand(Anchor(base, path), AllBut(name)))
  {
    var names := References(Parse(path));
    ReferencesOfAnchored(base, path);
    SqueezeNamesAreTight(names);
    FirstMissing(names, name);
    FirstMissing(SqueezeNames(names), name);
    ExpandedByReferences(Parse(path), AllBut(name));
    ExpandedByReferences(Parse(Anchor(base, path)), AllBut(name));
  }

  /** The law of the module, and when it holds: in every environment, expanding the
      anchored value finds the expanded value under the base's literal name, and
      fails exactly when expanding the value fails, on the same name - if and only
      if no name in its braces has a `//` or a `/./`. */
  lemma ExpansionOfAnchored(base: string, path: string)
    requires IsAbsolute(base) && !CarriesItsOwnBase(path)
    ensures (forall env: Env :: FoundUnder(base, Expand(path, env), Expand(Anchor(base, path), env))) <==>
            HasTightNames(path)
  {
    if HasTightNames(path) {
      TightIsUnsqueezed(Parse(path));
      forall env: Env
        ensures FoundUnder(base, Expand(path, env), Expand(Anchor(base, path), env))
      {
        ExpansionOfSqueezed(base, path, env);
      }
    } else {
      var name :| name in References(Parse(path)) && !IsTight(name);
      UntightIsMissed(base, path, name);
    }
  }

  /** Anchoring again, under any base, changes nothing. */
  lemma AnchoringIsIdempotent(base: string, other: string, path: string)
    requires IsAbsolute(base) && IsAbsolute(other)
    ensures Anchor(other, Anchor(base, path)) == Anchor(base, path)
  {
  }
}
